/** The email-verification link handler (`GET /api/auth/verify`): it looks
    up the (email, token) pair, discards an expired token, and otherwise
    marks the user's email verified and consumes the token, redirecting to
    the login page with an outcome in the query string. */
module VerifyRoute {
  import opened Common
  import opened Database

  /** The five ways the handler ends. */
  datatype VerifyOutcome = MissingParameters | InvalidToken | ExpiredToken | Verified | VerificationFailed

  /** The handler's effect on the tables and where it sends the browser. */
  datatype RouteStep = RouteStep(outcome: VerifyOutcome, after: Tables)

  /** `!x` for a query parameter: absent or empty. */
  predicate Missing(param: Option<string>)
  {
    param.None? || param.value == ""
  }

  /** `update({ where: { email }, data: { email_verified: now } })`: the row
      with that email gets the timestamp. */
  function MarkVerified(users: map<Id, User>, email: string, now: int): (r: map<Id, User>)
    ensures r.Keys == users.Keys
    ensures forall id :: id in users && users[id].email == email ==> r[id] == users[id].(emailVerified := Some(now))
    ensures forall id :: id in users && users[id].email != email ==> r[id] == users[id]
  {
    map id | id in users :: if users[id].email == email then users[id].(emailVerified := Some(now)) else users[id]
  }

  /** Marking a user verified keeps every email, so it keeps them unique. */
  lemma MarkVerifiedKeepsEmailsUnique(users: map<Id, User>, email: string, now: int)
    requires EmailsUnique(users)
    ensures EmailsUnique(MarkVerified(users, email, now))
  {
    var r := MarkVerified(users, email, now);
    assert forall id :: id in r ==> r[id].email == users[id].email;
  }

  /** The handler on the tables `s` at time `now` (the clock of `new Date()`). */
  function VerifyStep(s: Tables, token: Option<string>, email: Option<string>, now: int): (out: RouteStep)
    ensures Missing(token) || Missing(email) ==> out == RouteStep(MissingParameters, s)
    ensures !Missing(token) && !Missing(email) ==>
      var key := (email.value, token.value);
      && (key !in s.tokens ==> out == RouteStep(InvalidToken, s))
      && (key in s.tokens && now > s.tokens[key] ==>
            out == RouteStep(ExpiredToken, s.(tokens := s.tokens - {key})))
      && (key in s.tokens && now <= s.tokens[key] && !EmailTaken(s.users, email.value) ==>
            out == RouteStep(VerificationFailed, s))
      && (key in s.tokens && now <= s.tokens[key] && EmailTaken(s.users, email.value) ==>
            out == RouteStep(Verified, s.(users := MarkVerified(s.users, email.value, now), tokens := s.tokens - {key})))
  {
    if Missing(token) || Missing(email) then RouteStep(MissingParameters, s)
    else
      var key := (email.value, token.value);
      if key !in s.tokens then RouteStep(InvalidToken, s)
      else if now > s.tokens[key] then RouteStep(ExpiredToken, s.(tokens := s.tokens - {key}))
      // The user update throws when no row has that email; the token is
      // then still in place.
      else if !EmailTaken(s.users, email.value) then RouteStep(VerificationFailed, s)
      else RouteStep(Verified, s.(users := MarkVerified(s.users, email.value, now), tokens := s.tokens - {key}))
  }

  /** A token is good for one use: once a link has verified an email or has
      been found expired, following it again finds no token, at any time. */
  lemma TokenSingleUse(s: Tables, token: Option<string>, email: Option<string>, now: int, later: int)
    ensures var first := VerifyStep(s, token, email, now);
      first.outcome == Verified || first.outcome == ExpiredToken ==>
        VerifyStep(first.after, token, email, later) == RouteStep(InvalidToken, first.after)
  {
  }

  /** Only a successful verification marks anyone verified, and it marks
      exactly the owner of the email; the instant of expiry still counts. */
  lemma OnlyVerifiedMarks(s: Tables, token: Option<string>, email: Option<string>, now: int)
    ensures var out := VerifyStep(s, token, email, now);
      && (out.outcome != Verified ==> out.after.users == s.users)
      && (out.outcome == Verified ==>
            forall id :: id in s.users ==>
              (out.after.users[id].emailVerified == Some(now) <==> s.users[id].email == email.value || s.users[id].emailVerified == Some(now)))
      && (!Missing(token) && !Missing(email) && (email.value, token.value) in s.tokens
          && now == s.tokens[(email.value, token.value)] && EmailTaken(s.users, email.value)
          ==> out.outcome == Verified)
  {
  }

  /** The `error=`/`verified=` pair of the redirect. */
  function QueryFlag(o: VerifyOutcome): string
  {
    match o
    case MissingParameters => "error=missing_parameters"
    case InvalidToken => "error=invalid_token"
    case ExpiredToken => "error=expired_token"
    case Verified => "verified=true"
    case VerificationFailed => "error=verification_failed"
  }

  /** The `message=` text of the redirect, before encoding. */
  function OutcomeMessage(o: VerifyOutcome): string
  {
    match o
    case MissingParameters => "Invalid verification link."
    case InvalidToken => "Invalid or already used verification link."
    case ExpiredToken => "Verification link has expired. Please register again."
    case Verified => "Email verified successfully! You can now login."
    case VerificationFailed => "Something went wrong. Please try again."
  }

  /** `process.env.NEXT_PUBLIC_APP_URL || 'http://localhost:3000'`. */
  function BaseUrl(env: Option<string>): (url: string)
    ensures env.Some? && env.value != "" ==> url == env.value
    ensures env.None? || env.value == "" ==> url == "http://localhost:3000"
  {
    if env.Some? && env.value != "" then env.value else "http://localhost:3000"
  }

  /** The characters `encodeURIComponent` leaves as they are. */
  predicate Unreserved(c: char)
  {
    ('A' <= c <= 'Z') || ('a' <= c <= 'z') || ('0' <= c <= '9')
    || c == '-' || c == '_' || c == '.' || c == '!' || c == '~' || c == '*' || c == '\'' || c == '(' || c == ')'
  }

  const HexDigits := "0123456789ABCDEF"

  /** The value of a hex digit in either case, or -1. */
  function HexValue(c: char): int
  {
    if '0' <= c <= '9' then c as int - '0' as int
    else if 'A' <= c <= 'F' then c as int - 'A' as int + 10
    else if 'a' <= c <= 'f' then c as int - 'a' as int + 10
    else -1
  }

  lemma HexDigitValue(d: int)
    requires 0 <= d < 16
    ensures HexValue(HexDigits[d]) == d
  {
  }

  /** `encodeURIComponent` of one character: itself when unreserved, `%XY`
      for the other ASCII characters. */
  function EncodeChar(c: char): (e: string)
    ensures Unreserved(c) || c >= 128 as char ==> e == [c]
    ensures !Unreserved(c) && c < 128 as char ==> |e| == 3 && e[0] == '%'
  {
    if Unreserved(c) || c >= 128 as char then [c]
    else ['%', HexDigits[c as int / 16], HexDigits[c as int % 16]]
  }

  /** `encodeURIComponent`: no space and no reserved ASCII character is
      left in the result. */
  function Encode(s: string): (e: string)
    ensures forall i :: 0 <= i < |e| ==> Unreserved(e[i]) || e[i] == '%' || e[i] in HexDigits || e[i] >= 128 as char
    decreases |s|
  {
    if s == [] then [] else EncodeChar(s[0]) + Encode(s[1..])
  }

  /** `decodeURIComponent` on its ASCII escapes: `%XY` below `%80`, in
      either case, becomes that character; any other text is kept. */
  function Decode(e: string): string
    decreases |e|
  {
    if e == [] then []
    else if e[0] == '%' && |e| >= 3 && 0 <= HexValue(e[1]) < 8 && 0 <= HexValue(e[2]) then
      [(16 * HexValue(e[1]) + HexValue(e[2])) as char] + Decode(e[3..])
    else [e[0]] + Decode(e[1..])
  }

  /** Decoding reads one encoded character back. */
  lemma DecodeEncodeChar(c: char, rest: string)
    ensures Decode(EncodeChar(c) + rest) == [c] + Decode(rest)
  {
    var e := EncodeChar(c) + rest;
    if Unreserved(c) || c >= 128 as char {
      assert e[1..] == rest;
    } else {
      var n := c as int;
      HexDigitValue(n / 16);
      HexDigitValue(n % 16);
      assert e[1] == HexDigits[n / 16] && e[2] == HexDigits[n % 16];
      assert 16 * (n / 16) + n % 16 == n;
      assert e[3..] == rest;
    }
  }

  /** Decoding what was encoded gives the message back. */
  lemma {:induction false} DecodeEncode(s: string)
    ensures Decode(Encode(s)) == s
    decreases |s|
  {
    if s != [] {
      DecodeEncode(s[1..]);
      DecodeEncodeChar(s[0], Encode(s[1..]));
      assert s == [s[0]] + s[1..];
    }
  }

  /** Lower-case escapes are read as upper-case ones are. */
  lemma DecodeEitherCase()
    ensures Decode("%2f") == "/" && Decode("%2F") == "/"
  {
    assert "%2f"[3..] == [];
    assert "%2F"[3..] == [];
  }

  /** The redirect target of the response. */
  function Location(env: Option<string>, o: VerifyOutcome): (url: string)
  {
    BaseUrl(env) + "/login?" + QueryFlag(o) + "&message=" + Encode(OutcomeMessage(o))
  }

  /** Every redirect goes to the login page of the base URL, and its
      message decodes to the outcome's text and holds no space. */
  lemma LocationShape(env: Option<string>, o: VerifyOutcome)
    ensures var prefix := BaseUrl(env) + "/login?" + QueryFlag(o) + "&message=";
      && StartsWithPrefix(Location(env, o), prefix)
      && Decode(Location(env, o)[|prefix|..]) == OutcomeMessage(o)
      && ' ' !in Location(env, o)[|prefix|..]
  {
    var prefix := BaseUrl(env) + "/login?" + QueryFlag(o) + "&message=";
    var m := OutcomeMessage(o);
    AfterPrefix(prefix, Encode(m));
    DecodeEncode(m);
    NoSpaceAfterEncoding(m);
  }

  predicate StartsWithPrefix(s: string, prefix: string)
  {
    |prefix| <= |s| && s[..|prefix|] == prefix
  }

  lemma AfterPrefix(prefix: string, rest: string)
    ensures StartsWithPrefix(prefix + rest, prefix) && (prefix + rest)[|prefix|..] == rest
  {
  }

  lemma NoSpaceAfterEncoding(s: string)
    ensures ' ' !in Encode(s)
  {
  }

  method Verify(db: Db, env: Option<string>, token: Option<string>, email: Option<string>, now: int) returns (location: string)
    requires db.Valid()
    modifies db
    ensures db.Valid()
    ensures var out := VerifyStep(old(db.Snapshot()), token, email, now);
      location == Location(env, out.outcome) && db.Snapshot() == out.after && db.invalidated == old(db.invalidated)
  {
    if Missing(token) || Missing(email) {
      return Location(env, MissingParameters);
    }
    var key := (email.value, token.value);
    if key !in db.tokens {
      return Location(env, InvalidToken);
    }
    if now > db.tokens[key] {
      db.tokens := db.tokens - {key};
      return Location(env, ExpiredToken);
    }
    if !EmailTaken(db.users, email.value) {
      return Location(env, VerificationFailed);
    }
    MarkVerifiedKeepsEmailsUnique(db.users, email.value, now);
    db.users := MarkVerified(db.users, email.value, now);
    db.tokens := db.tokens - {key};
    return Location(env, Verified);
  }
}
