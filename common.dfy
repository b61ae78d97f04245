/** Vocabulary shared by the server actions and the UI helpers: identifiers,
    roles, place statuses, the session the auth library hands to an action,
    the shape of an action's reply, and `Array.prototype.filter`. */
module Common {

  /** Database identifiers and user ids are opaque strings. */
  type Id = string

  datatype Option<+T> = None | Some(value: T)

  /** The `UserRole` enum of the schema. */
  datatype Role = USER | ADMIN

  /** The `PlaceStatus` enum of the schema; place records and verification
      records both use it. */
  datatype PlaceStatus = UNVERIFIED | PENDING | VERIFIED_USER | VERIFIED_ADMIN | REJECTED

  /** The enum value as the client library spells it. */
  function StatusName(s: PlaceStatus): string
  {
    match s
    case UNVERIFIED => "UNVERIFIED"
    case PENDING => "PENDING"
    case VERIFIED_USER => "VERIFIED_USER"
    case VERIFIED_ADMIN => "VERIFIED_ADMIN"
    case REJECTED => "REJECTED"
  }

  /** A string cast with `as PlaceStatus` is accepted by the database client
      only when it names an enum value. */
  function ParseStatus(name: string): (r: Option<PlaceStatus>)
    ensures r.Some? ==> StatusName(r.value) == name
  {
    if name == "UNVERIFIED" then Some(UNVERIFIED)
    else if name == "PENDING" then Some(PENDING)
    else if name == "VERIFIED_USER" then Some(VERIFIED_USER)
    else if name == "VERIFIED_ADMIN" then Some(VERIFIED_ADMIN)
    else if name == "REJECTED" then Some(REJECTED)
    else None
  }

  lemma ParseStatusName(s: PlaceStatus)
    ensures ParseStatus(StatusName(s)) == Some(s)
  {
  }

  /** The user of the session returned by `auth()`; `None` is "no session". */
  datatype SessionUser = SessionUser(id: string, role: Role)

  type Session = Option<SessionUser>

  /** `session?.user?.id` is truthy: there is a user and the id is not empty. */
  predicate HasUserId(session: Session)
  {
    session.Some? && session.value.id != ""
  }

  /** `session?.user?.role === 'ADMIN'`; this test alone does not look at the id. */
  predicate IsAdminSession(session: Session)
  {
    session.Some? && session.value.role == ADMIN
  }

  /** How a server action ends: it returns `{ success: true, data }`, it
      returns `{ success: false, error }`, or an exception escapes it. */
  datatype Response<+T> = Ok(data: T) | Fail(error: string) | Thrown(error: string)

  /** `xs` can be obtained from `ys` by deleting elements. */
  ghost predicate Subsequence<T>(xs: seq<T>, ys: seq<T>)
    decreases |ys|
  {
    if xs == [] then true
    else if ys == [] then false
    else if xs[0] == ys[0] then Subsequence(xs[1..], ys[1..])
    else Subsequence(xs, ys[1..])
  }

  lemma {:induction false} SubsequenceOfItself<T>(xs: seq<T>)
    ensures Subsequence(xs, xs)
    decreases |xs|
  {
    if xs != [] {
      SubsequenceOfItself(xs[1..]);
    }
  }

  /** `Array.prototype.filter`: the elements of `s` that `keep` accepts, in order. */
  function Filter<T>(s: seq<T>, keep: T -> bool): (r: seq<T>)
    ensures |r| <= |s|
    ensures forall x :: x in r ==> x in s && keep(x)
    ensures forall i :: 0 <= i < |s| && keep(s[i]) ==> s[i] in r
    ensures Subsequence(r, s)
    decreases |s|
  {
    if s == [] then []
    else if keep(s[0]) then [s[0]] + Filter(s[1..], keep)
    else Filter(s[1..], keep)
  }

  /** A filter that rejects nothing returns its input. */
  lemma {:induction false} FilterKeepsAll<T>(s: seq<T>, keep: T -> bool)
    requires forall x :: x in s ==> keep(x)
    ensures Filter(s, keep) == s
    decreases |s|
  {
    if s != [] {
      assert s == [s[0]] + s[1..];
      FilterKeepsAll(s[1..], keep);
    }
  }
}
