/** Sign-in and registration: the redirect a sign-in asks for, how sign-in
    errors become form messages, and the registration checks followed by
    lookup-then-create on the users table. */
module Auth {
  import opened Common
  import opened Database
  import opened Text

  /** `redirectTo` of `authenticate`: "/admin" exactly when a user with
      that email exists and is an admin. */
  function RedirectTarget(users: map<Id, User>, email: string): (to: string)
    ensures to == "/admin" || to == "/dashboard"
  {
    if exists id :: id in users && users[id].email == email && users[id].role == ADMIN then "/admin" else "/dashboard"
  }

  /** With unique emails the redirect follows the role of the one user with
      that email, and an unknown email goes to the dashboard. */
  lemma RedirectFollowsRole(users: map<Id, User>, email: string, id: Id)
    requires EmailsUnique(users)
    ensures id in users && users[id].email == email ==>
      (RedirectTarget(users, email) == "/admin" <==> users[id].role == ADMIN)
    ensures !EmailTaken(users, email) ==> RedirectTarget(users, email) == "/dashboard"
  {
    if id in users && users[id].email == email && RedirectTarget(users, email) == "/admin" {
      var other :| other in users && users[other].email == email && users[other].role == ADMIN;
      assert other == id;
    }
  }

  /** How the call to `signIn` ends: the redirect it performs on success
      (which escapes as a redirect signal), an `AuthError` of the given
      type, or any other exception. */
  datatype SignInOutcome = SignedIn | AuthFailure(errorType: string) | OtherError(error: string)

  /** How `authenticate` ends: following the redirect, returning a form
      message, or rethrowing. */
  datatype LoginResult = Redirect(path: string) | Message(text: string) | Rethrown(error: string)

  /** The `catch` of `authenticate`. */
  function MapSignInError(errorType: string): (msg: string)
    ensures msg == "Invalid credentials." <==> errorType == "CredentialsSignin"
    ensures msg == "Invalid credentials." || msg == "Something went wrong."
  {
    if errorType == "CredentialsSignin" then "Invalid credentials." else "Something went wrong."
  }

  /** `authenticate(prevState, formData)` given how `signIn` behaves. */
  function Authenticate(users: map<Id, User>, email: string, outcome: SignInOutcome): (r: LoginResult)
    ensures outcome.SignedIn? ==> r == Redirect(RedirectTarget(users, email))
    ensures outcome.AuthFailure? ==> r == Message(MapSignInError(outcome.errorType))
    ensures outcome.OtherError? ==> r == Rethrown(outcome.error)
    ensures r.Redirect? ==> r.path == "/admin" || r.path == "/dashboard"
  {
    match outcome
    case SignedIn => Redirect(RedirectTarget(users, email))
    case AuthFailure(t) => Message(MapSignInError(t))
    case OtherError(e) => Rethrown(e)
  }

  const NameMessage := "Name must be at least 2 characters."
  const EmailMessage := "Please enter a valid email."
  const PasswordMessage := "Password must be at least 6 characters."
  const MismatchMessage := "Passwords do not match."

  /** `!field || field.length < n`: a missing or empty field, or one with
      fewer than `n` UTF-16 code units. */
  predicate TooShort(field: Option<string>, n: nat)
  {
    field.None? || field.value == "" || Utf16Length(field.value) < n
  }

  /** A character outside the Basic Multilingual Plane counts twice: a name
      of one emoji passes the two-character check. */
  lemma OneEmojiNameIsLongEnough()
    ensures !TooShort(Some(['\U{1F600}']), 2)
    ensures TooShort(Some("a"), 2)
  {
    assert Utf16Length(['\U{1F600}']) == 2 + Utf16Length([]);
  }

  /** The four checks of `register`, in order, on the form fields (`None`
      where the form lacks the field): the message of the first that fails. */
  function ValidateRegistration(name: Option<string>, email: Option<string>, password: Option<string>, confirm: Option<string>): (err: Option<string>)
    ensures err == Some(NameMessage) <==> TooShort(name, 2)
    ensures err == Some(EmailMessage) <==>
      !TooShort(name, 2) && (email.None? || email.value == "" || !Contains(email.value, "@"))
    ensures err == Some(PasswordMessage) <==>
      !TooShort(name, 2) && email.Some? && Contains(email.value, "@") && TooShort(password, 6)
    ensures err == Some(MismatchMessage) <==>
      !TooShort(name, 2) && email.Some? && Contains(email.value, "@") && !TooShort(password, 6) && password != confirm
    ensures err.None? <==>
      !TooShort(name, 2) && email.Some? && Contains(email.value, "@") && !TooShort(password, 6) && password == confirm
  {
    if TooShort(name, 2) then Some(NameMessage)
    else if email.None? || email.value == "" || !Contains(email.value, "@") then Some(EmailMessage)
    else if TooShort(password, 6) then Some(PasswordMessage)
    else if password != confirm then Some(MismatchMessage)
    else None
  }

  const Registered := "Registration successful! Please login."
  const AlreadyRegistered := "Email already registered."
  const RegisterFailed := "Something went wrong. Please try again."

  /** `register(prevState, formData)`: `Ok` carries the message of
      `{ success: true }`, `Fail` that of `{ success: false }`. `hash` is
      the password hash function and `newId` the id of the new row. */
  function RegisterStep(s: Tables, name: Option<string>, email: Option<string>, password: Option<string>, confirm: Option<string>,
                        hash: string -> string, newId: Id): (out: Step<string>)
    ensures out.invalidated == []
    ensures !out.response.Ok? ==> out.after == s && out.response.Fail?
    ensures ValidateRegistration(name, email, password, confirm).Some? ==>
      out.response == Fail(ValidateRegistration(name, email, password, confirm).value)
    ensures ValidateRegistration(name, email, password, confirm).None? && EmailTaken(s.users, email.value) ==>
      out.response == Fail(AlreadyRegistered)
    ensures out.response.Ok? <==>
      ValidateRegistration(name, email, password, confirm).None? && !EmailTaken(s.users, email.value) && newId !in s.users
    ensures out.response.Ok? ==>
      && out.response.data == Registered
      && out.after == s.(users := s.users[newId := User(email.value, name, hash(password.value), USER, None)])
  {
    var invalid := ValidateRegistration(name, email, password, confirm);
    if invalid.Some? then Step(Fail(invalid.value), s, [])
    else if EmailTaken(s.users, email.value) then Step(Fail(AlreadyRegistered), s, [])
    else if newId in s.users then Step(Fail(RegisterFailed), s, [])
    else
      var u := User(email.value, name, hash(password.value), USER, None);
      Step(Ok(Registered), s.(users := s.users[newId := u]), [])
  }

  method Register(db: Db, name: Option<string>, email: Option<string>, password: Option<string>, confirm: Option<string>,
                  hash: string -> string, newId: Id) returns (r: Response<string>)
    requires db.Valid()
    modifies db
    ensures db.Valid()
    ensures var out := RegisterStep(old(db.Snapshot()), name, email, password, confirm, hash, newId);
      r == out.response && db.Snapshot() == out.after && db.invalidated == old(db.invalidated) + out.invalidated
  {
    var invalid := ValidateRegistration(name, email, password, confirm);
    if invalid.Some? {
      return Fail(invalid.value);
    }
    var existing := EmailTaken(db.users, email.value);
    if existing {
      return Fail(AlreadyRegistered);
    }
    if newId in db.users {
      return Fail(RegisterFailed);
    }
    RegisterKeepsEmailsUnique(db.Snapshot(), name, email, password, confirm, hash, newId);
    db.users := db.users[newId := User(email.value, name, hash(password.value), USER, None)];
    return Ok(Registered);
  }

  /** Registration never creates a second account for an email, and the
      account it creates is a plain user whose stored password is the hash. */
  lemma RegisterKeepsEmailsUnique(s: Tables, name: Option<string>, email: Option<string>, password: Option<string>, confirm: Option<string>,
                                  hash: string -> string, newId: Id)
    requires EmailsUnique(s.users)
    ensures var out := RegisterStep(s, name, email, password, confirm, hash, newId);
      && EmailsUnique(out.after.users)
      && (out.response.Ok? ==>
            && out.after.users[newId].role == USER
            && out.after.users[newId].password == hash(password.value)
            && out.after.users[newId].emailVerified.None?)
  {
    var out := RegisterStep(s, name, email, password, confirm, hash, newId);
    if out.response.Ok? {
      var us := out.after.users;
      forall a, b | a in us && b in us && us[a].email == us[b].email ensures a == b {
        if (a == newId) != (b == newId) {
          assert false;
        }
      }
    }
  }

  /** A form that fails validation gets the same answer whatever the store
      holds: no lookup happens before the checks pass. */
  lemma ValidationBeforeLookup(s1: Tables, s2: Tables, name: Option<string>, email: Option<string>, password: Option<string>,
                               confirm: Option<string>, hash: string -> string, newId: Id)
    requires ValidateRegistration(name, email, password, confirm).Some?
    ensures RegisterStep(s1, name, email, password, confirm, hash, newId).response
         == RegisterStep(s2, name, email, password, confirm, hash, newId).response
  {
  }
}
