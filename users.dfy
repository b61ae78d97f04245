/** The admin-only user store. Every action runs `checkAdmin` before its
    `try`, so a caller who is not an admin gets the exception itself and
    nothing is read or written. */
module Users {
  import opened Common
  import opened Database
  import opened Pagination

  /** `checkAdmin` of the user actions: it looks only at the role. */
  function CheckAdmin(session: Session): (r: Response<()>)
    ensures r.Ok? <==> IsAdminSession(session)
    ensures !r.Ok? ==> r == Thrown("Unauthorized")
  {
    if IsAdminSession(session) then Ok(()) else Thrown("Unauthorized")
  }

  /** The rows of the users table in `order`. */
  function Rows(users: map<Id, User>, order: seq<Id>): (rows: seq<(Id, User)>)
    requires forall i :: 0 <= i < |order| ==> order[i] in users
    ensures |rows| == |order|
    ensures forall i :: 0 <= i < |rows| ==> rows[i] == (order[i], users[order[i]])
  {
    seq(|order|, i requires 0 <= i < |order| => (order[i], users[order[i]]))
  }

  /** `getUsersList({ page, limit })`: one page of all users in `order`
      (newest first in the source) and the count of every user. */
  function GetUsersList(s: Tables, session: Session, order: seq<Id>, page: int, limit: int): (r: Response<ListPage<(Id, User)>>)
    requires IsOrdering(order, s.users)
    requires limit >= 1
    ensures !IsAdminSession(session) ==> r == Thrown("Unauthorized")
    ensures IsAdminSession(session) && page < 1 ==> r == Fail("Failed to fetch users list")
    ensures r.Ok? <==> IsAdminSession(session) && page >= 1
    ensures r.Ok? ==>
      && r.data.total == |s.users|
      && r.data.totalPages == TotalPages(|s.users|, limit)
      && r.data.page == page && r.data.limit == limit
      && |r.data.items| <= limit
      && r.data.items == Window(Rows(s.users, order), Skip(page, limit), limit)
  {
    if !CheckAdmin(session).Ok? then Thrown("Unauthorized")
    else
      OrderingSize(order, s.users);
      var pg := Paginate(Rows(s.users, order), page, limit);
      if pg.None? then Fail("Failed to fetch users list") else Ok(pg.value)
  }

  /** An ordering of a table is as long as the table. */
  lemma OrderingSize<V>(order: seq<Id>, table: map<Id, V>)
    requires IsOrdering(order, table)
    ensures |order| == |table|
  {
    var ks := set i | 0 <= i < |order| :: order[i];
    assert ks == table.Keys;
    DistinctCard(order);
  }

  lemma {:induction false} DistinctCard(order: seq<Id>)
    requires forall i, j :: 0 <= i < j < |order| ==> order[i] != order[j]
    ensures |set i | 0 <= i < |order| :: order[i]| == |order|
    decreases |order|
  {
    if order != [] {
      var rest := order[1..];
      DistinctCard(rest);
      var a := set i | 0 <= i < |order| :: order[i];
      var b := set i | 0 <= i < |rest| :: rest[i];
      assert a == b + {order[0]} by {
        forall x | x in a ensures x in b + {order[0]} {
          var i :| 0 <= i < |order| && order[i] == x;
          if i > 0 { assert rest[i - 1] == x; }
        }
        forall x | x in b + {order[0]} ensures x in a {
          if x in b {
            var i :| 0 <= i < |rest| && rest[i] == x;
            assert order[i + 1] == x;
          } else {
            assert order[0] == x;
          }
        }
      }
      assert order[0] !in b;
    }
  }

  /** `getUsers()`: every user once, with its stored row, in `order`. */
  function GetUsers(s: Tables, session: Session, order: seq<Id>): (r: Response<seq<(Id, User)>>)
    requires IsOrdering(order, s.users)
    ensures r.Ok? <==> IsAdminSession(session)
    ensures !r.Ok? ==> r == Thrown("Unauthorized")
    ensures r.Ok? ==> r.data == Rows(s.users, order)
    ensures r.Ok? ==>
      && |r.data| == |s.users|
      && (forall id :: id in s.users ==> id in Ids(r.data))
      && (forall i :: 0 <= i < |r.data| ==> r.data[i].0 in s.users && r.data[i].1 == s.users[r.data[i].0])
  {
    if !CheckAdmin(session).Ok? then Thrown("Unauthorized")
    else
      OrderingSize(order, s.users);
      var rows := Rows(s.users, order);
      assert Ids(rows) == order;
      Ok(rows)
  }

  /** `getUserById(id)`: `findUnique` gives `null` for an unknown id. */
  function GetUserById(s: Tables, session: Session, id: Id): (r: Response<Option<User>>)
    ensures r.Ok? <==> IsAdminSession(session)
    ensures !r.Ok? ==> r == Thrown("Unauthorized")
    ensures r.Ok? ==> (r.data.Some? <==> id in s.users) && (r.data.Some? ==> r.data.value == s.users[id])
  {
    if !CheckAdmin(session).Ok? then Thrown("Unauthorized")
    else if id in s.users then Ok(Some(s.users[id]))
    else Ok(None)
  }

  /** `createUser(data)`; the create fails on a taken id or email. */
  function CreateUserStep(s: Tables, session: Session, email: string, name: Option<string>, password: string, role: Role,
                          hash: string -> string, newId: Id): (out: Step<User>)
    ensures !out.response.Ok? ==> out.after == s && out.invalidated == []
    ensures !IsAdminSession(session) ==> out.response == Thrown("Unauthorized")
    ensures IsAdminSession(session) && !out.response.Ok? ==> out.response == Fail("Failed to create user")
    ensures out.response.Ok? <==> IsAdminSession(session) && newId !in s.users && !EmailTaken(s.users, email)
    ensures out.response.Ok? ==>
      && out.response.data == User(email, name, hash(password), role, None)
      && out.after == s.(users := s.users[newId := out.response.data])
      && out.invalidated == ["/dashboard/users"]
  {
    if !CheckAdmin(session).Ok? then Step(Thrown("Unauthorized"), s, [])
    else if newId in s.users || EmailTaken(s.users, email) then Step(Fail("Failed to create user"), s, [])
    else
      var u := User(email, name, hash(password), role, None);
      Step(Ok(u), s.(users := s.users[newId := u]), ["/dashboard/users"])
  }

  method CreateUser(db: Db, session: Session, email: string, name: Option<string>, password: string, role: Role,
                    hash: string -> string, newId: Id) returns (r: Response<User>)
    requires db.Valid()
    modifies db
    ensures db.Valid()
    ensures var out := CreateUserStep(old(db.Snapshot()), session, email, name, password, role, hash, newId);
      r == out.response && db.Snapshot() == out.after && db.invalidated == old(db.invalidated) + out.invalidated
  {
    var admin := CheckAdmin(session);
    if !admin.Ok? {
      return Thrown("Unauthorized");
    }
    if newId in db.users || EmailTaken(db.users, email) {
      return Fail("Failed to create user");
    }
    var u := User(email, name, hash(password), role, None);
    CreateUserKeepsEmailsUnique(db.Snapshot(), session, email, name, password, role, hash, newId);
    db.users := db.users[newId := u];
    db.Revalidate("/dashboard/users");
    return Ok(u);
  }

  lemma CreateUserKeepsEmailsUnique(s: Tables, session: Session, email: string, name: Option<string>, password: string, role: Role,
                                    hash: string -> string, newId: Id)
    requires EmailsUnique(s.users)
    ensures EmailsUnique(CreateUserStep(s, session, email, name, password, role, hash, newId).after.users)
  {
    var out := CreateUserStep(s, session, email, name, password, role, hash, newId);
    if out.response.Ok? {
      var us := out.after.users;
      forall a, b | a in us && b in us && us[a].email == us[b].email ensures a == b {
        if (a == newId) != (b == newId) {
          assert false;
        }
      }
    }
  }

  /** The optional fields of `updateUser`; `None` is an absent field. */
  datatype UserPatch = UserPatch(email: Option<string>, name: Option<string>, password: Option<string>, role: Option<Role>)

  /** The row `updateUser` writes: email, name and role when given, and a
      new hash only for a given non-empty password (`if (data.password)`). */
  function UpdatedUser(u: User, patch: UserPatch, hash: string -> string): (v: User)
    ensures v.password == (if patch.password.Some? && patch.password.value != "" then hash(patch.password.value) else u.password)
    ensures v.email == (if patch.email.Some? then patch.email.value else u.email)
    ensures v.name == (if patch.name.Some? then patch.name else u.name)
    ensures v.role == (if patch.role.Some? then patch.role.value else u.role)
    ensures v.emailVerified == u.emailVerified
  {
    User(
      if patch.email.Some? then patch.email.value else u.email,
      if patch.name.Some? then patch.name else u.name,
      if patch.password.Some? && patch.password.value != "" then hash(patch.password.value) else u.password,
      if patch.role.Some? then patch.role.value else u.role,
      u.emailVerified)
  }

  /** The new email belongs to a user other than `id`. */
  predicate EmailTakenByOther(users: map<Id, User>, id: Id, email: string)
  {
    exists other :: other in users && other != id && users[other].email == email
  }

  /** `updateUser(id, data)`; the update fails on an unknown id or on an
      email that another user has. */
  function UpdateUserStep(s: Tables, session: Session, id: Id, patch: UserPatch, hash: string -> string): (out: Step<User>)
    ensures !out.response.Ok? ==> out.after == s && out.invalidated == []
    ensures !IsAdminSession(session) ==> out.response == Thrown("Unauthorized")
    ensures IsAdminSession(session) && !out.response.Ok? ==> out.response == Fail("Failed to update user")
    ensures out.response.Ok? <==>
      IsAdminSession(session) && id in s.users && !(patch.email.Some? && EmailTakenByOther(s.users, id, patch.email.value))
    ensures out.response.Ok? ==>
      && out.response.data == UpdatedUser(s.users[id], patch, hash)
      && out.after == s.(users := s.users[id := out.response.data])
      && out.invalidated == ["/dashboard/users"]
  {
    if !CheckAdmin(session).Ok? then Step(Thrown("Unauthorized"), s, [])
    else if id !in s.users || (patch.email.Some? && EmailTakenByOther(s.users, id, patch.email.value)) then
      Step(Fail("Failed to update user"), s, [])
    else
      var u := UpdatedUser(s.users[id], patch, hash);
      Step(Ok(u), s.(users := s.users[id := u]), ["/dashboard/users"])
  }

  method UpdateUser(db: Db, session: Session, id: Id, patch: UserPatch, hash: string -> string) returns (r: Response<User>)
    requires db.Valid()
    modifies db
    ensures db.Valid()
    ensures var out := UpdateUserStep(old(db.Snapshot()), session, id, patch, hash);
      r == out.response && db.Snapshot() == out.after && db.invalidated == old(db.invalidated) + out.invalidated
  {
    var admin := CheckAdmin(session);
    if !admin.Ok? {
      return Thrown("Unauthorized");
    }
    if id !in db.users || (patch.email.Some? && EmailTakenByOther(db.users, id, patch.email.value)) {
      return Fail("Failed to update user");
    }
    var u := UpdatedUser(db.users[id], patch, hash);
    UpdateUserKeepsEmailsUnique(db.Snapshot(), session, id, patch, hash);
    db.users := db.users[id := u];
    db.Revalidate("/dashboard/users");
    return Ok(u);
  }

  lemma UpdateUserKeepsEmailsUnique(s: Tables, session: Session, id: Id, patch: UserPatch, hash: string -> string)
    requires EmailsUnique(s.users)
    ensures EmailsUnique(UpdateUserStep(s, session, id, patch, hash).after.users)
  {
    var out := UpdateUserStep(s, session, id, patch, hash);
    if out.response.Ok? {
      var us := out.after.users;
      forall a, b | a in us && b in us && us[a].email == us[b].email ensures a == b {
        if (a == id) != (b == id) {
          assert false;
        }
      }
    }
  }

  /** An update without a (non-empty) password keeps the stored hash, one
      with a password stores its hash. */
  lemma PasswordOnlyWhenGiven(s: Tables, session: Session, id: Id, patch: UserPatch, hash: string -> string)
    ensures var out := UpdateUserStep(s, session, id, patch, hash);
      out.response.Ok? ==>
        && (patch.password.None? || patch.password == Some("") ==> out.after.users[id].password == s.users[id].password)
        && (patch.password.Some? && patch.password.value != "" ==> out.after.users[id].password == hash(patch.password.value))
  {
  }

  /** `deleteUser(id)`: deleting an unknown id fails. */
  function DeleteUserStep(s: Tables, session: Session, id: Id): (out: Step<()>)
    ensures !out.response.Ok? ==> out.after == s && out.invalidated == []
    ensures !IsAdminSession(session) ==> out.response == Thrown("Unauthorized")
    ensures IsAdminSession(session) && id !in s.users ==> out.response == Fail("Failed to delete user")
    ensures out.response.Ok? <==> IsAdminSession(session) && id in s.users
    ensures out.response.Ok? ==>
      && out.after == s.(users := s.users - {id})
      && out.invalidated == ["/dashboard/users"]
  {
    if !CheckAdmin(session).Ok? then Step(Thrown("Unauthorized"), s, [])
    else if id !in s.users then Step(Fail("Failed to delete user"), s, [])
    else Step(Ok(()), s.(users := s.users - {id}), ["/dashboard/users"])
  }

  method DeleteUser(db: Db, session: Session, id: Id) returns (r: Response<()>)
    requires db.Valid()
    modifies db
    ensures db.Valid()
    ensures var out := DeleteUserStep(old(db.Snapshot()), session, id);
      r == out.response && db.Snapshot() == out.after && db.invalidated == old(db.invalidated) + out.invalidated
  {
    var admin := CheckAdmin(session);
    if !admin.Ok? {
      return Thrown("Unauthorized");
    }
    if id !in db.users {
      return Fail("Failed to delete user");
    }
    db.users := db.users - {id};
    db.Revalidate("/dashboard/users");
    return Ok(());
  }

  /** A delete removes exactly that user and keeps every other one. */
  lemma DeleteRemovesExactlyOne(s: Tables, session: Session, id: Id)
    ensures var out := DeleteUserStep(s, session, id);
      out.response.Ok? ==>
        && id !in out.after.users
        && |out.after.users| == |s.users| - 1
        && (forall k :: k in s.users && k != id ==> k in out.after.users && out.after.users[k] == s.users[k])
  {
  }
}
