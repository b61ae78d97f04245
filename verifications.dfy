/** The place-verification workflow: a signed-in user files a PENDING
    verification record for a place, and an admin rejects it (only the record
    changes) or approves it (record and place change together, to a status
    chosen by the submitter's role). */
module Verifications {
  import opened Common
  import opened Database

  const SubmitFailed := "Failed to submit verification"
  const UpdateFailed := "Failed to update verification status"

  /** `getSession`: the session user, or the "Unauthorized" error it throws
      when there is no user id. */
  function GetSession(session: Session): (r: Response<SessionUser>)
    ensures r.Ok? <==> HasUserId(session)
    ensures r.Ok? ==> r.data == session.value
    ensures !r.Ok? ==> r == Thrown("Unauthorized")
  {
    if HasUserId(session) then Ok(session.value) else Thrown("Unauthorized")
  }

  /** `checkAdmin`: passes only a session with a user id and the ADMIN role;
      a missing id and a wrong role throw the same error. */
  function CheckAdmin(session: Session): (r: Response<SessionUser>)
    ensures r.Ok? <==> HasUserId(session) && IsAdminSession(session)
    ensures r.Ok? ==> r.data == session.value
    ensures !r.Ok? ==> r == Thrown("Unauthorized")
  {
    var s := GetSession(session);
    if s.Ok? && s.data.role != ADMIN then Thrown("Unauthorized") else s
  }

  /** The status an approval gives record and place: decided by the role of
      the user who filed the record. */
  function ApprovalTarget(submitterRole: Role): (t: PlaceStatus)
    ensures t == VERIFIED_ADMIN <==> submitterRole == ADMIN
    ensures t == VERIFIED_ADMIN || t == VERIFIED_USER
  {
    if submitterRole == ADMIN then VERIFIED_ADMIN else VERIFIED_USER
  }

  /** `admin_notes: adminNotes` in an update: an absent argument is
      `undefined`, which leaves the column as it was. */
  function NotesAfter(current: Option<string>, given: Option<string>): Option<string>
  {
    if given.Some? then given else current
  }

  /** `submitVerification(placeId, proofLink)` on the tables `s`; `newId` is
      the id the database assigns to the new record. The create fails (and
      the generic message is returned) when that id is taken or when the
      place or the user it refers to does not exist. */
  function SubmitVerificationStep(s: Tables, session: Session, placeId: Id, proofLink: string, newId: Id): (out: Step<Verification>)
    ensures !out.response.Ok? ==> out.after == s && out.invalidated == []
    ensures !HasUserId(session) ==> out.response == Fail("Unauthorized")
    ensures out.response.Ok? <==>
      HasUserId(session) && newId !in s.verifications && placeId in s.places && session.value.id in s.users
    ensures out.response.Ok? ==>
      && out.response.data == Verification(placeId, session.value.id, proofLink, PENDING, None)
      && out.after == s.(verifications := s.verifications[newId := out.response.data])
      && out.invalidated == ["/", "/dashboard", "/places/" + placeId]
    ensures HasUserId(session) && !out.response.Ok? ==> out.response == Fail(SubmitFailed)
    ensures out.after.places == s.places && out.after.users == s.users
  {
    if !HasUserId(session) then Step(Fail("Unauthorized"), s, [])
    else if newId in s.verifications || placeId !in s.places || session.value.id !in s.users then
      Step(Fail(SubmitFailed), s, [])
    else
      var v := Verification(placeId, session.value.id, proofLink, PENDING, None);
      Step(Ok(v), s.(verifications := s.verifications[newId := v]), ["/", "/dashboard", "/places/" + placeId])
  }

  method SubmitVerification(db: Db, session: Session, placeId: Id, proofLink: string, newId: Id) returns (r: Response<Verification>)
    modifies db
    ensures var out := SubmitVerificationStep(old(db.Snapshot()), session, placeId, proofLink, newId);
      r == out.response && db.Snapshot() == out.after && db.invalidated == old(db.invalidated) + out.invalidated
  {
    if !HasUserId(session) {
      return Fail("Unauthorized");
    }
    if newId in db.verifications || placeId !in db.places || session.value.id !in db.users {
      return Fail(SubmitFailed);
    }
    var v := Verification(placeId, session.value.id, proofLink, PENDING, None);
    db.verifications := db.verifications[newId := v];
    db.Revalidate("/");
    db.Revalidate("/dashboard");
    db.Revalidate("/places/" + placeId);
    return Ok(v);
  }

  /** The `select` of the joined user. */
  datatype UserSummary = UserSummary(name: Option<string>, email: string)

  /** A record as `getVerifications` returns it, with the joined user and
      place name. */
  datatype VerificationRow = VerificationRow(record: Verification, user: Option<UserSummary>, placeName: Option<string>)

  /** `placeId ? { place_id: placeId } : {}`: an absent or empty id selects
      every record. */
  predicate MatchesPlace(placeId: Option<Id>, v: Verification)
  {
    placeId.None? || placeId.value == "" || v.placeId == placeId.value
  }

  function Join(s: Tables, v: Verification): (row: VerificationRow)
  {
    VerificationRow(
      v,
      if v.userId in s.users then Some(UserSummary(s.users[v.userId].name, s.users[v.userId].email)) else None,
      if v.placeId in s.places then Some(s.places[v.placeId].name) else None)
  }

  /** The ids of the records `placeId` selects. */
  function RecordsOf(s: Tables, placeId: Option<Id>): (ids: set<Id>)
    ensures forall id :: id in ids <==> id in s.verifications && MatchesPlace(placeId, s.verifications[id])
  {
    set id | id in s.verifications && MatchesPlace(placeId, s.verifications[id])
  }

  /** `getVerifications(placeId?)`, the records in `order` (newest first in
      the source). Any caller may list them: there is no session check. */
  function GetVerifications(s: Tables, order: seq<Id>, placeId: Option<Id>): (rows: seq<(Id, VerificationRow)>)
    requires IsOrdering(order, s.verifications)
    ensures forall i :: 0 <= i < |rows| ==>
      && rows[i].0 in s.verifications
      && rows[i].1 == Join(s, s.verifications[rows[i].0])
      && MatchesPlace(placeId, s.verifications[rows[i].0])
    ensures forall id :: id in s.verifications && MatchesPlace(placeId, s.verifications[id]) ==> id in Ids(rows)
    ensures |rows| == |RecordsOf(s, placeId)|
    ensures Subsequence(Ids(rows), order)
  {
    var keep := (id: Id, v: Verification) => MatchesPlace(placeId, v);
    var picked := Select(s.verifications, order, keep);
    SelectCount(s.verifications, order, keep);
    assert Matching(s.verifications, keep) == RecordsOf(s, placeId);
    var rows := seq(|picked|, i requires 0 <= i < |picked| => (picked[i].0, Join(s, picked[i].1)));
    assert Ids(rows) == Ids(picked);
    rows
  }

  /** `updateVerificationStatus(id, status, adminNotes?)` on the tables `s`.
      REJECTED rewrites only the record. Every other requested status is an
      approval whose target comes from the submitter's role; record and place
      are written in one transaction. Every exception inside the `try`
      (including the one `checkAdmin` throws) becomes the generic failure. */
  function UpdateVerificationStatusStep(s: Tables, session: Session, id: Id, status: PlaceStatus, notes: Option<string>): (out: Step<()>)
    ensures !out.response.Ok? ==> out.after == s && out.invalidated == []
    ensures out.response.Fail? || out.response.Ok?
    ensures !(HasUserId(session) && IsAdminSession(session)) ==> out.response == Fail(UpdateFailed)
    ensures out.response.Ok? <==>
      && HasUserId(session) && IsAdminSession(session) && id in s.verifications
      && (status != REJECTED ==> s.verifications[id].userId in s.users && s.verifications[id].placeId in s.places)
    ensures HasUserId(session) && IsAdminSession(session) && id !in s.verifications ==>
      out.response == (if status == REJECTED then Fail(UpdateFailed) else Fail("Verification not found"))
    ensures HasUserId(session) && IsAdminSession(session) && id in s.verifications && status != REJECTED ==>
      (s.verifications[id].userId !in s.users || s.verifications[id].placeId !in s.places) ==>
      out.response == Fail(UpdateFailed)
    ensures out.after.users == s.users
  {
    if !CheckAdmin(session).Ok? then Step(Fail(UpdateFailed), s, [])
    else if status == REJECTED then
      if id !in s.verifications then Step(Fail(UpdateFailed), s, [])
      else
        var v := s.verifications[id];
        var v' := v.(status := REJECTED, adminNotes := NotesAfter(v.adminNotes, notes));
        Step(Ok(()), s.(verifications := s.verifications[id := v']), ["/admin", "/dashboard"])
    else
      if id !in s.verifications then Step(Fail("Verification not found"), s, [])
      else
        var v := s.verifications[id];
        if v.userId !in s.users then Step(Fail(UpdateFailed), s, [])
        else
          var target := ApprovalTarget(s.users[v.userId].role);
          if v.placeId !in s.places then Step(Fail(UpdateFailed), s, [])
          else
            var v' := v.(status := target, adminNotes := NotesAfter(v.adminNotes, notes));
            var p' := s.places[v.placeId].(status := target);
            Step(Ok(()),
              s.(verifications := s.verifications[id := v'], places := s.places[v.placeId := p']),
              ["/admin", "/dashboard", "/places/" + v.placeId])
  }

  method UpdateVerificationStatus(db: Db, session: Session, id: Id, status: PlaceStatus, notes: Option<string>) returns (r: Response<()>)
    modifies db
    ensures var out := UpdateVerificationStatusStep(old(db.Snapshot()), session, id, status, notes);
      r == out.response && db.Snapshot() == out.after && db.invalidated == old(db.invalidated) + out.invalidated
  {
    var admin := CheckAdmin(session);
    if !admin.Ok? {
      return Fail(UpdateFailed);
    }
    if status == REJECTED {
      if id !in db.verifications {
        return Fail(UpdateFailed);
      }
      var v := db.verifications[id];
      db.verifications := db.verifications[id := v.(status := REJECTED, adminNotes := NotesAfter(v.adminNotes, notes))];
      db.Revalidate("/admin");
      db.Revalidate("/dashboard");
      return Ok(());
    }
    if id !in db.verifications {
      return Fail("Verification not found");
    }
    var v := db.verifications[id];
    if v.userId !in db.users {
      return Fail(UpdateFailed);
    }
    var target := ApprovalTarget(db.users[v.userId].role);
    // The transaction: both updates are checked before either is applied.
    if v.placeId !in db.places {
      return Fail(UpdateFailed);
    }
    db.verifications, db.places :=
      db.verifications[id := v.(status := target, adminNotes := NotesAfter(v.adminNotes, notes))],
      db.places[v.placeId := db.places[v.placeId].(status := target)];
    db.Revalidate("/admin");
    db.Revalidate("/dashboard");
    db.Revalidate("/places/" + v.placeId);
    return Ok(());
  }

  /** Rejecting succeeds exactly for an admin and an existing record, and
      changes only the status and notes of that one record. */
  lemma RejectTouchesOnlyTheRecord(s: Tables, session: Session, id: Id, notes: Option<string>)
    ensures var out := UpdateVerificationStatusStep(s, session, id, REJECTED, notes);
      && (out.response.Ok? <==> HasUserId(session) && IsAdminSession(session) && id in s.verifications)
      && (out.response.Ok? ==>
        && out.after.places == s.places
        && out.after.tokens == s.tokens
        && out.after.verifications.Keys == s.verifications.Keys
        && (forall k :: k in s.verifications && k != id ==> out.after.verifications[k] == s.verifications[k])
        && out.after.verifications[id].status == REJECTED
        && out.after.verifications[id].adminNotes == NotesAfter(s.verifications[id].adminNotes, notes)
        && out.after.verifications[id].placeId == s.verifications[id].placeId
        && out.after.verifications[id].userId == s.verifications[id].userId
        && out.after.verifications[id].proofLink == s.verifications[id].proofLink)
  {
  }

  /** An approval succeeds exactly for an admin and a record whose submitter
      and place exist; it then writes record and place to the same target,
      chosen by the submitter's role, and otherwise writes nothing; no other
      record or place changes. */
  lemma ApprovalIsAtomic(s: Tables, session: Session, id: Id, status: PlaceStatus, notes: Option<string>)
    requires status != REJECTED
    ensures var out := UpdateVerificationStatusStep(s, session, id, status, notes);
      && (out.response.Ok? <==>
            && HasUserId(session) && IsAdminSession(session) && id in s.verifications
            && s.verifications[id].userId in s.users && s.verifications[id].placeId in s.places)
      && (out.response.Ok? ==>
        var v := s.verifications[id];
        && v.userId in s.users && v.placeId in s.places
        && var target := ApprovalTarget(s.users[v.userId].role);
        && out.after.verifications[id].status == target
        && out.after.places[v.placeId].status == target
        && out.after.verifications[id].adminNotes == NotesAfter(v.adminNotes, notes)
        && out.after.verifications.Keys == s.verifications.Keys
        && out.after.places.Keys == s.places.Keys
        && (forall k :: k in s.verifications && k != id ==> out.after.verifications[k] == s.verifications[k])
        && (forall k :: k in s.places && k != v.placeId ==> out.after.places[k] == s.places[k])
        && out.after.places[v.placeId] == s.places[v.placeId].(status := target))
      && (!out.response.Ok? ==> out.after == s)
      && (HasUserId(session) && IsAdminSession(session) && id !in s.verifications ==>
            out.response == Fail("Verification not found"))
  {
  }

  /** The status the admin passes is only read to tell REJECTED from the
      rest: two approval requests with different statuses do the same. */
  lemma RequestedStatusIgnored(s: Tables, session: Session, id: Id, a: PlaceStatus, b: PlaceStatus, notes: Option<string>)
    requires a != REJECTED && b != REJECTED
    ensures UpdateVerificationStatusStep(s, session, id, a, notes) == UpdateVerificationStatusStep(s, session, id, b, notes)
  {
  }

  /** Repeating a successful update leaves the tables as the first one left
      them, and succeeds again. */
  lemma UpdateIdempotent(s: Tables, session: Session, id: Id, status: PlaceStatus, notes: Option<string>)
    ensures var first := UpdateVerificationStatusStep(s, session, id, status, notes);
      var second := UpdateVerificationStatusStep(first.after, session, id, status, notes);
      first.response.Ok? ==> second.response.Ok? && second.after == first.after
  {
    var first := UpdateVerificationStatusStep(s, session, id, status, notes);
    if first.response.Ok? {
      var v := s.verifications[id];
      var t := first.after;
      assert t.verifications[id].userId == v.userId && t.verifications[id].placeId == v.placeId;
      assert t.users == s.users;
      if status == REJECTED {
        assert t.verifications[id].adminNotes == NotesAfter(v.adminNotes, notes);
        assert t.verifications[id := t.verifications[id]] == t.verifications;
      } else {
        assert v.placeId in t.places;
        assert t.verifications[id := t.verifications[id]] == t.verifications;
        assert t.places[v.placeId := t.places[v.placeId]] == t.places;
      }
    }
  }

  /** The whole workflow: after a user files a record for place `p`, an
      admin's approval of it gives the place the status the filer's role
      earns, whatever status the admin asked for. */
  lemma SubmitThenApprove(s: Tables, user: Session, admin: Session, p: Id, proof: string, newId: Id, requested: PlaceStatus)
    requires HasUserId(user) && user.value.id in s.users && p in s.places && newId !in s.verifications
    requires HasUserId(admin) && IsAdminSession(admin) && requested != REJECTED
    ensures var filed := SubmitVerificationStep(s, user, p, proof, newId);
      var decided := UpdateVerificationStatusStep(filed.after, admin, newId, requested, None);
      && filed.response.Ok?
      && filed.after.verifications[newId].status == PENDING
      && decided.response.Ok?
      && decided.after.places[p].status == ApprovalTarget(s.users[user.value.id].role)
      && decided.after.verifications[newId].status == ApprovalTarget(s.users[user.value.id].role)
  {
    var filed := SubmitVerificationStep(s, user, p, proof, newId);
    assert filed.after.verifications[newId].userId == user.value.id;
    assert filed.after.verifications[newId].placeId == p;
    ApprovalIsAtomic(filed.after, admin, newId, requested, None);
  }
}
