/** The place actions: anonymous or signed-in submission, creation from the
    dashboard, the admin's status change, owner-or-admin delete and update,
    and the two list queries. */
module Places {
  import opened Common
  import opened Database
  import opened Text
  import opened Pagination

  /** The place data a caller hands to `submitPlace` or `createPlace`: the
      columns the rules look at, every other non-numeric column in `details`. */
  datatype PlaceInput = PlaceInput(
    name: string,
    address: string,
    description: Option<string>,
    status: Option<PlaceStatus>,
    wifiAvailable: Option<bool>,
    powerOutletsAvailable: Option<bool>,
    details: map<DetailColumn, Cell>)

  /** A `Partial<PlaceFormData>` for `updatePlace`: `None` is an absent
      (undefined) field, which the update leaves as it is. */
  datatype PlacePatch = PlacePatch(
    name: Option<string>,
    address: Option<string>,
    description: Option<string>,
    status: Option<PlaceStatus>,
    wifiAvailable: Option<bool>,
    powerOutletsAvailable: Option<bool>,
    details: map<DetailColumn, Cell>)

  /** `accepts(column, value)`: whether the database admits the value for
      that column. Most descriptive columns are enums that the actions fill
      with `as any`, so a value outside the enum makes the write throw. */
  type ColumnCheck = (DetailColumn, Cell) -> bool

  /** Every descriptive column of the write is admitted. */
  predicate DetailsAccepted(details: map<DetailColumn, Cell>, accepts: ColumnCheck)
  {
    forall k :: k in details ==> accepts(k, details[k])
  }

  /** `x ?? false`. */
  function OrFalse(b: Option<bool>): bool
  {
    b.Some? && b.value
  }

  /** What `submitPlace` stores: the input with the status forced to
      UNVERIFIED and the submitter linked only for a signed-in caller. An
      absent switch is stored as `false`, the column default. */
  function SubmittedPlace(data: PlaceInput, session: Session): (p: Place)
    ensures p.status == UNVERIFIED
    ensures p.submitter.Some? <==> HasUserId(session)
    ensures p.submitter.Some? ==> p.submitter.value == session.value.id
    ensures p.name == data.name && p.address == data.address && p.description == data.description
    ensures p.details == data.details
  {
    Place(data.name, data.address, data.description, UNVERIFIED,
      if HasUserId(session) then Some(session.value.id) else None,
      OrFalse(data.wifiAvailable), OrFalse(data.powerOutletsAvailable), data.details)
  }

  /** `submitPlace(data)`. No session is needed; the create fails when the
      new id is taken, the linked submitter does not exist or a column
      refuses its value. */
  function SubmitPlaceStep(s: Tables, session: Session, data: PlaceInput, newId: Id, accepts: ColumnCheck): (out: Step<Place>)
    ensures out.invalidated == []
    ensures out.response.Ok? <==>
      newId !in s.places && (HasUserId(session) ==> session.value.id in s.users) && DetailsAccepted(data.details, accepts)
    ensures out.response.Ok? ==>
      out.response.data == SubmittedPlace(data, session) && out.after == s.(places := s.places[newId := out.response.data])
    ensures !out.response.Ok? ==> out.response == Fail("Failed to submit place") && out.after == s
  {
    if newId in s.places || (HasUserId(session) && session.value.id !in s.users) || !DetailsAccepted(data.details, accepts) then
      Step(Fail("Failed to submit place"), s, [])
    else
      var p := SubmittedPlace(data, session);
      Step(Ok(p), s.(places := s.places[newId := p]), [])
  }

  method SubmitPlace(db: Db, session: Session, data: PlaceInput, newId: Id, accepts: ColumnCheck) returns (r: Response<Place>)
    modifies db
    ensures var out := SubmitPlaceStep(old(db.Snapshot()), session, data, newId, accepts);
      r == out.response && db.Snapshot() == out.after && db.invalidated == old(db.invalidated) + out.invalidated
  {
    if newId in db.places || (HasUserId(session) && session.value.id !in db.users) || !DetailsAccepted(data.details, accepts) {
      return Fail("Failed to submit place");
    }
    var p := SubmittedPlace(data, session);
    db.places := db.places[newId := p];
    return Ok(p);
  }

  /** `isAdmin ? (data.status ?? UNVERIFIED) : UNVERIFIED`. */
  function CreatedStatus(isAdmin: bool, requested: Option<PlaceStatus>): (st: PlaceStatus)
    ensures !isAdmin ==> st == UNVERIFIED
    ensures isAdmin && requested.Some? ==> st == requested.value
    ensures requested.None? ==> st == UNVERIFIED
  {
    if isAdmin then (if requested.Some? then requested.value else UNVERIFIED) else UNVERIFIED
  }

  /** What `createPlace` stores for a signed-in user. */
  function CreatedPlace(data: PlaceInput, user: SessionUser): (p: Place)
    ensures p.status == CreatedStatus(user.role == ADMIN, data.status)
    ensures p.submitter == Some(user.id)
    ensures p.wifiAvailable <==> data.wifiAvailable == Some(true)
    ensures p.powerOutletsAvailable <==> data.powerOutletsAvailable == Some(true)
    ensures p.name == data.name && p.address == data.address && p.description == data.description
    ensures p.details == data.details
  {
    Place(data.name, data.address, data.description, CreatedStatus(user.role == ADMIN, data.status),
      Some(user.id), OrFalse(data.wifiAvailable), OrFalse(data.powerOutletsAvailable), data.details)
  }

  /** `createPlace(data)`: the create fails when the new id is taken, the
      user does not exist or a column refuses its value. */
  function CreatePlaceStep(s: Tables, session: Session, data: PlaceInput, newId: Id, accepts: ColumnCheck): (out: Step<Place>)
    ensures !out.response.Ok? ==> out.after == s && out.invalidated == [] && out.response.Fail?
    ensures !HasUserId(session) ==> out.response == Fail("Unauthorized")
    ensures HasUserId(session) && !out.response.Ok? ==> out.response == Fail("Failed to create place")
    ensures out.response.Ok? <==>
      HasUserId(session) && newId !in s.places && session.value.id in s.users && DetailsAccepted(data.details, accepts)
    ensures out.response.Ok? ==>
      && out.response.data == CreatedPlace(data, session.value)
      && out.after == s.(places := s.places[newId := out.response.data])
      && out.invalidated == ["/dashboard/places"]
  {
    if !HasUserId(session) then Step(Fail("Unauthorized"), s, [])
    else if newId in s.places || session.value.id !in s.users || !DetailsAccepted(data.details, accepts) then
      Step(Fail("Failed to create place"), s, [])
    else
      var p := CreatedPlace(data, session.value);
      Step(Ok(p), s.(places := s.places[newId := p]), ["/dashboard/places"])
  }

  method CreatePlace(db: Db, session: Session, data: PlaceInput, newId: Id, accepts: ColumnCheck) returns (r: Response<Place>)
    modifies db
    ensures var out := CreatePlaceStep(old(db.Snapshot()), session, data, newId, accepts);
      r == out.response && db.Snapshot() == out.after && db.invalidated == old(db.invalidated) + out.invalidated
  {
    if !HasUserId(session) {
      return Fail("Unauthorized");
    }
    if newId in db.places || session.value.id !in db.users || !DetailsAccepted(data.details, accepts) {
      return Fail("Failed to create place");
    }
    var p := CreatedPlace(data, session.value);
    db.places := db.places[newId := p];
    db.Revalidate("/dashboard/places");
    return Ok(p);
  }

  /** A place that a non-admin creates or submits is always UNVERIFIED,
      whatever status the input carries. */
  lemma NonAdminPlacesAreUnverified(s: Tables, session: Session, data: PlaceInput, newId: Id, accepts: ColumnCheck)
    requires !IsAdminSession(session)
    ensures var c := CreatePlaceStep(s, session, data, newId, accepts);
      c.response.Ok? ==> c.after.places[newId].status == UNVERIFIED
    ensures var p := SubmitPlaceStep(s, session, data, newId, accepts);
      p.response.Ok? ==> p.after.places[newId].status == UNVERIFIED
  {
  }

  /** `verifyPlace(id, status)`: its `checkAdmin` runs outside the `try` and
      looks only at the role, so a non-admin gets the exception itself. */
  function VerifyPlaceStep(s: Tables, session: Session, id: Id, status: PlaceStatus): (out: Step<Place>)
    ensures !IsAdminSession(session) ==> out == Step(Thrown("Unauthorized"), s, [])
    ensures IsAdminSession(session) && id !in s.places ==> out == Step(Fail("Failed to verify place"), s, [])
    ensures out.response.Ok? <==> IsAdminSession(session) && id in s.places
    ensures out.response.Ok? ==>
      && out.response.data == s.places[id].(status := status)
      && out.after == s.(places := s.places[id := out.response.data])
      && out.invalidated == ["/dashboard/places"]
  {
    if !IsAdminSession(session) then Step(Thrown("Unauthorized"), s, [])
    else if id !in s.places then Step(Fail("Failed to verify place"), s, [])
    else
      var p := s.places[id].(status := status);
      Step(Ok(p), s.(places := s.places[id := p]), ["/dashboard/places"])
  }

  method VerifyPlace(db: Db, session: Session, id: Id, status: PlaceStatus) returns (r: Response<Place>)
    modifies db
    ensures var out := VerifyPlaceStep(old(db.Snapshot()), session, id, status);
      r == out.response && db.Snapshot() == out.after && db.invalidated == old(db.invalidated) + out.invalidated
  {
    if !IsAdminSession(session) {
      return Thrown("Unauthorized");
    }
    if id !in db.places {
      return Fail("Failed to verify place");
    }
    var p := db.places[id].(status := status);
    db.places := db.places[id := p];
    db.Revalidate("/dashboard/places");
    return Ok(p);
  }

  /** `verifyPlace` changes the status of that one place and nothing else. */
  lemma VerifyPlaceFrame(s: Tables, session: Session, id: Id, status: PlaceStatus)
    ensures var out := VerifyPlaceStep(s, session, id, status);
      && out.after.users == s.users && out.after.verifications == s.verifications
      && out.after.places.Keys == s.places.Keys
      && (forall k :: k in s.places && k != id ==> out.after.places[k] == s.places[k])
      && (out.response.Ok? ==>
            out.after.places[id].status == status && out.after.places[id].(status := s.places[id].status) == s.places[id])
  {
  }

  /** `!isAdmin && !isOwner` refuses: the caller may change a place when an
      admin or when its linked submitter. */
  predicate MayModify(user: SessionUser, p: Place)
  {
    user.role == ADMIN || p.submitter == Some(user.id)
  }

  /** `deletePlace(id)`. */
  function DeletePlaceStep(s: Tables, session: Session, id: Id): (out: Step<()>)
    ensures !out.response.Ok? ==> out.after == s && out.invalidated == [] && out.response.Fail?
    ensures !HasUserId(session) ==> out.response == Fail("Unauthorized")
    ensures HasUserId(session) && id !in s.places ==> out.response == Fail("Place not found")
    ensures HasUserId(session) && id in s.places && !MayModify(session.value, s.places[id]) ==>
      out.response == Fail("Unauthorized")
    ensures out.response.Ok? <==> HasUserId(session) && id in s.places && MayModify(session.value, s.places[id])
    ensures out.response.Ok? ==>
      out.after == s.(places := s.places - {id}) && out.invalidated == ["/dashboard/places"]
  {
    if !HasUserId(session) then Step(Fail("Unauthorized"), s, [])
    else if id !in s.places then Step(Fail("Place not found"), s, [])
    else if !MayModify(session.value, s.places[id]) then Step(Fail("Unauthorized"), s, [])
    else Step(Ok(()), s.(places := s.places - {id}), ["/dashboard/places"])
  }

  method DeletePlace(db: Db, session: Session, id: Id) returns (r: Response<()>)
    modifies db
    ensures var out := DeletePlaceStep(old(db.Snapshot()), session, id);
      r == out.response && db.Snapshot() == out.after && db.invalidated == old(db.invalidated) + out.invalidated
  {
    if !HasUserId(session) {
      return Fail("Unauthorized");
    }
    if id !in db.places {
      return Fail("Place not found");
    }
    if !MayModify(session.value, db.places[id]) {
      return Fail("Unauthorized");
    }
    db.places := db.places - {id};
    db.Revalidate("/dashboard/places");
    return Ok(());
  }

  /** The update a `Partial<PlaceFormData>` makes: given fields replace the
      column, absent ones leave it; the submitter is never touched. */
  function Patched(p: Place, patch: PlacePatch): (q: Place)
    ensures q.submitter == p.submitter
    ensures q.name == (if patch.name.Some? then patch.name.value else p.name)
    ensures q.address == (if patch.address.Some? then patch.address.value else p.address)
    ensures q.description == (if patch.description.Some? then patch.description else p.description)
    ensures q.wifiAvailable == (if patch.wifiAvailable.Some? then patch.wifiAvailable.value else p.wifiAvailable)
    ensures q.powerOutletsAvailable ==
      (if patch.powerOutletsAvailable.Some? then patch.powerOutletsAvailable.value else p.powerOutletsAvailable)
    ensures q.status == (if patch.status.Some? then patch.status.value else p.status)
    ensures q.details.Keys == p.details.Keys + patch.details.Keys
    ensures forall k :: k in patch.details ==> q.details[k] == patch.details[k]
    ensures forall k :: k in p.details && k !in patch.details ==> q.details[k] == p.details[k]
  {
    Place(
      if patch.name.Some? then patch.name.value else p.name,
      if patch.address.Some? then patch.address.value else p.address,
      if patch.description.Some? then patch.description else p.description,
      if patch.status.Some? then patch.status.value else p.status,
      p.submitter,
      if patch.wifiAvailable.Some? then patch.wifiAvailable.value else p.wifiAvailable,
      if patch.powerOutletsAvailable.Some? then patch.powerOutletsAvailable.value else p.powerOutletsAvailable,
      p.details + patch.details)
  }

  /** A patch with every field absent leaves the place as it is, and
      applying the same patch twice is applying it once. */
  lemma PatchLaws(p: Place, patch: PlacePatch)
    ensures Patched(p, PlacePatch(None, None, None, None, None, None, map[])) == p
    ensures Patched(Patched(p, patch), patch) == Patched(p, patch)
  {
    assert p.details + map[] == p.details;
    assert (p.details + patch.details) + patch.details == p.details + patch.details;
  }

  /** `updatePlace(id, data)`: the guards of `deletePlace`, then the update,
      which fails with its own message when a column refuses its value. */
  function UpdatePlaceStep(s: Tables, session: Session, id: Id, patch: PlacePatch, accepts: ColumnCheck): (out: Step<Place>)
    ensures !out.response.Ok? ==> out.after == s && out.invalidated == [] && out.response.Fail?
    ensures !HasUserId(session) ==> out.response == Fail("Unauthorized")
    ensures HasUserId(session) && id !in s.places ==> out.response == Fail("Place not found")
    ensures HasUserId(session) && id in s.places && !MayModify(session.value, s.places[id]) ==>
      out.response == Fail("Unauthorized")
    ensures HasUserId(session) && id in s.places && MayModify(session.value, s.places[id]) ==>
      !DetailsAccepted(patch.details, accepts) ==> out.response == Fail("Failed to update place")
    ensures out.response.Ok? <==>
      HasUserId(session) && id in s.places && MayModify(session.value, s.places[id]) && DetailsAccepted(patch.details, accepts)
    ensures out.response.Ok? ==>
      && out.response.data == Patched(s.places[id], patch)
      && out.after == s.(places := s.places[id := out.response.data])
      && out.invalidated == ["/dashboard/places"]
  {
    if !HasUserId(session) then Step(Fail("Unauthorized"), s, [])
    else if id !in s.places then Step(Fail("Place not found"), s, [])
    else if !MayModify(session.value, s.places[id]) then Step(Fail("Unauthorized"), s, [])
    else if !DetailsAccepted(patch.details, accepts) then Step(Fail("Failed to update place"), s, [])
    else
      var p := Patched(s.places[id], patch);
      Step(Ok(p), s.(places := s.places[id := p]), ["/dashboard/places"])
  }

  method UpdatePlace(db: Db, session: Session, id: Id, patch: PlacePatch, accepts: ColumnCheck) returns (r: Response<Place>)
    modifies db
    ensures var out := UpdatePlaceStep(old(db.Snapshot()), session, id, patch, accepts);
      r == out.response && db.Snapshot() == out.after && db.invalidated == old(db.invalidated) + out.invalidated
  {
    if !HasUserId(session) {
      return Fail("Unauthorized");
    }
    if id !in db.places {
      return Fail("Place not found");
    }
    if !MayModify(session.value, db.places[id]) {
      return Fail("Unauthorized");
    }
    if !DetailsAccepted(patch.details, accepts) {
      return Fail("Failed to update place");
    }
    var p := Patched(db.places[id], patch);
    db.places := db.places[id := p];
    db.Revalidate("/dashboard/places");
    return Ok(p);
  }

  /** Only an admin or the place's submitter can change or remove a place
      through `deletePlace` or `updatePlace`. */
  lemma OnlyOwnerOrAdminChangesPlace(s: Tables, session: Session, id: Id, patch: PlacePatch, accepts: ColumnCheck)
    requires id in s.places
    ensures var d := DeletePlaceStep(s, session, id);
      d.after.places != s.places ==> HasUserId(session) && MayModify(session.value, s.places[id])
    ensures var u := UpdatePlaceStep(s, session, id, patch, accepts);
      u.after.places != s.places ==> HasUserId(session) && MayModify(session.value, s.places[id])
  {
  }

  /** Unlike `createPlace`, `updatePlace` does not restrict the status an
      owner may set: a non-admin owner can mark their own place
      VERIFIED_ADMIN. */
  lemma OwnerMaySetAnyStatus(s: Tables, owner: SessionUser, id: Id, patch: PlacePatch, accepts: ColumnCheck)
    requires owner.id != "" && owner.role == USER
    requires id in s.places && s.places[id].submitter == Some(owner.id)
    requires patch.status == Some(VERIFIED_ADMIN) && DetailsAccepted(patch.details, accepts)
    ensures UpdatePlaceStep(s, Some(owner), id, patch, accepts).after.places[id].status == VERIFIED_ADMIN
  {
  }

  /** The `where` of `getPlaces`: `id in ids` when coordinates were given,
      `status in statuses` when the list is present and not empty. */
  predicate PlaceWhere(ids: Option<set<Id>>, statuses: Option<seq<PlaceStatus>>, id: Id, p: Place)
  {
    && (ids.Some? ==> id in ids.value)
    && (statuses.Some? && |statuses.value| > 0 ==> p.status in statuses.value)
  }

  /** `getPlaces(lat?, lng?, radiusKm, statuses?)`. `nearby` is the set of
      place ids the radius query returns, `None` when no coordinates were
      given; `order` is the newest-first order of the places table. The rows
      are whole `Place` values: the source's `select` leaves out the
      submitter column, which the model returns as well. */
  function GetPlaces(s: Tables, order: seq<Id>, nearby: Option<set<Id>>, statuses: Option<seq<PlaceStatus>>): (rows: seq<(Id, Place)>)
    requires IsOrdering(order, s.places)
    ensures nearby == Some({}) ==> rows == []
    ensures forall i :: 0 <= i < |rows| ==>
      rows[i].0 in s.places && rows[i].1 == s.places[rows[i].0] && PlaceWhere(nearby, statuses, rows[i].0, rows[i].1)
    ensures forall id :: id in s.places && PlaceWhere(nearby, statuses, id, s.places[id]) ==> id in Ids(rows)
    ensures Subsequence(Ids(rows), order)
  {
    if nearby.Some? && |nearby.value| == 0 then []
    else Select(s.places, order, (id: Id, p: Place) => PlaceWhere(nearby, statuses, id, p))
  }

  /** The early return for an empty radius result gives what the query
      itself would have given, and an empty status list filters nothing. */
  lemma GetPlacesFilters(s: Tables, order: seq<Id>, nearby: Option<set<Id>>)
    requires IsOrdering(order, s.places)
    ensures Select(s.places, order, (id: Id, p: Place) => PlaceWhere(Some({}), None, id, p)) == []
    ensures GetPlaces(s, order, nearby, Some([])) == GetPlaces(s, order, nearby, None)
  {
    var rows := Select(s.places, order, (id: Id, p: Place) => PlaceWhere(Some({}), None, id, p));
    if rows != [] {
      assert false;
    }
    if !(nearby.Some? && |nearby.value| == 0) {
      SelectAgrees(s.places, order,
        (id: Id, p: Place) => PlaceWhere(nearby, Some([]), id, p),
        (id: Id, p: Place) => PlaceWhere(nearby, None, id, p));
    }
  }

  /** The `where` of `getPlacesList`: the name contains `search` ignoring
      case, and the status is `status` unless that is "ALL". */
  predicate ListWhere(search: string, status: Option<PlaceStatus>, p: Place)
  {
    Contains(Lower(p.name), Lower(search)) && (status.Some? ==> p.status == status.value)
  }

  /** The ids of the places the list's `where` admits: what its `count`
      counts. */
  function Listed(s: Tables, search: string, status: Option<PlaceStatus>): (ids: set<Id>)
    ensures forall id :: id in ids <==> id in s.places && ListWhere(search, status, s.places[id])
  {
    set id | id in s.places && ListWhere(search, status, s.places[id])
  }

  /** `getPlacesList({ page, limit, search, status })`: one page of the
      matching places in `order` (the `orderBy` of `sortKey`/`sortDir`).
      A status that is neither "ALL" nor an enum value, and a page below 1
      (a negative `skip`), make the query throw. */
  function GetPlacesList(s: Tables, order: seq<Id>, page: int, limit: int, search: string, status: string): (r: Response<ListPage<(Id, Place)>>)
    requires IsOrdering(order, s.places)
    requires limit >= 1
    ensures !r.Ok? ==> r == Fail("Failed to fetch places list")
    ensures r.Ok? <==> page >= 1 && (status == "ALL" || ParseStatus(status).Some?)
    ensures r.Ok? ==>
      var rows := ListRows(s, order, search, if status == "ALL" then None else ParseStatus(status));
      && r.data.total == |rows|
      && r.data.page == page && r.data.limit == limit
      && r.data.totalPages == TotalPages(|rows|, limit)
      && |r.data.items| <= limit
      && r.data.items == Window(rows, Skip(page, limit), limit)
  {
    if status != "ALL" && ParseStatus(status).None? then Fail("Failed to fetch places list")
    else
      var pg := Paginate(ListRows(s, order, search, if status == "ALL" then None else ParseStatus(status)), page, limit);
      if pg.None? then Fail("Failed to fetch places list") else Ok(pg.value)
  }

  /** The `findMany({ where })` of the list before paging: the matching
      places in `order`, one row for each place that `count` counts. */
  function ListRows(s: Tables, order: seq<Id>, search: string, filter: Option<PlaceStatus>): (rows: seq<(Id, Place)>)
    requires IsOrdering(order, s.places)
    ensures |rows| == |Listed(s, search, filter)|
    ensures forall i :: 0 <= i < |rows| ==>
      rows[i].0 in s.places && rows[i].1 == s.places[rows[i].0] && ListWhere(search, filter, rows[i].1)
    ensures forall id :: id in s.places && ListWhere(search, filter, s.places[id]) ==> id in Ids(rows)
    ensures Subsequence(Ids(rows), order)
  {
    var keep := (id: Id, p: Place) => ListWhere(search, filter, p);
    SelectCount(s.places, order, keep);
    assert Matching(s.places, keep) == Listed(s, search, filter);
    Select(s.places, order, keep)
  }

  /** With status "ALL" and an empty search the list pages through every
      place. */
  lemma AllPlacesListed(s: Tables, order: seq<Id>, page: int, limit: int)
    requires IsOrdering(order, s.places)
    requires limit >= 1 && page >= 1
    ensures var r := GetPlacesList(s, order, page, limit, "", "ALL");
      r.Ok? && r.data.total == |s.places|
  {
    forall id | id in s.places ensures ListWhere("", None, s.places[id]) {
      assert StartsWith(Lower(s.places[id].name), Lower(""));
    }
    assert Listed(s, "", None) == s.places.Keys;
  }

  /** Two filters that accept the same rows select the same rows. */
  lemma {:induction false} SelectAgrees(table: map<Id, Place>, order: seq<Id>, keep1: (Id, Place) -> bool, keep2: (Id, Place) -> bool)
    requires forall i :: 0 <= i < |order| ==> order[i] in table
    requires forall id, p :: keep1(id, p) == keep2(id, p)
    ensures Select(table, order, keep1) == Select(table, order, keep2)
    decreases |order|
  {
    if order != [] {
      SelectAgrees(table, order[1..], keep1, keep2);
    }
  }
}
