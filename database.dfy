/** The rows the server actions read and write, a value snapshot of all
    tables, the result of one action on that snapshot, and the database
    itself as an object whose tables the actions update in place. */
module Database {
  import opened Common

  /** A row of the users table. `password` holds what the hash function
      returned, never the plain text. */
  datatype User = User(email: string, name: Option<string>, password: string, role: Role, emailVerified: Option<int>)

  /** A row of the places table: the columns the rules read or write, and
      the remaining descriptive columns (price, noise, opening hours, ...)
      by column name. */
  datatype Place = Place(
    name: string,
    address: string,
    description: Option<string>,
    status: PlaceStatus,
    submitter: Option<Id>,
    wifiAvailable: bool,
    powerOutletsAvailable: bool,
    details: map<DetailColumn, Cell>)

  /** The descriptive non-numeric columns of the places table. */
  datatype DetailColumn =
    | WifiStability | WifiPolicy | PowerOutletDensity | TableSize | SeatingTypes
    | NoiseLevel | MusicVolume | CrowdLevel | LaptopFriendly | StayPolicy | MeetingFriendly | CallFriendly
    | AirConditioning | TemperatureComfort | RestroomAvailable | SmokingArea | ParkingAvailable
    | OpeningHours | BusyHours | CommonVisitors

  /** The value of a descriptive column: a text (an enum name, a time
      range), a yes/no answer or a list of enum names. */
  datatype Cell = TextCell(text: string) | FlagCell(flag: bool) | ListCell(items: seq<string>)

  /** A row of the place verifications table. */
  datatype Verification = Verification(placeId: Id, userId: Id, proofLink: string, status: PlaceStatus, adminNotes: Option<string>)

  /** The unique key of an email-verification token: (identifier, token);
      the identifier is the email address. */
  type TokenKey = (string, string)

  /** All tables at one moment; the tokens table maps a key to its expiry time. */
  datatype Tables = Tables(
    users: map<Id, User>,
    places: map<Id, Place>,
    verifications: map<Id, Verification>,
    tokens: map<TokenKey, int>)

  /** One action applied to a snapshot: its reply, the tables afterwards and
      the paths it passed to `revalidatePath`, in order. */
  datatype Step<+T> = Step(response: Response<T>, after: Tables, invalidated: seq<string>)

  /** The unique constraint on the email column. */
  predicate EmailsUnique(users: map<Id, User>)
  {
    forall a, b :: a in users && b in users && users[a].email == users[b].email ==> a == b
  }

  /** `findUnique({ where: { email } })` finds a row. */
  predicate EmailTaken(users: map<Id, User>, email: string)
  {
    exists id :: id in users && users[id].email == email
  }

  /** `order` lists every key of `table` exactly once: the order in which the
      database returns the rows of a query's `orderBy`. */
  ghost predicate IsOrdering<V>(order: seq<Id>, table: map<Id, V>)
  {
    && (forall i, j :: 0 <= i < j < |order| ==> order[i] != order[j])
    && (forall i :: 0 <= i < |order| ==> order[i] in table)
    && (forall id :: id in table ==> id in order)
  }

  /** The rows of `table`, listed in `order`, that `keep` accepts. */
  function Select<V>(table: map<Id, V>, order: seq<Id>, keep: (Id, V) -> bool): (rows: seq<(Id, V)>)
    requires forall i :: 0 <= i < |order| ==> order[i] in table
    ensures forall i :: 0 <= i < |rows| ==>
      rows[i].0 in table && rows[i].1 == table[rows[i].0] && keep(rows[i].0, rows[i].1)
    ensures forall id :: id in order && keep(id, table[id]) ==> id in Ids(rows)
    ensures Subsequence(Ids(rows), order)
    decreases |order|
  {
    if order == [] then []
    else
      var rest := Select(table, order[1..], keep);
      var id := order[0];
      if keep(id, table[id]) then
        assert Ids([(id, table[id])] + rest) == [id] + Ids(rest);
        [(id, table[id])] + rest
      else
        rest
  }

  /** Over an ordering of the table, a query returns one row per key that
      satisfies its `where`: as many as `count({ where })` counts. */
  lemma SelectCount<V>(table: map<Id, V>, order: seq<Id>, keep: (Id, V) -> bool)
    requires IsOrdering(order, table)
    ensures |Select(table, order, keep)| == |Matching(table, keep)|
  {
    SelectCountDistinct(table, order, keep);
    assert (set id | id in order && id in table && keep(id, table[id])) == Matching(table, keep);
  }

  /** The keys of the rows that satisfy `keep`. */
  function Matching<V>(table: map<Id, V>, keep: (Id, V) -> bool): (ids: set<Id>)
    ensures forall id :: id in ids <==> id in table && keep(id, table[id])
  {
    set id | id in table && keep(id, table[id])
  }

  lemma {:induction false} SelectCountDistinct<V>(table: map<Id, V>, order: seq<Id>, keep: (Id, V) -> bool)
    requires forall i :: 0 <= i < |order| ==> order[i] in table
    requires forall i, j :: 0 <= i < j < |order| ==> order[i] != order[j]
    ensures |Select(table, order, keep)| == |set id | id in order && id in table && keep(id, table[id])|
    decreases |order|
  {
    if order != [] {
      SelectCountDistinct(table, order[1..], keep);
      SelectLengthStep(table, order, keep);
      MatchingStep(table, order, keep);
    }
  }

  /** `Select` over a non-empty order: the first key adds one row when it matches. */
  lemma SelectLengthStep<V>(table: map<Id, V>, order: seq<Id>, keep: (Id, V) -> bool)
    requires order != [] && forall i :: 0 <= i < |order| ==> order[i] in table
    ensures |Select(table, order, keep)| ==
      |Select(table, order[1..], keep)| + (if keep(order[0], table[order[0]]) then 1 else 0)
  {
  }

  /** The matching keys of a distinct order: those of its tail, and its
      first key when that one matches. */
  lemma MatchingStep<V>(table: map<Id, V>, order: seq<Id>, keep: (Id, V) -> bool)
    requires order != [] && forall i :: 0 <= i < |order| ==> order[i] in table
    requires forall i, j :: 0 <= i < j < |order| ==> order[i] != order[j]
    ensures |set id | id in order && id in table && keep(id, table[id])| ==
      |set id | id in order[1..] && id in table && keep(id, table[id])| + (if keep(order[0], table[order[0]]) then 1 else 0)
  {
    var x, rest := order[0], order[1..];
    var a := set id | id in order && id in table && keep(id, table[id]);
    var b := set id | id in rest && id in table && keep(id, table[id]);
    assert x !in rest by {
      forall j | 0 <= j < |rest| ensures rest[j] != x {
        assert rest[j] == order[j + 1];
      }
    }
    var c: set<Id> := if keep(x, table[x]) then {x} else {};
    assert a == b + c by {
      assert order == [x] + rest;
    }
    assert b !! c;
  }

  /** The key column of a list of rows. */
  function Ids<V>(rows: seq<(Id, V)>): (ids: seq<Id>)
    ensures |ids| == |rows|
    ensures forall i :: 0 <= i < |rows| ==> ids[i] == rows[i].0
  {
    seq(|rows|, i requires 0 <= i < |rows| => rows[i].0)
  }

  /** The database. Each field is one table; `invalidated` records every
      path passed to `revalidatePath`, in order. */
  class Db {
    var users: map<Id, User>
    var places: map<Id, Place>
    var verifications: map<Id, Verification>
    var tokens: map<TokenKey, int>
    var invalidated: seq<string>

    /** The constraints the database enforces on its own. */
    ghost predicate Valid()
      reads this
    {
      EmailsUnique(users)
    }

    /** The tables as a value. */
    function Snapshot(): Tables
      reads this
    {
      Tables(users, places, verifications, tokens)
    }

    constructor ()
      ensures Valid()
      ensures Snapshot() == Tables(map[], map[], map[], map[]) && invalidated == []
    {
      users, places, verifications, tokens := map[], map[], map[], map[];
      invalidated := [];
    }

    /** `revalidatePath(path)`: fire and forget; only recorded. */
    method Revalidate(path: string)
      modifies this
      ensures Snapshot() == old(Snapshot())
      ensures invalidated == old(invalidated) + [path]
    {
      invalidated := invalidated + [path];
    }
  }
}
