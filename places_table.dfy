/** The rules of the places table on the dashboard: the label formatting of
    enum columns, how a filter, sort or page change rewrites the URL query,
    and which row actions a user is offered. */
module PlacesTable {
  import opened Common
  import opened Text
  import opened Database
  import Places
  import Verifications

  // ----- toTitleCase -----

  /** `word.charAt(0).toUpperCase() + word.slice(1)`. */
  function CapFirst(w: string): string
  {
    if w == [] then [] else [UpperChar(w[0])] + w[1..]
  }

  /** The first word capitalized only when `atStart`, every later word
      capitalized. */
  function CapWords(words: seq<string>, atStart: bool): (r: seq<string>)
    ensures |r| == |words|
  {
    seq(|words|, i requires 0 <= i < |words| => if i == 0 && !atStart then words[0] else CapFirst(words[i]))
  }

  /** `toTitleCase(str)`: "—" for a missing or empty value, otherwise the
      lower-cased value with each '_'-separated word capitalized and the
      words joined by spaces. */
  function ToTitleCase(str: Option<string>): (r: string)
    ensures str.None? || str == Some("") ==> r == "—"
    ensures str.Some? && str.value != "" ==> r == Cap(Lower(str.value), true)
  {
    if str.None? || str.value == "" then "—"
    else
      JoinSplitIsCap(Lower(str.value), true);
      Join(CapWords(SplitOn(Lower(str.value), "_"), true), " ")
  }

  /** The same result written character by character: '_' becomes ' ', a
      character at the start of a word is upper-cased, the rest is kept. */
  function Cap(t: string, atStart: bool): (r: string)
    ensures |r| == |t|
    decreases |t|
  {
    if t == [] then []
    else if t[0] == '_' then [' '] + Cap(t[1..], true)
    else [if atStart then UpperChar(t[0]) else t[0]] + Cap(t[1..], false)
  }

  lemma JoinFirstChar(c: char, w: string, rest: seq<string>, sep: string)
    ensures Join([[c] + w] + rest, sep) == [c] + Join([w] + rest, sep)
  {
    var a, b := [[c] + w] + rest, [w] + rest;
    assert a[1..] == rest && b[1..] == rest;
  }

  lemma JoinEmptyFirst(rest: seq<string>, sep: string)
    requires |rest| >= 1
    ensures Join([""] + rest, sep) == sep + Join(rest, sep)
  {
    assert ([""] + rest)[1..] == rest;
  }

  lemma SplitAtSeparator(t: string)
    requires |t| > 0 && t[0] == '_'
    ensures SplitOn(t, "_") == [""] + SplitOn(t[1..], "_")
  {
    assert StartsWith(t, "_");
  }

  lemma SplitAtOther(t: string)
    requires |t| > 0 && t[0] != '_'
    ensures var rest := SplitOn(t[1..], "_");
      SplitOn(t, "_") == [[t[0]] + rest[0]] + rest[1..]
  {
    assert !StartsWith(t, "_");
  }

  /** `CapWords` on a list written as its first word and the rest. */
  lemma CapWordsCons(w: string, rest: seq<string>, atStart: bool)
    ensures CapWords([w] + rest, atStart) == [if atStart then CapFirst(w) else w] + CapWords(rest, true)
  {
    var l := [w] + rest;
    assert l[0] == w;
    assert forall i :: 1 <= i < |l| ==> l[i] == rest[i - 1];
  }

  /** The step of `JoinSplitIsCap` over a leading '_'. */
  lemma CapStepSeparator(t: string, atStart: bool)
    requires |t| > 0 && t[0] == '_'
    requires Join(CapWords(SplitOn(t[1..], "_"), true), " ") == Cap(t[1..], true)
    ensures Join(CapWords(SplitOn(t, "_"), atStart), " ") == Cap(t, atStart)
  {
    var rest := SplitOn(t[1..], "_");
    SplitAtSeparator(t);
    CapWordsCons("", rest, atStart);
    assert CapFirst("") == "";
    JoinEmptyFirst(CapWords(rest, true), " ");
  }

  /** The step of `JoinSplitIsCap` over a leading character of a word. */
  lemma CapStepOther(t: string, atStart: bool)
    requires |t| > 0 && t[0] != '_'
    requires Join(CapWords(SplitOn(t[1..], "_"), false), " ") == Cap(t[1..], false)
    ensures Join(CapWords(SplitOn(t, "_"), atStart), " ") == Cap(t, atStart)
  {
    var rest := SplitOn(t[1..], "_");
    SplitAtOther(t);
    var c := if atStart then UpperChar(t[0]) else t[0];
    var tail := CapWords(rest[1..], true);
    assert rest == [rest[0]] + rest[1..];
    CapWordsCons(rest[0], rest[1..], false);
    CapWordsCons([t[0]] + rest[0], rest[1..], atStart);
    assert (if atStart then CapFirst([t[0]] + rest[0]) else [t[0]] + rest[0]) == [c] + rest[0];
    JoinFirstChar(c, rest[0], tail, " ");
  }

  lemma {:induction false} JoinSplitIsCap(t: string, atStart: bool)
    ensures Join(CapWords(SplitOn(t, "_"), atStart), " ") == Cap(t, atStart)
    decreases |t|
  {
    if t == [] {
      assert SplitOn(t, "_") == [""];
    } else if t[0] == '_' {
      JoinSplitIsCap(t[1..], true);
      CapStepSeparator(t, atStart);
    } else {
      JoinSplitIsCap(t[1..], false);
      CapStepOther(t, atStart);
    }
  }

  /** Position `i` of `Cap(t, atStart)`. */
  lemma {:induction false} CapAt(t: string, atStart: bool, i: nat)
    requires i < |t|
    ensures Cap(t, atStart)[i] ==
      if t[i] == '_' then ' '
      else if (if i == 0 then atStart else t[i - 1] == '_') then UpperChar(t[i])
      else t[i]
    decreases |t|
  {
    if i > 0 {
      CapAt(t[1..], t[0] == '_', i - 1);
    }
  }

  /** `toTitleCase` of a non-empty value, character by character: as long
      as its input, no '_' left, each word's first character upper-cased
      and every other character lower-cased. */
  lemma TitleCaseSpec(s: string)
    requires s != ""
    ensures var r := ToTitleCase(Some(s));
      && |r| == |s|
      && '_' !in r
      && forall i :: 0 <= i < |s| ==>
        r[i] == if s[i] == '_' then ' '
                else if i == 0 || s[i - 1] == '_' then UpperChar(LowerChar(s[i]))
                else LowerChar(s[i])
  {
    var t := Lower(s);
    var r := ToTitleCase(Some(s));
    assert r == Cap(t, true);
    forall i | 0 <= i < |s|
      ensures r[i] == if s[i] == '_' then ' '
                      else if i == 0 || s[i - 1] == '_' then UpperChar(LowerChar(s[i]))
                      else LowerChar(s[i])
      ensures r[i] != '_'
    {
      CapAt(t, true, i);
      assert t[i] == LowerChar(s[i]);
      assert i > 0 ==> t[i - 1] == LowerChar(s[i - 1]);
      if s[i] != '_' {
        CaseKeepsUnderscore(s[i]);
      }
    }
  }

  /** Case mapping neither makes nor removes an underscore. */
  lemma CaseKeepsUnderscore(c: char)
    requires c != '_'
    ensures LowerChar(c) != '_' && UpperChar(LowerChar(c)) != '_'
  {
  }

  /** `toTitleCase` of a missing or empty value. */
  lemma TitleCaseOfNothing()
    ensures ToTitleCase(None) == "—" && ToTitleCase(Some("")) == "—"
  {
  }

  // ----- updateUrl -----

  /** A value of the `params` record: `null`, `undefined`, a string or a
      number (only whole numbers occur: page numbers). */
  datatype ParamValue = Null | Undefined | Text(s: string) | Number(n: int)

  /** `URLSearchParams`: its entries in order; a key may repeat. */
  type Query = seq<(string, string)>

  /** `value === null || value === '' || value === undefined`. */
  predicate Cleared(v: ParamValue)
  {
    v.Null? || v.Undefined? || v == Text("")
  }

  /** JavaScript truthiness of a parameter value. */
  predicate Truthy(v: ParamValue)
  {
    (v.Text? && v.s != "") || (v.Number? && v.n != 0)
  }

  function DigitChar(d: int): char
    requires 0 <= d < 10
  {
    "0123456789"[d]
  }

  function NatToString(n: nat): (r: string)
    ensures |r| >= 1
    decreases n
  {
    if n < 10 then [DigitChar(n)] else NatToString(n / 10) + [DigitChar(n % 10)]
  }

  /** `String(value)` of a value that is not cleared. */
  function Render(v: ParamValue): string
  {
    match v
    case Text(s) => s
    case Number(n) => if n < 0 then "-" + NatToString(-n) else NatToString(n)
    case _ => ""
  }

  /** `getAll(key)`: the values of `key`, in order. */
  function Values(q: Query, key: string): seq<string>
  {
    if q == [] then [] else (if q[0].0 == key then [q[0].1] else []) + Values(q[1..], key)
  }

  /** `delete(key)`: every entry with that key goes. */
  function Delete(q: Query, key: string): (r: Query)
    ensures |r| <= |q|
  {
    if q == [] then [] else (if q[0].0 == key then [] else [q[0]]) + Delete(q[1..], key)
  }

  predicate HasKey(q: Query, key: string)
  {
    exists i :: 0 <= i < |q| && q[i].0 == key
  }

  /** `set(key, value)`: the first entry with that key takes the value and
      later ones go; a new key is appended. */
  function Set(q: Query, key: string, value: string): Query
  {
    if HasKey(q, key) then SetFirst(q, key, value) else q + [(key, value)]
  }

  function SetFirst(q: Query, key: string, value: string): Query
  {
    if q == [] then []
    else if q[0].0 == key then [(key, value)] + Delete(q[1..], key)
    else [q[0]] + SetFirst(q[1..], key, value)
  }

  lemma {:induction false} ValuesAppend(a: Query, b: Query, key: string)
    ensures Values(a + b, key) == Values(a, key) + Values(b, key)
    decreases |a|
  {
    if a != [] {
      ValuesAppend(a[1..], b, key);
      var ab := a + b;
      assert ab != [] && ab[0] == a[0];
      assert ab[1..] == a[1..] + b;
      var head := if a[0].0 == key then [a[0].1] else [];
      assert Values(ab, key) == head + Values(a[1..] + b, key);
      assert Values(a, key) == head + Values(a[1..], key);
    } else {
      assert a + b == b;
    }
  }

  lemma {:induction false} ValuesDelete(q: Query, key: string, other: string)
    ensures Values(Delete(q, key), other) == if other == key then [] else Values(q, other)
    decreases |q|
  {
    if q != [] {
      ValuesDelete(q[1..], key, other);
      var head: Query := if q[0].0 == key then [] else [q[0]];
      ValuesAppend(head, Delete(q[1..], key), other);
    }
  }

  lemma {:induction false} ValuesSetFirst(q: Query, key: string, value: string, other: string)
    requires HasKey(q, key)
    ensures Values(SetFirst(q, key, value), other) == if other == key then [value] else Values(q, other)
    decreases |q|
  {
    if q[0].0 == key {
      ValuesAppend([(key, value)], Delete(q[1..], key), other);
      ValuesDelete(q[1..], key, other);
    } else {
      var i :| 0 <= i < |q| && q[i].0 == key;
      assert q[1..][i - 1].0 == key;
      ValuesSetFirst(q[1..], key, value, other);
      ValuesAppend([q[0]], SetFirst(q[1..], key, value), other);
    }
  }

  lemma {:induction false} ValuesWithoutKey(q: Query, key: string)
    requires !HasKey(q, key)
    ensures Values(q, key) == []
    decreases |q|
  {
    if q != [] {
      assert q[0].0 != key;
      forall i | 0 <= i < |q| - 1 ensures q[1..][i].0 != key {
        assert q[1..][i] == q[i + 1];
      }
      ValuesWithoutKey(q[1..], key);
    }
  }

  /** After `set(key, value)` the key has exactly that one value and no
      other key changes. */
  lemma ValuesSet(q: Query, key: string, value: string, other: string)
    ensures Values(Set(q, key, value), other) == if other == key then [value] else Values(q, other)
  {
    if HasKey(q, key) {
      ValuesSetFirst(q, key, value, other);
    } else {
      ValuesAppend(q, [(key, value)], other);
      if other == key {
        ValuesWithoutKey(q, key);
      }
    }
  }

  /** One iteration of the `forEach`. */
  function Apply(q: Query, param: (string, ParamValue)): Query
  {
    if Cleared(param.1) then Delete(q, param.0) else Set(q, param.0, Render(param.1))
  }

  /** The values a key has after one iteration that names it. */
  function Expected(v: ParamValue): seq<string>
  {
    if Cleared(v) then [] else [Render(v)]
  }

  lemma ValuesApply(q: Query, param: (string, ParamValue), other: string)
    ensures Values(Apply(q, param), other) == if other == param.0 then Expected(param.1) else Values(q, other)
  {
    if Cleared(param.1) {
      ValuesDelete(q, param.0, other);
    } else {
      ValuesSet(q, param.0, Render(param.1), other);
    }
  }

  /** The whole `forEach` over `Object.entries(params)`. */
  function ApplyAll(q: Query, params: seq<(string, ParamValue)>): Query
    decreases |params|
  {
    if params == [] then q else Apply(ApplyAll(q, params[..|params| - 1]), params[|params| - 1])
  }

  lemma ApplyOne(q: Query, p: (string, ParamValue))
    ensures ApplyAll(q, [p]) == Apply(q, p)
  {
    assert [p][..0] == [];
  }

  lemma ApplyTwo(q: Query, p1: (string, ParamValue), p2: (string, ParamValue))
    ensures ApplyAll(q, [p1, p2]) == Apply(Apply(q, p1), p2)
  {
    assert [p1, p2][..1] == [p1];
    ApplyOne(q, p1);
  }

  lemma LookupOne(p: (string, ParamValue), key: string)
    ensures Lookup([p], key) == if p.0 == key then p.1 else Undefined
  {
    assert [p][1..] == [];
  }

  lemma LookupTwo(p1: (string, ParamValue), p2: (string, ParamValue), key: string)
    ensures Lookup([p1, p2], key) == if p1.0 == key then p1.1 else if p2.0 == key then p2.1 else Undefined
  {
    assert [p1, p2][1..] == [p2];
    LookupOne(p2, key);
  }

  /** The entries of a record have distinct keys. */
  predicate DistinctKeys(params: seq<(string, ParamValue)>)
  {
    forall i, j :: 0 <= i < j < |params| ==> params[i].0 != params[j].0
  }

  /** `params[key]`: `undefined` when the record has no such key. */
  function Lookup(params: seq<(string, ParamValue)>, key: string): ParamValue
    decreases |params|
  {
    if params == [] then Undefined
    else if params[0].0 == key then params[0].1
    else Lookup(params[1..], key)
  }

  lemma {:induction false} ValuesApplyAll(q: Query, params: seq<(string, ParamValue)>, key: string)
    requires DistinctKeys(params)
    ensures Values(ApplyAll(q, params), key) ==
      if exists i :: 0 <= i < |params| && params[i].0 == key then Expected(Lookup(params, key)) else Values(q, key)
    decreases |params|
  {
    if params != [] {
      var n := |params| - 1;
      var init := params[..n];
      ValuesApplyAll(q, init, key);
      ValuesApply(ApplyAll(q, init), params[n], key);
      LookupLast(params, key);
    }
  }

  /** With distinct keys, the last entry's key is looked up there, and any
      other key is looked up in the rest. */
  lemma {:induction false} LookupLast(params: seq<(string, ParamValue)>, key: string)
    requires DistinctKeys(params) && params != []
    ensures var n := |params| - 1;
      && (params[n].0 == key ==> Lookup(params, key) == params[n].1)
      && (params[n].0 != key ==> Lookup(params, key) == Lookup(params[..n], key))
      && ((exists i :: 0 <= i < |params| && params[i].0 == key) <==>
          (params[n].0 == key || exists i :: 0 <= i < n && params[..n][i].0 == key))
    decreases |params|
  {
    var n := |params| - 1;
    if n > 0 {
      if params[0].0 != key {
        var tail := params[1..];
        LookupLast(tail, key);
        assert tail[..n - 1] == params[..n][1..];
        assert tail[n - 1] == params[n];
      }
    }
    if exists i :: 0 <= i < |params| && params[i].0 == key {
      var i :| 0 <= i < |params| && params[i].0 == key;
      if i < n {
        assert params[..n][i].0 == key;
      }
    }
  }

  /** `!params.page && (params.search || params.status || params.sortKey || params.sortDir)`. */
  predicate ResetsPage(params: seq<(string, ParamValue)>)
  {
    && !Truthy(Lookup(params, "page"))
    && (Truthy(Lookup(params, "search")) || Truthy(Lookup(params, "status"))
        || Truthy(Lookup(params, "sortKey")) || Truthy(Lookup(params, "sortDir")))
  }

  /** The query `updateUrl(params)` pushes. */
  function UpdatedQuery(current: Query, params: seq<(string, ParamValue)>): Query
  {
    var q := ApplyAll(current, params);
    if ResetsPage(params) then Set(q, "page", "1") else q
  }

  /** `updateUrl(params)` on the current query, without the navigation. */
  method UpdateUrl(current: Query, params: seq<(string, ParamValue)>) returns (q: Query)
    ensures q == UpdatedQuery(current, params)
  {
    q := current;
    var i := 0;
    while i < |params|
      invariant 0 <= i <= |params|
      invariant q == ApplyAll(current, params[..i])
    {
      assert params[..i + 1][..i] == params[..i];
      var (key, value) := params[i];
      if Cleared(value) {
        q := Delete(q, key);
      } else {
        q := Set(q, key, Render(value));
      }
      i := i + 1;
    }
    assert params[..|params|] == params;
    if ResetsPage(params) {
      q := Set(q, "page", "1");
    }
  }

  /** What `updateUrl` promises: a cleared parameter is gone, any other
      has exactly its string form, "page" becomes "1" when a filter, search
      or sort is set and no page is given, and every key not named keeps its
      values. */
  lemma UpdatedQueryValues(current: Query, params: seq<(string, ParamValue)>, key: string)
    requires DistinctKeys(params)
    ensures var q := UpdatedQuery(current, params);
      && (key == "page" && ResetsPage(params) ==> Values(q, key) == ["1"])
      && (!(key == "page" && ResetsPage(params)) ==>
            Values(q, key) ==
              if exists i :: 0 <= i < |params| && params[i].0 == key then Expected(Lookup(params, key))
              else Values(current, key))
  {
    ValuesApplyAll(current, params, key);
    if ResetsPage(params) {
      ValuesSet(ApplyAll(current, params), "page", "1", key);
    }
  }

  /** `handleSearch('')` calls `updateUrl({ search: null })`, which drops
      the search and nothing else: it does not reset the page. */
  lemma ClearingSearchKeepsPage(current: Query)
    ensures UpdatedQuery(current, [("search", Null)]) == Delete(current, "search")
  {
    ApplyOne(current, ("search", Null));
  }

  /** `handleSearch(value)`: only an emptied box updates the URL at once. */
  function HandleSearch(value: string): (params: Option<seq<(string, ParamValue)>>)
    ensures params.Some? <==> value == ""
  {
    if value == "" then Some([("search", Null)]) else None
  }

  /** The debounced effect: `updateUrl({ search: searchValue || null })`
      once the box differs from the URL. */
  function DebouncedSearch(searchValue: string, searchQuery: string): (params: Option<seq<(string, ParamValue)>>)
    ensures params.Some? <==> searchValue != searchQuery
    ensures params.Some? ==> params.value == [("search", if searchValue == "" then Null else Text(searchValue))]
  {
    if searchValue == searchQuery then None
    else Some([("search", if searchValue == "" then Null else Text(searchValue))])
  }

  /** `handleSort(key)`'s new direction. */
  function NextSortDir(sortKey: string, sortDir: string, key: string): (dir: string)
    ensures dir == "desc" <==> sortKey == key && sortDir == "asc"
    ensures dir == "asc" || dir == "desc"
  {
    if sortKey == key && sortDir == "asc" then "desc" else "asc"
  }

  /** `handleSort(key)`'s parameters: the column and its new direction, no
      page, so the page is reset. */
  function HandleSort(sortKey: string, sortDir: string, key: string): (params: seq<(string, ParamValue)>)
    ensures DistinctKeys(params) && ResetsPage(params)
    ensures Lookup(params, "sortKey") == Text(key)
    ensures Lookup(params, "sortDir") == Text(NextSortDir(sortKey, sortDir, key))
  {
    var ps := [("sortKey", Text(key)), ("sortDir", Text(NextSortDir(sortKey, sortDir, key)))];
    LookupTwo(ps[0], ps[1], "page");
    LookupTwo(ps[0], ps[1], "sortKey");
    LookupTwo(ps[0], ps[1], "sortDir");
    ps
  }

  /** Clicking the same column twice from ascending goes to descending and
      back, a new column starts ascending, and every sort sets both sort
      parameters and sends the user to the first page. */
  lemma SortToggles(current: Query, sortKey: string, sortDir: string, key: string)
    ensures NextSortDir(key, NextSortDir(key, "asc", key), key) == "asc"
    ensures sortKey != key ==> NextSortDir(sortKey, sortDir, key) == "asc"
    ensures var q := UpdatedQuery(current, HandleSort(sortKey, sortDir, key));
      && Values(q, "page") == ["1"]
      && Values(q, "sortKey") == (if key == "" then [] else [key])
      && Values(q, "sortDir") == [NextSortDir(sortKey, sortDir, key)]
  {
    var ps := HandleSort(sortKey, sortDir, key);
    assert ps[0].0 == "sortKey" && ps[1].0 == "sortDir";
    UpdatedQueryValues(current, ps, "page");
    UpdatedQueryValues(current, ps, "sortKey");
    UpdatedQueryValues(current, ps, "sortDir");
  }

  /** `handlePageChange(newPage)`'s parameters: only the page, which the
      reset rule leaves alone. */
  function HandlePageChange(newPage: int): (params: seq<(string, ParamValue)>)
    ensures DistinctKeys(params) && !ResetsPage(params)
    ensures Lookup(params, "page") == Number(newPage)
  {
    var ps := [("page", Number(newPage))];
    LookupOne(ps[0], "page");
    LookupOne(ps[0], "search");
    LookupOne(ps[0], "status");
    LookupOne(ps[0], "sortKey");
    LookupOne(ps[0], "sortDir");
    ps
  }

  /** `handleStatusFilter(status)`'s parameters: "ALL" clears the status,
      any other value sets it; no page is given. */
  function HandleStatusFilter(status: string): (params: seq<(string, ParamValue)>)
    ensures DistinctKeys(params)
    ensures Cleared(Lookup(params, "status")) <==> status == "ALL" || status == ""
    ensures Lookup(params, "page") == Undefined
  {
    var ps := [("status", if status == "ALL" then Null else Text(status))];
    LookupOne(ps[0], "page");
    LookupOne(ps[0], "status");
    ps
  }

  /** `handleStatusFilter('ALL')` removes the status parameter and keeps the
      page; any other non-empty status sets it and goes to page 1. */
  lemma StatusFilterEffect(current: Query, status: string)
    ensures status == "ALL" ==> UpdatedQuery(current, HandleStatusFilter(status)) == Delete(current, "status")
    ensures status != "ALL" && status != "" ==>
      var q := UpdatedQuery(current, HandleStatusFilter(status));
      Values(q, "status") == [status] && Values(q, "page") == ["1"]
  {
    var ps := HandleStatusFilter(status);
    ApplyOne(current, ps[0]);
    LookupOne(ps[0], "page");
    LookupOne(ps[0], "search");
    LookupOne(ps[0], "status");
    LookupOne(ps[0], "sortKey");
    LookupOne(ps[0], "sortDir");
    if status == "ALL" {
      assert ps == [("status", Null)];
    } else if status != "" {
      assert ps == [("status", Text(status))];
      assert ResetsPage(ps);
      assert ps[0].0 == "status";
      UpdatedQueryValues(current, ps, "status");
      UpdatedQueryValues(current, ps, "page");
    }
  }

  /** A page change only sets the page. */
  lemma PageChangeEffect(current: Query, newPage: int)
    ensures UpdatedQuery(current, HandlePageChange(newPage)) == Set(current, "page", Render(Number(newPage)))
  {
    ApplyOne(current, ("page", Number(newPage)));
  }

  // ----- row actions -----

  /** `currentUserRole !== 'ADMIN' && place.submitter_id !== currentUserId`:
      a place without a submitter never matches, even without a user id. */
  predicate MenuDisabled(currentUserRole: Option<string>, submitter: Option<Id>, currentUserId: Option<Id>)
  {
    currentUserRole != Some("ADMIN") && !(submitter.Some? && currentUserId == submitter)
  }

  function RoleName(r: Role): string
  {
    match r
    case USER => "USER"
    case ADMIN => "ADMIN"
  }

  /** For a signed-in user, Edit and Delete are enabled exactly when the
      server's delete and update would accept the request. */
  lemma MenuMatchesServer(user: SessionUser, p: Place)
    requires user.id != ""
    ensures !MenuDisabled(Some(RoleName(user.role)), p.submitter, Some(user.id)) <==> Places.MayModify(user, p)
  {
  }

  /** The Verify item is offered only for UNVERIFIED places. */
  predicate VerifyOffered(status: PlaceStatus)
  {
    status == UNVERIFIED
  }

  /** Verify on an offered row files a PENDING record for that place through
      `confirmVerify`; the place itself stays UNVERIFIED until an admin
      decides, so the item stays offered. */
  lemma VerifyOfferedFilesPendingRecord(s: Tables, session: Session, id: Id, proofLink: string, notes: string, newId: Id)
    requires id in s.places && VerifyOffered(s.places[id].status)
    requires HasUserId(session) && session.value.id in s.users && newId !in s.verifications
    requires proofLink != ""
    ensures var call := ConfirmVerify(Some(id), proofLink, notes);
      && call == Some((id, proofLink))
      && var out := Verifications.SubmitVerificationStep(s, session, call.value.0, call.value.1, newId);
      && out.response.Ok?
      && out.after.verifications[newId] == Verification(id, session.value.id, proofLink, PENDING, None)
      && out.after.places == s.places
      && VerifyOffered(out.after.places[id].status)
  {
  }

  /** `confirmVerify()`: the `submitVerification` call it makes, if any. An
      empty proof link stops it with an alert; the notes typed in the dialog
      are passed as a third argument that the action does not take. */
  function ConfirmVerify(selected: Option<Id>, proofLink: string, notes: string): (call: Option<(Id, string)>)
    ensures call.Some? <==> selected.Some? && proofLink != ""
    ensures call.Some? ==> call.value == (selected.value, proofLink)
  {
    if selected.None? then None
    else if proofLink == "" then None
    else Some((selected.value, proofLink))
  }
}
