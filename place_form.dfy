/** The place editor's form state (`PlaceFormData` of the form component):
    the chip lists that toggle an item in or out, the feature switches that
    clear their detail fields, and the time-range picker that stores a range
    as one "start - end" string. */
module PlaceForm {
  import opened Common
  import opened Text

  /** Every field of the form as the inputs hold it: text boxes as strings
      (numbers included, before parsing), switches as booleans and the two
      chip groups as lists. */
  datatype FormData = FormData(
    name: string,
    address: string,
    description: string,
    status: PlaceStatus,
    latitude: string,
    longitude: string,
    priceLevel: string,
    averageDrinkPrice: string,
    minimumSpend: string,
    wifiAvailable: bool,
    wifiSpeed: string,
    wifiStability: string,
    wifiPolicy: string,
    powerOutletsAvailable: bool,
    powerOutletDensity: string,
    tableSize: string,
    seatingTypes: seq<string>,
    noiseLevel: string,
    musicVolume: string,
    crowdLevel: string,
    laptopFriendly: bool,
    stayPolicy: string,
    meetingFriendly: bool,
    callFriendly: bool,
    workFriendlyScore: string,
    airConditioning: bool,
    temperatureComfort: string,
    restroomAvailable: bool,
    smokingArea: string,
    parkingAvailable: bool,
    openingHours: string,
    busyHours: string,
    commonVisitors: seq<string>)

  /** `defaultFormData`, the state of a new form. */
  const DefaultFormData := FormData(
    "", "", "", PENDING, "", "", "", "", "",
    false, "", "", "",
    false, "", "", [],
    "", "", "",
    false, "", false, false, "",
    false, "", false, "", false,
    "", "", [])

  /** Every text box empty, every switch off, both chip lists empty. */
  predicate Blank(f: FormData)
  {
    && f.name == "" && f.address == "" && f.description == ""
    && f.latitude == "" && f.longitude == ""
    && f.priceLevel == "" && f.averageDrinkPrice == "" && f.minimumSpend == ""
    && f.wifiSpeed == "" && f.wifiStability == "" && f.wifiPolicy == ""
    && f.powerOutletDensity == "" && f.tableSize == ""
    && f.noiseLevel == "" && f.musicVolume == "" && f.crowdLevel == ""
    && f.stayPolicy == "" && f.workFriendlyScore == ""
    && f.temperatureComfort == "" && f.smokingArea == ""
    && f.openingHours == "" && f.busyHours == ""
    && !f.wifiAvailable && !f.powerOutletsAvailable && !f.laptopFriendly
    && !f.meetingFriendly && !f.callFriendly && !f.airConditioning
    && !f.restroomAvailable && !f.parkingAvailable
    && f.seatingTypes == [] && f.commonVisitors == []
  }

  /** A new form is blank and proposes the PENDING status. */
  lemma DefaultFormDataIsBlank()
    ensures Blank(DefaultFormData) && DefaultFormData.status == PENDING
  {
  }

  /** The filter keeps the count of every element it accepts and drops all
      copies of the one it rejects. */
  lemma {:induction false} FilterDropsOne(s: seq<string>, x: string, keep: string -> bool)
    requires forall y :: keep(y) <==> y != x
    ensures multiset(Filter(s, keep)) == multiset(s)[x := 0]
    decreases |s|
  {
    if s != [] {
      FilterDropsOne(s[1..], x, keep);
      assert s == [s[0]] + s[1..];
      assert multiset(s) == multiset([s[0]]) + multiset(s[1..]);
    }
  }

  /** Filtering out an element that only the appended last item equals
      gives back the list before the append. */
  lemma {:induction false} FilterDropsAppended(s: seq<string>, x: string, keep: string -> bool)
    requires forall y :: keep(y) <==> y != x
    requires x !in s
    ensures Filter(s + [x], keep) == s
    decreases |s|
  {
    if s == [] {
      assert Filter([x], keep) == Filter([], keep);
    } else {
      assert (s + [x])[0] == s[0];
      assert (s + [x])[1..] == s[1..] + [x];
      FilterDropsAppended(s[1..], x, keep);
      assert [s[0]] + s[1..] == s;
    }
  }

  /** The chip toggle `list.includes(x) ? list.filter(t => t !== x) :
      [...list, x]`: a present item leaves the list, every copy of it and
      nothing else, the rest in order; an absent one is appended. */
  function Toggle(list: seq<string>, x: string): (r: seq<string>)
    ensures x in r <==> x !in list
    ensures x in list ==> Subsequence(r, list) && multiset(r) == multiset(list)[x := 0]
    ensures x !in list ==> r == list + [x]
  {
    if x in list then
      FilterDropsOne(list, x, t => t != x);
      Filter(list, t => t != x)
    else list + [x]
  }

  /** Toggling an absent item twice restores the list. */
  lemma ToggleTwice(list: seq<string>, x: string)
    requires x !in list
    ensures Toggle(Toggle(list, x), x) == list
  {
    FilterDropsAppended(list, x, t => t != x);
  }

  /** `toggleSeatingType(type)`: only the seating list changes. */
  function ToggleSeatingType(f: FormData, t: string): (g: FormData)
    ensures g.seatingTypes == Toggle(f.seatingTypes, t)
    ensures g.(seatingTypes := f.seatingTypes) == f
  {
    f.(seatingTypes := Toggle(f.seatingTypes, t))
  }

  /** `toggleCommonVisitor(visitor)`: only the visitor list changes. */
  function ToggleCommonVisitor(f: FormData, v: string): (g: FormData)
    ensures g.commonVisitors == Toggle(f.commonVisitors, v)
    ensures g.(commonVisitors := f.commonVisitors) == f
  {
    f.(commonVisitors := Toggle(f.commonVisitors, v))
  }

  /** Clicking a seating chip twice on an unselected item leaves the form
      as it was. */
  lemma SeatingChipClickedTwice(f: FormData, t: string)
    requires t !in f.seatingTypes
    ensures ToggleSeatingType(ToggleSeatingType(f, t), t) == f
  {
    ToggleTwice(f.seatingTypes, t);
    var g := ToggleSeatingType(ToggleSeatingType(f, t), t);
    assert g.seatingTypes == f.seatingTypes;
  }

  /** Clicking a visitor chip twice on an unselected item leaves the form
      as it was. */
  lemma VisitorChipClickedTwice(f: FormData, v: string)
    requires v !in f.commonVisitors
    ensures ToggleCommonVisitor(ToggleCommonVisitor(f, v), v) == f
  {
    ToggleTwice(f.commonVisitors, v);
    var g := ToggleCommonVisitor(ToggleCommonVisitor(f, v), v);
    assert g.commonVisitors == f.commonVisitors;
  }

  /** The WiFi switch set to `v`: the speed, stability and policy answers
      are cleared whichever way it is flipped; nothing else changes. */
  function SetWifi(f: FormData, v: bool): (g: FormData)
    ensures g.wifiAvailable == v
    ensures g.wifiSpeed == "" && g.wifiStability == "" && g.wifiPolicy == ""
    ensures g.(wifiAvailable := f.wifiAvailable, wifiSpeed := f.wifiSpeed,
               wifiStability := f.wifiStability, wifiPolicy := f.wifiPolicy) == f
  {
    f.(wifiAvailable := v, wifiSpeed := "", wifiStability := "", wifiPolicy := "")
  }

  /** The power-outlet switch set to `v`: the density answer is cleared;
      nothing else changes. */
  function SetPower(f: FormData, v: bool): (g: FormData)
    ensures g.powerOutletsAvailable == v && g.powerOutletDensity == ""
    ensures g.(powerOutletsAvailable := f.powerOutletsAvailable, powerOutletDensity := f.powerOutletDensity) == f
  {
    f.(powerOutletsAvailable := v, powerOutletDensity := "")
  }

  const RangeSeparator := " - "

  /** `t || '00:00'`: an empty time input counts as midnight. */
  function OrMidnight(t: string): (r: string)
    ensures r != ""
    ensures t != "" ==> r == t
  {
    if t == "" then "00:00" else t
  }

  /** `updateTime(newStart, newEnd)`: the value the picker reports. */
  function UpdateTime(start: string, end: string): (v: string)
    ensures v == "" <==> start == "" && end == ""
  {
    if start == "" && end == "" then "" else OrMidnight(start) + RangeSeparator + OrMidnight(end)
  }

  /** `const [start, end] = value.split(' - ').concat(['', ''])`: the first
      two pieces, an absent second piece read as empty. */
  function ParseRange(value: string): (r: (string, string))
    ensures value == "" ==> r == ("", "")
  {
    var pieces := SplitOn(value, RangeSeparator) + ["", ""];
    (pieces[0], pieces[1])
  }

  /** A value without the separator, such as a single time, is read as the
      start with an empty end. */
  lemma ParseSingleTime(value: string)
    requires ' ' !in value
    ensures ParseRange(value) == (value, "")
  {
    SplitWithoutSeparator(value, RangeSeparator);
  }

  /** Reading back what the picker wrote gives the two times, an empty one
      as midnight, or two empty boxes when both were empty; the times are
      those of `<input type="time">`, which hold no space. */
  lemma ParseUpdateTime(start: string, end: string)
    requires ' ' !in start && ' ' !in end
    ensures start == "" && end == "" ==> ParseRange(UpdateTime(start, end)) == ("", "")
    ensures start != "" || end != "" ==> ParseRange(UpdateTime(start, end)) == (OrMidnight(start), OrMidnight(end))
  {
    if start != "" || end != "" {
      var a, b := OrMidnight(start), OrMidnight(end);
      assert ' ' !in a && ' ' !in b;
      SplitAfterPiece(a, RangeSeparator, b);
      SplitWithoutSeparator(b, RangeSeparator);
      assert SplitOn(UpdateTime(start, end), RangeSeparator) == [a, b];
    }
  }

  /** Changing one end in the picker keeps the other end as it was, once
      the range has been written. */
  lemma EditOneEnd(start: string, end: string, t: string)
    requires ' ' !in start && ' ' !in end && ' ' !in t
    requires start != "" || end != ""
    ensures ParseRange(UpdateTime(t, ParseRange(UpdateTime(start, end)).1)).1 == OrMidnight(end)
    ensures ParseRange(UpdateTime(ParseRange(UpdateTime(start, end)).0, t)).0 == OrMidnight(start)
  {
    ParseUpdateTime(start, end);
    var a, b := OrMidnight(start), OrMidnight(end);
    assert ' ' !in a && ' ' !in b;
    ParseUpdateTime(t, b);
    ParseUpdateTime(a, t);
  }
}
