/** The admin places table: the row status badge, the Verify action and the
    menu item that offers it, and the payload the create and edit dialogs
    send to `createPlace`/`updatePlace`. The dialog's form state and its
    chip and switch updaters are those of `PlaceForm`. */
module AdminPlacesTable {
  import opened Common
  import opened Text
  import opened Database
  import opened Places
  import opened PlaceForm

  /** `handleVerify(place)`: `verifyPlace(place.id, "VERIFIED_ADMIN")`. An
      admin's request marks the place VERIFIED_ADMIN and touches no other place. */
  function HandleVerify(s: Tables, session: Session, id: Id): (out: Step<Place>)
    ensures out == VerifyPlaceStep(s, session, id, VERIFIED_ADMIN)
    ensures out.response.Ok? <==> IsAdminSession(session) && id in s.places
    ensures out.response.Ok? ==>
      && out.after.places.Keys == s.places.Keys
      && out.after.places[id].status == VERIFIED_ADMIN
      && !VerifyMenuShown(out.after.places[id].status)
      && (forall other :: other in s.places && other != id ==> out.after.places[other] == s.places[other])
  {
    VerifyPlaceStep(s, session, id, VERIFIED_ADMIN)
  }

  /** `place.status !== "VERIFIED_ADMIN"`: whether the row menu offers Verify. */
  predicate VerifyMenuShown(status: PlaceStatus)
  {
    status != VERIFIED_ADMIN
  }

  /** Verify is offered on every row that the action would change: exactly
      the places not yet VERIFIED_ADMIN. */
  lemma VerifyShownIffItChangesTheRow(s: Tables, session: Session, id: Id)
    requires IsAdminSession(session) && id in s.places
    ensures VerifyMenuShown(s.places[id].status) <==> HandleVerify(s, session, id).after.places[id] != s.places[id]
  {
    var before := s.places[id];
    if before.status == VERIFIED_ADMIN {
      assert before.(status := VERIFIED_ADMIN) == before;
    }
  }

  /** The variants of the badge component. */
  datatype BadgeVariant = Default | Secondary | Outline | Destructive

  /** `getStatusBadge(status)`: the variant looked up in the record (a status
      missing from it falls back to outline) and the status with every `_`
      written as a space. */
  function StatusBadge(status: PlaceStatus): (b: (BadgeVariant, string))
    ensures b.0 == Default <==> status == VERIFIED_ADMIN
    ensures b.0 == Secondary <==> status == VERIFIED_USER
    ensures b.0 == Destructive <==> status == REJECTED
    ensures b.0 == Outline <==> status == PENDING || status == UNVERIFIED
    ensures |b.1| == |StatusName(status)| && '_' !in b.1
    ensures forall i :: 0 <= i < |b.1| ==> b.1[i] == if StatusName(status)[i] == '_' then ' ' else StatusName(status)[i]
  {
    var variant := match status
      case VERIFIED_ADMIN => Default
      case VERIFIED_USER => Secondary
      case PENDING => Outline
      case REJECTED => Destructive
      case UNVERIFIED => Outline;
    (variant, ReplaceChar(StatusName(status), '_', ' '))
  }

  /** Two statuses never share a badge label. */
  lemma BadgeLabelsDistinct(a: PlaceStatus, b: PlaceStatus)
    requires a != b
    ensures StatusBadge(a).1 != StatusBadge(b).1
  {
    assert |StatusName(a)| != |StatusName(b)|;
  }

  /** The `PlaceFormData` the dialogs submit, without its numeric fields:
      `None` is a field left undefined. */
  datatype Payload = Payload(
    name: string,
    address: string,
    description: Option<string>,
    status: PlaceStatus,
    wifiAvailable: bool,
    wifiStability: Option<string>,
    wifiPolicy: Option<string>,
    powerOutletsAvailable: bool,
    powerOutletDensity: Option<string>,
    tableSize: Option<string>,
    seatingTypes: Option<seq<string>>,
    noiseLevel: Option<string>,
    musicVolume: Option<string>,
    crowdLevel: Option<string>,
    laptopFriendly: bool,
    stayPolicy: Option<string>,
    meetingFriendly: bool,
    callFriendly: bool,
    airConditioning: bool,
    temperatureComfort: Option<string>,
    restroomAvailable: bool,
    smokingArea: Option<string>,
    parkingAvailable: bool,
    openingHours: Option<string>,
    busyHours: Option<string>,
    commonVisitors: Option<seq<string>>)

  /** `text || undefined`. */
  function Defined(text: string): (o: Option<string>)
    ensures o.None? <==> text == ""
    ensures o.Some? ==> o.value == text
  {
    if text == "" then None else Some(text)
  }

  /** `list.length ? list : undefined`. */
  function DefinedList(list: seq<string>): (o: Option<seq<string>>)
    ensures o.None? <==> list == []
    ensures o.Some? ==> o.value == list
  {
    if list == [] then None else Some(list)
  }

  /** The text an undefined field stands for in the form. */
  function OrEmpty(o: Option<string>): string
  {
    if o.Some? then o.value else ""
  }

  function OrEmptyList(o: Option<seq<string>>): seq<string>
  {
    if o.Some? then o.value else []
  }

  /** No field of a payload is present but empty. */
  predicate Normal(p: Payload)
  {
    && p.description != Some("") && p.wifiStability != Some("") && p.wifiPolicy != Some("")
    && p.powerOutletDensity != Some("") && p.tableSize != Some("") && p.seatingTypes != Some([])
    && p.noiseLevel != Some("") && p.musicVolume != Some("") && p.crowdLevel != Some("")
    && p.stayPolicy != Some("") && p.temperatureComfort != Some("") && p.smokingArea != Some("")
    && p.openingHours != Some("") && p.busyHours != Some("") && p.commonVisitors != Some([])
  }

  /** `buildPayload()`: the text and list fields of the form, undefined when
      empty, and the switches as they are. */
  function BuildPayload(f: FormData): (p: Payload)
    ensures Normal(p)
    ensures p.name == f.name && p.address == f.address && p.status == f.status
    ensures && p.wifiAvailable == f.wifiAvailable && p.powerOutletsAvailable == f.powerOutletsAvailable
            && p.laptopFriendly == f.laptopFriendly && p.meetingFriendly == f.meetingFriendly
            && p.callFriendly == f.callFriendly && p.airConditioning == f.airConditioning
            && p.restroomAvailable == f.restroomAvailable && p.parkingAvailable == f.parkingAvailable
    ensures p.description.None? <==> f.description == ""
    ensures p.seatingTypes.None? <==> f.seatingTypes == []
    ensures p.commonVisitors.None? <==> f.commonVisitors == []
  {
    Payload(
      f.name, f.address, Defined(f.description), f.status,
      f.wifiAvailable, Defined(f.wifiStability), Defined(f.wifiPolicy),
      f.powerOutletsAvailable, Defined(f.powerOutletDensity), Defined(f.tableSize), DefinedList(f.seatingTypes),
      Defined(f.noiseLevel), Defined(f.musicVolume), Defined(f.crowdLevel),
      f.laptopFriendly, Defined(f.stayPolicy), f.meetingFriendly, f.callFriendly,
      f.airConditioning, Defined(f.temperatureComfort), f.restroomAvailable, Defined(f.smokingArea),
      f.parkingAvailable, Defined(f.openingHours), Defined(f.busyHours), DefinedList(f.commonVisitors))
  }

  /** The form a payload came from, its numeric text fields taken from `f`:
      every undefined field back to an empty box. */
  function Restore(p: Payload, f: FormData): FormData
  {
    f.(name := p.name, address := p.address, description := OrEmpty(p.description), status := p.status,
       wifiAvailable := p.wifiAvailable, wifiStability := OrEmpty(p.wifiStability), wifiPolicy := OrEmpty(p.wifiPolicy),
       powerOutletsAvailable := p.powerOutletsAvailable, powerOutletDensity := OrEmpty(p.powerOutletDensity),
       tableSize := OrEmpty(p.tableSize), seatingTypes := OrEmptyList(p.seatingTypes),
       noiseLevel := OrEmpty(p.noiseLevel), musicVolume := OrEmpty(p.musicVolume), crowdLevel := OrEmpty(p.crowdLevel),
       laptopFriendly := p.laptopFriendly, stayPolicy := OrEmpty(p.stayPolicy),
       meetingFriendly := p.meetingFriendly, callFriendly := p.callFriendly,
       airConditioning := p.airConditioning, temperatureComfort := OrEmpty(p.temperatureComfort),
       restroomAvailable := p.restroomAvailable, smokingArea := OrEmpty(p.smokingArea),
       parkingAvailable := p.parkingAvailable, openingHours := OrEmpty(p.openingHours),
       busyHours := OrEmpty(p.busyHours), commonVisitors := OrEmptyList(p.commonVisitors))
  }

  /** The payload loses nothing of the form but its numeric fields. */
  lemma RestoreBuildPayload(f: FormData)
    ensures Restore(BuildPayload(f), f) == f
  {
  }

  /** Every payload without present-but-empty fields is what some form
      builds: the mapping is a bijection onto the normal payloads. */
  lemma BuildPayloadRestore(p: Payload, f: FormData)
    requires Normal(p)
    ensures BuildPayload(Restore(p, f)) == p
  {
  }

  /** A switched-off WiFi or power switch submits no detail answers. */
  lemma SwitchesClearSubmittedDetails(f: FormData, v: bool)
    ensures BuildPayload(SetWifi(f, v)).wifiStability.None? && BuildPayload(SetWifi(f, v)).wifiPolicy.None?
    ensures BuildPayload(SetPower(f, v)).powerOutletDensity.None?
  {
  }

  /** What `createPlace` writes into a descriptive column from the payload:
      an undefined text or list writes nothing, a yes/no field always a value. */
  function CellOf(p: Payload, key: DetailColumn): Option<Cell>
  {
    match key
    case WifiStability => TextCellOf(p.wifiStability)
    case WifiPolicy => TextCellOf(p.wifiPolicy)
    case PowerOutletDensity => TextCellOf(p.powerOutletDensity)
    case TableSize => TextCellOf(p.tableSize)
    case SeatingTypes => ListCellOf(p.seatingTypes)
    case NoiseLevel => TextCellOf(p.noiseLevel)
    case MusicVolume => TextCellOf(p.musicVolume)
    case CrowdLevel => TextCellOf(p.crowdLevel)
    case LaptopFriendly => Some(FlagCell(p.laptopFriendly))
    case StayPolicy => TextCellOf(p.stayPolicy)
    case MeetingFriendly => Some(FlagCell(p.meetingFriendly))
    case CallFriendly => Some(FlagCell(p.callFriendly))
    case AirConditioning => Some(FlagCell(p.airConditioning))
    case TemperatureComfort => TextCellOf(p.temperatureComfort)
    case RestroomAvailable => Some(FlagCell(p.restroomAvailable))
    case SmokingArea => TextCellOf(p.smokingArea)
    case ParkingAvailable => Some(FlagCell(p.parkingAvailable))
    case OpeningHours => TextCellOf(p.openingHours)
    case BusyHours => TextCellOf(p.busyHours)
    case CommonVisitors => ListCellOf(p.commonVisitors)
  }

  function TextCellOf(o: Option<string>): Option<Cell>
  {
    if o.Some? then Some(TextCell(o.value)) else None
  }

  function ListCellOf(o: Option<seq<string>>): Option<Cell>
  {
    if o.Some? then Some(ListCell(o.value)) else None
  }

  const AllColumns: set<DetailColumn> := {
    WifiStability, WifiPolicy, PowerOutletDensity, TableSize, SeatingTypes,
    NoiseLevel, MusicVolume, CrowdLevel, LaptopFriendly, StayPolicy, MeetingFriendly, CallFriendly,
    AirConditioning, TemperatureComfort, RestroomAvailable, SmokingArea, ParkingAvailable,
    OpeningHours, BusyHours, CommonVisitors}

  /** The payload as `createPlace` reads it: the status, the two switches
      the rules look at, and every descriptive column that receives a value. */
  function ToInput(p: Payload): (data: PlaceInput)
    ensures data.name == p.name && data.address == p.address && data.description == p.description
    ensures data.status == Some(p.status)
    ensures data.wifiAvailable == Some(p.wifiAvailable) && data.powerOutletsAvailable == Some(p.powerOutletsAvailable)
    ensures forall k :: k in data.details <==> CellOf(p, k).Some?
    ensures forall k :: k in data.details ==> data.details[k] == CellOf(p, k).value
  {
    var details := map k | k in AllColumns && CellOf(p, k).Some? :: CellOf(p, k).value;
    PlaceInput(p.name, p.address, p.description, Some(p.status), Some(p.wifiAvailable), Some(p.powerOutletsAvailable), details)
  }

  /** The text stored under `key`, if any. */
  function TextAt(d: map<DetailColumn, Cell>, key: DetailColumn): Option<string>
  {
    if key in d && d[key].TextCell? then Some(d[key].text) else None
  }

  /** The list stored under `key`, if any. */
  function ListAt(d: map<DetailColumn, Cell>, key: DetailColumn): Option<seq<string>>
  {
    if key in d && d[key].ListCell? then Some(d[key].items) else None
  }

  /** The yes/no answer stored under `key`; a missing one is no. */
  function FlagAt(d: map<DetailColumn, Cell>, key: DetailColumn): bool
  {
    key in d && d[key].FlagCell? && d[key].flag
  }

  /** The payload a `createPlace` input carries, read back column by column. */
  function FromInput(data: PlaceInput): Payload
  {
    var d := data.details;
    Payload(
      data.name, data.address, data.description, if data.status.Some? then data.status.value else UNVERIFIED,
      OrFalse(data.wifiAvailable), TextAt(d, WifiStability), TextAt(d, WifiPolicy),
      OrFalse(data.powerOutletsAvailable), TextAt(d, PowerOutletDensity), TextAt(d, TableSize),
      ListAt(d, SeatingTypes),
      TextAt(d, NoiseLevel), TextAt(d, MusicVolume), TextAt(d, CrowdLevel),
      FlagAt(d, LaptopFriendly), TextAt(d, StayPolicy), FlagAt(d, MeetingFriendly), FlagAt(d, CallFriendly),
      FlagAt(d, AirConditioning), TextAt(d, TemperatureComfort), FlagAt(d, RestroomAvailable),
      TextAt(d, SmokingArea), FlagAt(d, ParkingAvailable), TextAt(d, OpeningHours), TextAt(d, BusyHours),
      ListAt(d, CommonVisitors))
  }

  /** `createPlace` receives every non-numeric field of the dialog's
      payload: the payload can be read back from its input. */
  lemma ToInputKeepsPayload(p: Payload)
    ensures FromInput(ToInput(p)) == p
  {
    WifiAndSeatingKept(p);
    AtmosphereKept(p);
    HoursAndVisitorsKept(p);
    WorkFlagsKept(p);
    FacilityFlagsKept(p);
  }

  /** The WiFi, power and seating text columns of the input are those of the payload. */
  lemma WifiAndSeatingKept(p: Payload)
    ensures TextAt(ToInput(p).details, WifiStability) == p.wifiStability
    ensures TextAt(ToInput(p).details, WifiPolicy) == p.wifiPolicy
    ensures TextAt(ToInput(p).details, PowerOutletDensity) == p.powerOutletDensity
    ensures TextAt(ToInput(p).details, TableSize) == p.tableSize
    ensures ListAt(ToInput(p).details, SeatingTypes) == p.seatingTypes
  {
    TextRead(p, ToInput(p).details, WifiStability, p.wifiStability);
    TextRead(p, ToInput(p).details, WifiPolicy, p.wifiPolicy);
    TextRead(p, ToInput(p).details, PowerOutletDensity, p.powerOutletDensity);
    TextRead(p, ToInput(p).details, TableSize, p.tableSize);
    ListRead(p, ToInput(p).details, SeatingTypes, p.seatingTypes);
  }

  /** The noise, crowd, stay and comfort text columns of the input are those of the payload. */
  lemma AtmosphereKept(p: Payload)
    ensures TextAt(ToInput(p).details, NoiseLevel) == p.noiseLevel
    ensures TextAt(ToInput(p).details, MusicVolume) == p.musicVolume
    ensures TextAt(ToInput(p).details, CrowdLevel) == p.crowdLevel
    ensures TextAt(ToInput(p).details, StayPolicy) == p.stayPolicy
    ensures TextAt(ToInput(p).details, TemperatureComfort) == p.temperatureComfort
  {
    TextRead(p, ToInput(p).details, NoiseLevel, p.noiseLevel);
    TextRead(p, ToInput(p).details, MusicVolume, p.musicVolume);
    TextRead(p, ToInput(p).details, CrowdLevel, p.crowdLevel);
    TextRead(p, ToInput(p).details, StayPolicy, p.stayPolicy);
    TextRead(p, ToInput(p).details, TemperatureComfort, p.temperatureComfort);
  }

  /** The smoking, hours and visitors columns of the input are those of the payload. */
  lemma HoursAndVisitorsKept(p: Payload)
    ensures TextAt(ToInput(p).details, SmokingArea) == p.smokingArea
    ensures TextAt(ToInput(p).details, OpeningHours) == p.openingHours
    ensures TextAt(ToInput(p).details, BusyHours) == p.busyHours
    ensures ListAt(ToInput(p).details, CommonVisitors) == p.commonVisitors
  {
    TextRead(p, ToInput(p).details, SmokingArea, p.smokingArea);
    TextRead(p, ToInput(p).details, OpeningHours, p.openingHours);
    TextRead(p, ToInput(p).details, BusyHours, p.busyHours);
    ListRead(p, ToInput(p).details, CommonVisitors, p.commonVisitors);
  }

  /** The laptop, meeting and call columns of the input are those of the payload. */
  lemma WorkFlagsKept(p: Payload)
    ensures FlagAt(ToInput(p).details, LaptopFriendly) == p.laptopFriendly
    ensures FlagAt(ToInput(p).details, MeetingFriendly) == p.meetingFriendly
    ensures FlagAt(ToInput(p).details, CallFriendly) == p.callFriendly
  {
    FlagRead(p, ToInput(p).details, LaptopFriendly, p.laptopFriendly);
    FlagRead(p, ToInput(p).details, MeetingFriendly, p.meetingFriendly);
    FlagRead(p, ToInput(p).details, CallFriendly, p.callFriendly);
  }

  /** The air conditioning, restroom and parking columns of the input are those of the payload. */
  lemma FacilityFlagsKept(p: Payload)
    ensures FlagAt(ToInput(p).details, AirConditioning) == p.airConditioning
    ensures FlagAt(ToInput(p).details, RestroomAvailable) == p.restroomAvailable
    ensures FlagAt(ToInput(p).details, ParkingAvailable) == p.parkingAvailable
  {
    FlagRead(p, ToInput(p).details, AirConditioning, p.airConditioning);
    FlagRead(p, ToInput(p).details, RestroomAvailable, p.restroomAvailable);
    FlagRead(p, ToInput(p).details, ParkingAvailable, p.parkingAvailable);
  }

  /** A text column reads back what the payload held. */
  lemma TextRead(p: Payload, d: map<DetailColumn, Cell>, key: DetailColumn, o: Option<string>)
    requires d == ToInput(p).details && CellOf(p, key) == TextCellOf(o)
    ensures TextAt(d, key) == o
  {
  }

  /** A yes/no column reads back what the payload held. */
  lemma FlagRead(p: Payload, d: map<DetailColumn, Cell>, key: DetailColumn, b: bool)
    requires d == ToInput(p).details && CellOf(p, key) == Some(FlagCell(b))
    ensures FlagAt(d, key) == b
  {
  }

  /** A list column reads back what the payload held. */
  lemma ListRead(p: Payload, d: map<DetailColumn, Cell>, key: DetailColumn, o: Option<seq<string>>)
    requires d == ToInput(p).details && CellOf(p, key) == ListCellOf(o)
    ensures ListAt(d, key) == o
  {
  }

  /** A place created from the dialog has the form's name, address,
      description and switches, and, when an admin creates it, the status
      chosen in the form; its row holds every non-numeric field of the form,
      which can be read back from it. */
  lemma CreatedFromDialog(f: FormData, user: SessionUser)
    ensures var p := CreatedPlace(ToInput(BuildPayload(f)), user);
      && p.name == f.name && p.address == f.address
      && p.wifiAvailable == f.wifiAvailable
      && p.powerOutletsAvailable == f.powerOutletsAvailable
      && p.description == (if f.description == "" then None else Some(f.description))
      && (user.role == ADMIN ==> p.status == f.status)
      && (user.role != ADMIN ==> p.status == UNVERIFIED)
    ensures var p := CreatedPlace(ToInput(BuildPayload(f)), user);
      Restore(FromInput(PlaceInput(p.name, p.address, p.description, Some(f.status), Some(p.wifiAvailable),
                                   Some(p.powerOutletsAvailable), p.details)), f) == f
  {
    ToInputKeepsPayload(BuildPayload(f));
    RestoreBuildPayload(f);
  }
}
