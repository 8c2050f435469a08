/**
 * The shared status taxonomy: the three city services, the raw status codes the
 * calendar API reports for each of them, and the table that turns a code into a
 * standardised description of the day.
 */
module Services {
  import opened Wrappers

  /** The services the calendar reports on. */
  datatype ServiceType = Parking | School | Sanitation

  /** The key the API uses for the service (the enum's value). */
  function ServiceValue(t: ServiceType): string
  {
    match t
    case Parking => "Alternate Side Parking"
    case School => "Schools"
    case Sanitation => "Collections"
  }

  /** The services in declaration order, the order in which Python iterates the enum. */
  const AllServiceTypes: seq<ServiceType> := [Parking, School, Sanitation]

  /** `ServiceType(raw)`: the service whose key is `raw`; None where Python raises ValueError. */
  function ServiceTypeOf(raw: string): (r: Option<ServiceType>)
    ensures r.Some? ==> ServiceValue(r.value) == raw
    ensures r.None? <==> forall t: ServiceType :: ServiceValue(t) != raw
  {
    if raw == "Alternate Side Parking" then Some(Parking)
    else if raw == "Schools" then Some(School)
    else if raw == "Collections" then Some(Sanitation)
    else None
  }

  /** The three keys are pairwise distinct, so a key names at most one service. */
  lemma ServiceValueInjective(a: ServiceType, b: ServiceType)
    ensures ServiceValue(a) == ServiceValue(b) <==> a == b
  {
    if a != b {
      assert ServiceValue(a)[0] != ServiceValue(b)[0];
    }
  }

  /** Looking a service up by its own key gives it back. */
  lemma ServiceTypeRoundTrip(t: ServiceType)
    ensures ServiceTypeOf(ServiceValue(t)) == Some(t)
  {
    ServiceValueInjective(t, ServiceTypeOf(ServiceValue(t)).value);
  }

  /** AllServiceTypes lists every service exactly once. */
  lemma AllServiceTypesComplete(t: ServiceType)
    ensures t in AllServiceTypes
    ensures |AllServiceTypes| == 3
    ensures forall i, j :: 0 <= i < j < |AllServiceTypes| ==> AllServiceTypes[i] != AllServiceTypes[j]
  {
  }

  /** How a status affects its service, common to all three services. */
  datatype StandardizedExceptionType =
    | NormalActive
    | NormalSuspended
    | SuspendedType
    | DelayedType
    | PartialType
    | UnsureType
    | RecessType
    | RemoteType

  /** The enum's integer value. */
  function ExceptionTypeValue(e: StandardizedExceptionType): (v: int)
    ensures 1 <= v <= 7 || v == 99
    ensures v == 99 <==> e == RemoteType
  {
    match e
    case NormalActive => 1
    case NormalSuspended => 2
    case SuspendedType => 3
    case DelayedType => 4
    case PartialType => 5
    case UnsureType => 6
    case RecessType => 7
    case RemoteType => 99
  }

  /** A status's name, its standardised type and its human-readable description. */
  datatype StatusTypeDetail = StatusTypeDetail(name: string, exceptionType: StandardizedExceptionType, description: string)

  /** The school status codes. */
  datatype SchoolStatus = Closed | SchoolNoInfo | NotInSession | Open | PartlyOpen | RemoteOnly | StaffOnly | Tentative

  /** The sanitation status codes. */
  datatype SanitationStatus = NoCompost | Delayed | SanitationNoInfo | SanitationNotInEffect | OnSchedule | SanitationSuspended | NoLegacyTrash

  /** The parking status codes. */
  datatype ParkingStatus = InEffect | ParkingNoInfo | ParkingNotInEffect | ParkingSuspended

  function SchoolValue(s: SchoolStatus): string
  {
    match s
    case Closed => "CLOSED"
    case SchoolNoInfo => "NO INFORMATION"
    case NotInSession => "NOT IN SESSION"
    case Open => "OPEN"
    case PartlyOpen => "PARTLY OPEN"
    case RemoteOnly => "REMOTE ONLY"
    case StaffOnly => "STAFF ONLY"
    case Tentative => "TENTATIVE"
  }

  function SanitationValue(s: SanitationStatus): string
  {
    match s
    case NoCompost => "COMPOST SUSPENDED"
    case Delayed => "DELAYED"
    case SanitationNoInfo => "NO INFORMATION"
    case SanitationNotInEffect => "NOT IN EFFECT"
    case OnSchedule => "ON SCHEDULE"
    case SanitationSuspended => "SUSPENDED"
    case NoLegacyTrash => "COLLECTION AND RECYCLING SUSPENDED"
  }

  function ParkingValue(s: ParkingStatus): string
  {
    match s
    case InEffect => "IN EFFECT"
    case ParkingNoInfo => "NO INFORMATION"
    case ParkingNotInEffect => "NOT IN EFFECT"
    case ParkingSuspended => "SUSPENDED"
  }

  /**
   * School's `status_map`. The dict has one entry per member of the enum, so it
   * is a total function here, one column function per field.
   */
  function SchoolStatusMap(s: SchoolStatus): StatusTypeDetail
  {
    StatusTypeDetail(SchoolName(s), SchoolKind(s), SchoolDescription(s))
  }

  /** The "name" column of School's `status_map`. */
  function SchoolName(s: SchoolStatus): string
  {
    match s
    case Closed => "Closed"
    case SchoolNoInfo => "No Information"
    case NotInSession => "Not In Session"
    case Open => "Open"
    case PartlyOpen => "Partly Open"
    case RemoteOnly => "Remote Only"
    case StaffOnly => "Closed for Students"
    case Tentative => "Tentative"
  }

  /** The standardised-type column of School's `status_map`. */
  function SchoolKind(s: SchoolStatus): StandardizedExceptionType
  {
    match s
    case Closed => SuspendedType
    case SchoolNoInfo => UnsureType
    case NotInSession => SuspendedType
    case Open => NormalActive
    case PartlyOpen => PartialType
    case RemoteOnly => RemoteType
    case StaffOnly => PartialType
    case Tentative => UnsureType
  }

  /** The "description" column of School's `status_map`. */
  function SchoolDescription(s: SchoolStatus): string
  {
    match s
    case Closed => "School is closed for the summer."
    case SchoolNoInfo => "Information is not available for this date."
    case NotInSession => "Schools are closed."
    case Open => "School is open as usual."
    case PartlyOpen => "School is open for some students and not others."
    case RemoteOnly => "Students are scheduled for remote learning."
    case StaffOnly => "Schools are closed for students but open for staff."
    case Tentative => "Schedule for this day has not yet been determined."
  }

  /** Sanitation's `status_map`, total in the same way. */
  function SanitationStatusMap(s: SanitationStatus): StatusTypeDetail
  {
    StatusTypeDetail(SanitationName(s), SanitationKind(s), SanitationDescription(s))
  }

  /** The "name" column of Sanitation's `status_map`. */
  function SanitationName(s: SanitationStatus): string
  {
    match s
    case NoCompost => "Compost Collection Suspended"
    case Delayed => "Delayed"
    case SanitationNoInfo => "To Be Determined"
    case SanitationNotInEffect => "Not In Effect"
    case OnSchedule => "On Schedule"
    case SanitationSuspended => "Suspended"
    case NoLegacyTrash => "Trash and Recycling Collection Suspended"
  }

  /** The standardised-type column of Sanitation's `status_map`. */
  function SanitationKind(s: SanitationStatus): StandardizedExceptionType
  {
    match s
    case NoCompost => PartialType
    case Delayed => DelayedType
    case SanitationNoInfo => UnsureType
    case SanitationNotInEffect => NormalSuspended
    case OnSchedule => NormalActive
    case SanitationSuspended => SuspendedType
    case NoLegacyTrash => PartialType
  }

  /** The "description" column of Sanitation's `status_map`. */
  function SanitationDescription(s: SanitationStatus): string
  {
    match s
    case NoCompost => "Compost collection is suspended. Trash and recycling collections are on schedule."
    case Delayed => "Trash, recycling, and compost collections are delayed."
    case SanitationNoInfo => "Schedule for this day has not yet been determined."
    case SanitationNotInEffect => "Trash, recycling, and compost collections are not in effect on Sundays."
    case OnSchedule => "Trash, recycling, and compost collection are operating as usual."
    case SanitationSuspended => "Trash, recycling, and compost collections are suspended."
    case NoLegacyTrash => "Trash and recycling collections are suspended. Compost collection is on schedule."
  }

  /** Parking's `status_map`, total in the same way. */
  function ParkingStatusMap(s: ParkingStatus): StatusTypeDetail
  {
    StatusTypeDetail(ParkingName(s), ParkingKind(s), ParkingDescription(s))
  }

  /** The "name" column of Parking's `status_map`. */
  function ParkingName(s: ParkingStatus): string
  {
    match s
    case InEffect => "In Effect"
    case ParkingNoInfo => "No Information"
    case ParkingNotInEffect => "Not In Effect"
    case ParkingSuspended => "Suspended"
  }

  /** The standardised-type column of Parking's `status_map`. */
  function ParkingKind(s: ParkingStatus): StandardizedExceptionType
  {
    match s
    case InEffect => NormalActive
    case ParkingNoInfo => UnsureType
    case ParkingNotInEffect => NormalSuspended
    case ParkingSuspended => SuspendedType
  }

  /** The "description" column of Parking's `status_map`. */
  function ParkingDescription(s: ParkingStatus): string
  {
    match s
    case InEffect => "Alternate side parking and meters are in effect."
    case ParkingNoInfo => "Information is not available for this date."
    case ParkingNotInEffect => "Alternate side parking and meters are not in effect on Sundays."
    case ParkingSuspended => "Alternate side parking and meters are suspended."
  }

  /** A status code together with the service whose enum it belongs to. */
  datatype StatusType =
    | SchoolCode(school: SchoolStatus)
    | SanitationCode(sanitation: SanitationStatus)
    | ParkingCode(parking: ParkingStatus)

  function ServiceOf(st: StatusType): ServiceType
  {
    match st
    case SchoolCode(_) => School
    case SanitationCode(_) => Sanitation
    case ParkingCode(_) => Parking
  }

  /** The raw API string of a status code. */
  function StatusValue(st: StatusType): string
  {
    match st
    case SchoolCode(s) => SchoolValue(s)
    case SanitationCode(s) => SanitationValue(s)
    case ParkingCode(s) => ParkingValue(s)
  }

  /**
   * `svc.status_map[st]`, looked up in the table of the code's own service:
   * its standardised type is the type column `KindOf` gives the code.
   */
  function Detail(st: StatusType): (r: StatusTypeDetail)
    ensures r.exceptionType == KindOf(st)
  {
    match st
    case SchoolCode(s) => SchoolStatusMap(s)
    case SanitationCode(s) => SanitationStatusMap(s)
    case ParkingCode(s) => ParkingStatusMap(s)
  }

  /** `School.StatusType(raw)`. */
  function SchoolStatusOf(raw: string): Option<SchoolStatus>
  {
    if raw == "CLOSED" then Some(Closed)
    else if raw == "NO INFORMATION" then Some(SchoolNoInfo)
    else if raw == "NOT IN SESSION" then Some(NotInSession)
    else if raw == "OPEN" then Some(Open)
    else if raw == "PARTLY OPEN" then Some(PartlyOpen)
    else if raw == "REMOTE ONLY" then Some(RemoteOnly)
    else if raw == "STAFF ONLY" then Some(StaffOnly)
    else if raw == "TENTATIVE" then Some(Tentative)
    else None
  }

  /** `Sanitation.StatusType(raw)`. */
  function SanitationStatusOf(raw: string): Option<SanitationStatus>
  {
    if raw == "COMPOST SUSPENDED" then Some(NoCompost)
    else if raw == "DELAYED" then Some(Delayed)
    else if raw == "NO INFORMATION" then Some(SanitationNoInfo)
    else if raw == "NOT IN EFFECT" then Some(SanitationNotInEffect)
    else if raw == "ON SCHEDULE" then Some(OnSchedule)
    else if raw == "SUSPENDED" then Some(SanitationSuspended)
    else if raw == "COLLECTION AND RECYCLING SUSPENDED" then Some(NoLegacyTrash)
    else None
  }

  /** `Parking.StatusType(raw)`. */
  function ParkingStatusOf(raw: string): Option<ParkingStatus>
  {
    if raw == "IN EFFECT" then Some(InEffect)
    else if raw == "NO INFORMATION" then Some(ParkingNoInfo)
    else if raw == "NOT IN EFFECT" then Some(ParkingNotInEffect)
    else if raw == "SUSPENDED" then Some(ParkingSuspended)
    else None
  }

  /**
   * `svc`'s `StatusType(raw)`: the code of that service whose value is `raw`,
   * or None where Python raises ValueError.
   */
  function ParseStatus(svc: ServiceType, raw: string): (r: Option<StatusType>)
    ensures r.Some? ==> ServiceOf(r.value) == svc && StatusValue(r.value) == raw
    ensures r.None? <==> forall st: StatusType :: ServiceOf(st) == svc ==> StatusValue(st) != raw
  {
    match svc
    case School =>
      (match SchoolStatusOf(raw) case Some(s) => Some(SchoolCode(s)) case None => None)
    case Sanitation =>
      (match SanitationStatusOf(raw) case Some(s) => Some(SanitationCode(s)) case None => None)
    case Parking =>
      (match ParkingStatusOf(raw) case Some(s) => Some(ParkingCode(s)) case None => None)
  }

  /** Within one service the raw strings are distinct: parsing is an injective partial function. */
  lemma StatusValueInjective(a: StatusType, b: StatusType)
    requires ServiceOf(a) == ServiceOf(b)
    ensures StatusValue(a) == StatusValue(b) <==> a == b
  {
    var r := ParseStatus(ServiceOf(a), StatusValue(a));
    assert r.Some?;
    if StatusValue(a) == StatusValue(b) {
      assert ParseStatus(ServiceOf(b), StatusValue(b)) == r;
      ParseRoundTrip(a);
      ParseRoundTrip(b);
    }
  }

  /** Parsing a code's own raw string under its own service gives the code back. */
  lemma ParseRoundTrip(st: StatusType)
    ensures ParseStatus(ServiceOf(st), StatusValue(st)) == Some(st)
  {
  }

  /**
   * The lookup `svc.status_map[svc.StatusType(raw)]`: the detail of the code of
   * `svc` spelled `raw`, or None when `svc` has no such code.
   */
  function Resolve(svc: ServiceType, raw: string): (r: Option<StatusTypeDetail>)
    ensures r.Some? ==> exists st: StatusType :: ServiceOf(st) == svc && StatusValue(st) == raw && r.value == Detail(st)
    ensures r.None? <==> forall st: StatusType :: ServiceOf(st) == svc ==> StatusValue(st) != raw
  {
    match ParseStatus(svc, raw)
    case Some(st) => Some(Detail(st))
    case None => None
  }

  /** The school table, by standardised type. */
  lemma SchoolTable(s: SchoolStatus)
    ensures SchoolKind(s) == NormalActive <==> s == Open
    ensures SchoolKind(s) == SuspendedType <==> s == Closed || s == NotInSession
    ensures SchoolKind(s) == PartialType <==> s == PartlyOpen || s == StaffOnly
    ensures SchoolKind(s) == RemoteType <==> s == RemoteOnly
    ensures SchoolKind(s) == UnsureType <==> s == SchoolNoInfo || s == Tentative
  {
  }

  /** The sanitation table, by standardised type. */
  lemma SanitationTable(s: SanitationStatus)
    ensures SanitationKind(s) == NormalActive <==> s == OnSchedule
    ensures SanitationKind(s) == NormalSuspended <==> s == SanitationNotInEffect
    ensures SanitationKind(s) == SuspendedType <==> s == SanitationSuspended
    ensures SanitationKind(s) == DelayedType <==> s == Delayed
    ensures SanitationKind(s) == PartialType <==> s == NoCompost || s == NoLegacyTrash
    ensures SanitationKind(s) == UnsureType <==> s == SanitationNoInfo
  {
  }

  /** The parking table, by standardised type. */
  lemma ParkingTable(s: ParkingStatus)
    ensures ParkingKind(s) == NormalActive <==> s == InEffect
    ensures ParkingKind(s) == NormalSuspended <==> s == ParkingNotInEffect
    ensures ParkingKind(s) == SuspendedType <==> s == ParkingSuspended
    ensures ParkingKind(s) == UnsureType <==> s == ParkingNoInfo
  {
  }

  /** The standardised type of a status code, from its own service's table. */
  function KindOf(st: StatusType): StandardizedExceptionType
  {
    match st
    case SchoolCode(s) => SchoolKind(s)
    case SanitationCode(s) => SanitationKind(s)
    case ParkingCode(s) => ParkingKind(s)
  }

  /** No table produces RECESS, and only School's REMOTE ONLY produces REMOTE. */
  lemma RecessAndRemote(st: StatusType)
    ensures KindOf(st) != RecessType
    ensures KindOf(st) == RemoteType <==> st == SchoolCode(RemoteOnly)
  {
    match st
    case SchoolCode(s) => SchoolTable(s);
    case SanitationCode(s) => SanitationTable(s);
    case ParkingCode(s) => ParkingTable(s);
  }

  /** "SUSPENDED" is a parking and a sanitation code, each with its own detail, and no school code. */
  lemma SuspendedResolvesPerService()
    ensures Resolve(School, "SUSPENDED") == None
    ensures Resolve(Parking, "SUSPENDED") == Some(Detail(ParkingCode(ParkingSuspended)))
    ensures Resolve(Sanitation, "SUSPENDED") == Some(Detail(SanitationCode(SanitationSuspended)))
    ensures Resolve(Parking, "SUSPENDED") != Resolve(Sanitation, "SUSPENDED")
  {
    SuspendedNoSchool();
    SuspendedParking();
    SuspendedSanitation();
    SuspendedDiffers();
  }

  /** "SUSPENDED" is no school code. */
  lemma SuspendedNoSchool()
    ensures Resolve(School, "SUSPENDED") == None
  {
  }

  /** "SUSPENDED" under parking is parking's SUSPENDED. */
  lemma SuspendedParking()
    ensures Resolve(Parking, "SUSPENDED") == Some(Detail(ParkingCode(ParkingSuspended)))
  {
    ParseRoundTrip(ParkingCode(ParkingSuspended));
  }

  /** "SUSPENDED" under sanitation is sanitation's SUSPENDED. */
  lemma SuspendedSanitation()
    ensures Resolve(Sanitation, "SUSPENDED") == Some(Detail(SanitationCode(SanitationSuspended)))
  {
    ParseRoundTrip(SanitationCode(SanitationSuspended));
  }

  /** Parking and sanitation describe "SUSPENDED" differently. */
  lemma SuspendedDiffers()
    ensures Resolve(Parking, "SUSPENDED") != Resolve(Sanitation, "SUSPENDED")
  {
    SuspendedParking();
    SuspendedSanitation();
    SuspendedDescriptionsDiffer();
  }

  /** The parking and sanitation descriptions of SUSPENDED are different texts. */
  lemma SuspendedDescriptionsDiffer()
    ensures ParkingDescription(ParkingSuspended) != SanitationDescription(SanitationSuspended)
  {
    assert |ParkingDescription(ParkingSuspended)| != |SanitationDescription(SanitationSuspended)|;
  }

  /** "NOT IN EFFECT" is no school code, and parking and sanitation describe it differently. */
  lemma NotInEffectResolvesPerService()
    ensures Resolve(School, "NOT IN EFFECT") == None
    ensures Resolve(Parking, "NOT IN EFFECT") != Resolve(Sanitation, "NOT IN EFFECT")
  {
    NotInEffectNoSchool();
    NotInEffectDiffers();
  }

  /** "NOT IN EFFECT" is no school code. */
  lemma NotInEffectNoSchool()
    ensures Resolve(School, "NOT IN EFFECT") == None
  {
  }

  /** Parking and sanitation describe "NOT IN EFFECT" differently. */
  lemma NotInEffectDiffers()
    ensures Resolve(Parking, "NOT IN EFFECT") != Resolve(Sanitation, "NOT IN EFFECT")
  {
    NotInEffectParking();
    NotInEffectSanitation();
    NotInEffectDescriptionsDiffer();
  }

  /** "NOT IN EFFECT" under parking is parking's NOT IN EFFECT. */
  lemma NotInEffectParking()
    ensures Resolve(Parking, "NOT IN EFFECT") == Some(Detail(ParkingCode(ParkingNotInEffect)))
  {
    ParseRoundTrip(ParkingCode(ParkingNotInEffect));
  }

  /** "NOT IN EFFECT" under sanitation is sanitation's NOT IN EFFECT. */
  lemma NotInEffectSanitation()
    ensures Resolve(Sanitation, "NOT IN EFFECT") == Some(Detail(SanitationCode(SanitationNotInEffect)))
  {
    ParseRoundTrip(SanitationCode(SanitationNotInEffect));
  }

  /** The parking and sanitation descriptions of NOT IN EFFECT are different texts. */
  lemma NotInEffectDescriptionsDiffer()
    ensures ParkingDescription(ParkingNotInEffect) != SanitationDescription(SanitationNotInEffect)
  {
    assert |ParkingDescription(ParkingNotInEffect)| != |SanitationDescription(SanitationNotInEffect)|;
  }

  /** "NO INFORMATION" reads the same for schools and parking. */
  lemma NoInformationSameForSchoolAndParking()
    ensures Resolve(Parking, "NO INFORMATION") == Resolve(School, "NO INFORMATION")
  {
    ParseRoundTrip(ParkingCode(ParkingNoInfo));
    ParseRoundTrip(SchoolCode(SchoolNoInfo));
  }

  /** "NO INFORMATION" reads differently for sanitation ("To Be Determined"). */
  lemma NoInformationDiffersForSanitation()
    ensures Resolve(Parking, "NO INFORMATION") != Resolve(Sanitation, "NO INFORMATION")
  {
    ParseRoundTrip(ParkingCode(ParkingNoInfo));
    ParseRoundTrip(SanitationCode(SanitationNoInfo));
  }

  /**
   * The `name` property of a service class. No part of the calendar loop reads
   * it: the entries take their service name from a parameter instead.
   */
  function ServiceName(t: ServiceType): string
  {
    match t
    case Parking => "Parking"
    case School => "School"
    case Sanitation => "Sanitation"
  }

  /**
   * The `exception_name` property of a service class: the term for a day on
   * which the service is suspended. No part of the calendar loop reads it.
   */
  function ExceptionName(t: ServiceType): string
  {
    match t
    case Parking => "Rule Suspension"
    case School => "Closure"
    case Sanitation => "Collection Suspension"
  }

  /** The display names and exception terms tell the services apart. */
  lemma ServiceNamesDistinct(a: ServiceType, b: ServiceType)
    requires a != b
    ensures ServiceName(a) != ServiceName(b)
    ensures ExceptionName(a) != ExceptionName(b)
  {
    assert ServiceName(a)[0] != ServiceName(b)[0] || ServiceName(a)[1] != ServiceName(b)[1];
    assert ExceptionName(a)[0] != ExceptionName(b)[0] || ExceptionName(a)[1] != ExceptionName(b)[1];
  }
}
