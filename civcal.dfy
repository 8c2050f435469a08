/**
 * The `CivCalAPI` pipeline of src/civcalnyc/civcalapi.py: statuses and services
 * are looked up in two literal tables, an exception is flagged by the table's
 * `is_exception` column, the normalised calendar keeps the response's date
 * order, and the next-exceptions scan walks that order, checking every date
 * against the first one.
 */
module CivCal {
  import opened Wrappers
  import opened Wire
  import opened Dicts
  import Util

  /** `CalendarTypes`. */
  datatype CalendarType = ByDate | DaysAhead | NextExceptions

  /** The default `calendars` of `get_calendar`: all three types, in enum order. */
  const DefaultCalendars: seq<CalendarType> := [ByDate, DaysAhead, NextExceptions]

  /** `Status`: the calendar item status codes. */
  datatype Status = InEffect | OnSchedule | Open | PartlyOpen | NotInSession | Suspended | Closed

  /** `ServiceType`: the services the calendar reports. */
  datatype Service = Parking | School | Trash

  /** The enum values of `Status`. */
  function StatusNumber(s: Status): (n: int)
    ensures 1 <= n <= 7
  {
    match s
    case InEffect => 1
    case OnSchedule => 2
    case Open => 3
    case PartlyOpen => 4
    case NotInSession => 5
    case Suspended => 6
    case Closed => 7
  }

  /** The enum values of `ServiceType`. */
  function ServiceNumber(s: Service): (n: int)
    ensures 1 <= n <= 3
  {
    match s
    case Parking => 1
    case School => 2
    case Trash => 3
  }

  /** The enum values tell the members apart. */
  lemma NumbersInjective(a: Status, b: Status, x: Service, y: Service)
    ensures StatusNumber(a) == StatusNumber(b) ==> a == b
    ensures ServiceNumber(x) == ServiceNumber(y) ==> x == y
  {
  }

  /** One entry of `KNOWN_STATUSES`: the raw status and its record. */
  datatype StatusRow = StatusRow(raw: string, name: string, isException: bool, id: Status)

  const InEffectRow := StatusRow("IN EFFECT", "In Effect", false, InEffect)
  const OnScheduleRow := StatusRow("ON SCHEDULE", "On Schedule", false, OnSchedule)
  const OpenRow := StatusRow("OPEN", "Open", false, Open)
  const PartlyOpenRow := StatusRow("PARTLY OPEN", "Partly Open", true, PartlyOpen)
  const NotInSessionRow := StatusRow("NOT IN SESSION", "Not In Session", false, NotInSession)
  const NotInEffectRow := StatusRow("NOT IN EFFECT", "Not In Effect", false, NotInSession)
  const SuspendedRow := StatusRow("SUSPENDED", "Suspended", true, Suspended)
  const ClosedRow := StatusRow("CLOSED", "Closed", true, Closed)

  /** `KNOWN_STATUSES`, in the order of its literal. */
  const KnownStatuses: seq<StatusRow> :=
    [InEffectRow, OnScheduleRow, OpenRow, PartlyOpenRow, NotInSessionRow, NotInEffectRow, SuspendedRow, ClosedRow]

  /** One entry of `KNOWN_SERVICES`: the raw type and its record. */
  datatype ServiceRow = ServiceRow(raw: string, name: string, id: Service, exceptionName: string)

  const ParkingRow := ServiceRow("Alternate Side Parking", "Alternate Side Parking", Parking, "Rule Suspension")
  const TrashRow := ServiceRow("Collections", "Garbage and Recycling", Trash, "Collection Change")
  const SchoolRow := ServiceRow("Schools", "Schools", School, "Closure")

  /** `KNOWN_SERVICES`, in the order of its literal. */
  const KnownServices: seq<ServiceRow> := [ParkingRow, TrashRow, SchoolRow]

  /** `KNOWN_STATUSES[raw]`: the record stored under the key `raw`, if any (see `FindStatusAgrees`). */
  function FindStatus(raw: string): Option<StatusRow>
  {
    if raw == "IN EFFECT" then Some(InEffectRow)
    else if raw == "ON SCHEDULE" then Some(OnScheduleRow)
    else if raw == "OPEN" then Some(OpenRow)
    else if raw == "PARTLY OPEN" then Some(PartlyOpenRow)
    else if raw == "NOT IN SESSION" then Some(NotInSessionRow)
    else if raw == "NOT IN EFFECT" then Some(NotInEffectRow)
    else if raw == "SUSPENDED" then Some(SuspendedRow)
    else if raw == "CLOSED" then Some(ClosedRow)
    else None
  }

  /** `KNOWN_SERVICES[raw]`: the record stored under the key `raw`, if any (see `FindServiceAgrees`). */
  function FindService(raw: string): Option<ServiceRow>
  {
    if raw == "Alternate Side Parking" then Some(ParkingRow)
    else if raw == "Collections" then Some(TrashRow)
    else if raw == "Schools" then Some(SchoolRow)
    else None
  }

  /** The lookup finds a row of the table exactly when some row has the key `raw`, and then that row. */
  lemma FindStatusAgrees(raw: string)
    ensures FindStatus(raw).Some? ==> FindStatus(raw).value in KnownStatuses && FindStatus(raw).value.raw == raw
    ensures FindStatus(raw).None? <==> forall i :: 0 <= i < |KnownStatuses| ==> KnownStatuses[i].raw != raw
  {
  }

  /** The lookup finds a row of the table exactly when some row has the key `raw`, and then that row. */
  lemma FindServiceAgrees(raw: string)
    ensures FindService(raw).Some? ==> FindService(raw).value in KnownServices && FindService(raw).value.raw == raw
    ensures FindService(raw).None? <==> forall i :: 0 <= i < |KnownServices| ==> KnownServices[i].raw != raw
  {
  }

  /** The keys of both tables are distinct, as the keys of a dict are. */
  lemma KnownKeysDistinct()
    ensures forall i, j :: 0 <= i < j < |KnownStatuses| ==> KnownStatuses[i].raw != KnownStatuses[j].raw
    ensures forall i, j :: 0 <= i < j < |KnownServices| ==> KnownServices[i].raw != KnownServices[j].raw
  {
  }

  /** The record `status_by_id` keeps per status. */
  datatype StatusName = StatusName(name: string, isException: bool)

  /** The record `service_by_id` keeps per service. */
  datatype ServiceName = ServiceName(name: string, exceptionName: string)

  /**
   * `status_by_id` after the constructor's loop over `rows`: the last row for
   * an id wins.
   */
  function StatusIndex(rows: seq<StatusRow>): map<Status, StatusName>
  {
    if |rows| == 0 then map[]
    else
      var row := rows[|rows| - 1];
      StatusIndex(rows[..|rows| - 1])[row.id := StatusName(row.name, row.isException)]
  }

  /**
   * `service_by_id` after the constructor's loop over `rows`: the last row for
   * an id wins.
   */
  function ServiceIndex(rows: seq<ServiceRow>): map<Service, ServiceName>
  {
    if |rows| == 0 then map[]
    else
      var row := rows[|rows| - 1];
      ServiceIndex(rows[..|rows| - 1])[row.id := ServiceName(row.name, row.exceptionName)]
  }

  /** One more row of the constructor's loop over the statuses. */
  lemma StatusIndexStep(rows: seq<StatusRow>, n: nat)
    requires n < |rows|
    ensures StatusIndex(rows[..n + 1]) == StatusIndex(rows[..n])[rows[n].id := StatusName(rows[n].name, rows[n].isException)]
  {
    assert rows[..n + 1][..n] == rows[..n];
  }

  /** One more row of the constructor's loop over the services. */
  lemma ServiceIndexStep(rows: seq<ServiceRow>, n: nat)
    requires n < |rows|
    ensures ServiceIndex(rows[..n + 1]) == ServiceIndex(rows[..n])[rows[n].id := ServiceName(rows[n].name, rows[n].exceptionName)]
  {
    assert rows[..n + 1][..n] == rows[..n];
  }

  /** The `status_by_id` the constructor builds. */
  lemma KnownStatusIndex()
    ensures StatusIndex(KnownStatuses) == map[
              InEffect := StatusName("In Effect", false),
              OnSchedule := StatusName("On Schedule", false),
              Open := StatusName("Open", false),
              PartlyOpen := StatusName("Partly Open", true),
              NotInSession := StatusName("Not In Effect", false),
              Suspended := StatusName("Suspended", true),
              Closed := StatusName("Closed", true)]
  {
    var rows := KnownStatuses;
    assert rows[..0] == [];
    StatusIndexStep(rows, 0);
    StatusIndexStep(rows, 1);
    StatusIndexStep(rows, 2);
    StatusIndexStep(rows, 3);
    StatusIndexStep(rows, 4);
    StatusIndexStep(rows, 5);
    StatusIndexStep(rows, 6);
    StatusIndexStep(rows, 7);
    assert rows[..8] == rows;
  }

  /** The `service_by_id` the constructor builds. */
  lemma KnownServiceIndex()
    ensures ServiceIndex(KnownServices) == map[
              Parking := ServiceName("Alternate Side Parking", "Rule Suspension"),
              Trash := ServiceName("Garbage and Recycling", "Collection Change"),
              School := ServiceName("Schools", "Closure")]
  {
    var rows := KnownServices;
    var m := map[];
    assert StatusIndex([]) == map[];
    m := m[Parking := ServiceName("Alternate Side Parking", "Rule Suspension")];
    assert rows[..1][..0] == [];
    assert ServiceIndex(rows[..1]) == m;
    m := m[Trash := ServiceName("Garbage and Recycling", "Collection Change")];
    assert rows[..2][..1] == rows[..1];
    assert ServiceIndex(rows[..2]) == m;
    m := m[School := ServiceName("Schools", "Closure")];
    assert rows[..3][..2] == rows[..2];
    assert ServiceIndex(rows[..3]) == m;
    assert rows[..3] == rows;
  }

  /** `status_by_id[id]`, written out per status: every status has a record there, and this is it. */
  function StatusNameOf(id: Status): (r: StatusName)
    ensures id in StatusIndex(KnownStatuses) && r == StatusIndex(KnownStatuses)[id]
  {
    KnownStatusIndex();
    match id
    case InEffect => StatusName("In Effect", false)
    case OnSchedule => StatusName("On Schedule", false)
    case Open => StatusName("Open", false)
    case PartlyOpen => StatusName("Partly Open", true)
    case NotInSession => StatusName("Not In Effect", false)
    case Suspended => StatusName("Suspended", true)
    case Closed => StatusName("Closed", true)
  }

  /** `service_by_id[id]`, written out per service: every service has a record there, and this is it. */
  function ServiceNameOf(id: Service): (r: ServiceName)
    ensures id in ServiceIndex(KnownServices) && r == ServiceIndex(KnownServices)[id]
  {
    KnownServiceIndex();
    match id
    case Parking => ServiceName("Alternate Side Parking", "Rule Suspension")
    case Trash => ServiceName("Garbage and Recycling", "Collection Change")
    case School => ServiceName("Schools", "Closure")
  }

  /** One service's entry in a day of the normalised calendar. */
  datatype DayEntry = DayEntry(
    serviceName: string,
    statusId: Status,
    statusName: string,
    description: string,
    exceptionName: Option<string>)

  /** One day of the normalised calendar, keyed by service id. */
  type Day = map<Service, DayEntry>

  /** The normalised calendar: dates in the order the response first gave them. */
  type Normalized = PyDict<Date, Day>

  /** The ways the pipeline fails. */
  datatype ApiError =
    | UnexpectedEntry                                  // any failure while reading an item
    | MalformedDate(raw: string)                       // ValueError from strptime on today_id
    | MissingDate(missingDate: Date)                   // KeyError in days-ahead: no such date
    | MissingService(day: Date, service: Service)      // KeyError in days-ahead: no such service
    | DateOrder                                        // DateOrderException in next-exceptions

  /** The `exception_name` of an entry: scrubbed on request, absent when the item has none. */
  function ExceptionNameOf(scrub: bool, exceptionName: Option<string>): (r: Option<string>)
    ensures r.None? <==> exceptionName.None?
    ensures !scrub ==> r == exceptionName
    ensures scrub && exceptionName.Some? ==> r == Some(Util.Scrub(exceptionName.value))
  {
    if scrub then Util.Scrubber(exceptionName) else exceptionName
  }

  /**
   * The inner loop's body for one item: its service id and entry, or
   * `UnexpectedEntry` when the type or status is missing or unknown or the
   * details are missing.
   */
  function ConvertItem(scrub: bool, item: RawItem): (r: Result<(Service, DayEntry), ApiError>)
    ensures r.Err? ==> r.error == UnexpectedEntry
    ensures r.Ok? <==>
              && item.itemType.Some? && FindService(item.itemType.value).Some?
              && item.status.Some? && FindStatus(item.status.value).Some?
              && item.details.Some?
    ensures r.Ok? ==>
              var svc := FindService(item.itemType.value).value;
              var st := FindStatus(item.status.value).value;
              && r.value.0 == svc.id
              && r.value.1 == DayEntry(ServiceNameOf(svc.id).name, st.id, StatusNameOf(st.id).name,
                                      item.details.value, ExceptionNameOf(scrub, item.exceptionName))
  {
    if item.itemType.None? || item.status.None? || item.details.None? then Err(UnexpectedEntry)
    else
      match FindService(item.itemType.value)
      case None => Err(UnexpectedEntry)
      case Some(svc) =>
        match FindStatus(item.status.value)
        case None => Err(UnexpectedEntry)
        case Some(st) =>
          Ok((svc.id, DayEntry(ServiceNameOf(svc.id).name, st.id, StatusNameOf(st.id).name, item.details.value,
                               ExceptionNameOf(scrub, item.exceptionName))))
  }

  /** `day_dict` after the inner loop has run over `items`. */
  function DayEntries(scrub: bool, items: seq<RawItem>): Result<Day, ApiError>
  {
    if |items| == 0 then Ok(map[])
    else
      match DayEntries(scrub, items[..|items| - 1])
      case Err(e) => Err(e)
      case Ok(day) =>
        match ConvertItem(scrub, items[|items| - 1])
        case Err(e) => Err(e)
        case Ok(p) => Ok(day[p.0 := p.1])
  }

  /** `resp_dict` after the outer loop has run over `days`. */
  function NormalizeSpec(parse: string -> Option<Date>, scrub: bool, days: seq<RawDay>): (r: Result<Normalized, ApiError>)
    ensures r.Ok? ==> Dicts.Valid(r.value)
  {
    if |days| == 0 then Ok(Empty())
    else
      match NormalizeSpec(parse, scrub, days[..|days| - 1])
      case Err(e) => Err(e)
      case Ok(resp) =>
        var day := days[|days| - 1];
        match parse(day.todayId)
        case None => Err(MalformedDate(day.todayId))
        case Some(date) =>
          match DayEntries(scrub, day.items)
          case Err(e) => Err(e)
          case Ok(entries) => Ok(Put(resp, date, entries))
  }

  /** Once an item has failed, the rest of the day cannot undo it. */
  lemma {:induction false} DayEntriesErrPersists(scrub: bool, items: seq<RawItem>, k: nat)
    requires k <= |items| && DayEntries(scrub, items[..k]).Err?
    ensures DayEntries(scrub, items) == DayEntries(scrub, items[..k])
    decreases |items| - k
  {
    if k < |items| {
      assert items[..k + 1][..k] == items[..k];
      DayEntriesErrPersists(scrub, items, k + 1);
    } else {
      assert items[..k] == items;
    }
  }

  /** Once a day has failed, the later days cannot undo it. */
  lemma {:induction false} NormalizeErrPersists(parse: string -> Option<Date>, scrub: bool, days: seq<RawDay>, k: nat)
    requires k <= |days| && NormalizeSpec(parse, scrub, days[..k]).Err?
    ensures NormalizeSpec(parse, scrub, days) == NormalizeSpec(parse, scrub, days[..k])
    decreases |days| - k
  {
    if k < |days| {
      assert days[..k + 1][..k] == days[..k];
      NormalizeErrPersists(parse, scrub, days, k + 1);
    } else {
      assert days[..k] == days;
    }
  }

  /** One more item: `day_dict[service_id] = {...}`, or the item's error. */
  lemma DayEntriesStep(scrub: bool, items: seq<RawItem>, j: nat, day: Day)
    requires j < |items| && DayEntries(scrub, items[..j]) == Ok(day)
    ensures ConvertItem(scrub, items[j]).Err? ==> DayEntries(scrub, items[..j + 1]) == Err(UnexpectedEntry)
    ensures ConvertItem(scrub, items[j]).Ok? ==>
              var p := ConvertItem(scrub, items[j]).value;
              DayEntries(scrub, items[..j + 1]) == Ok(day[p.0 := p.1])
  {
    assert items[..j + 1][..j] == items[..j];
  }

  /** Each service row's record is the one `service_by_id` keeps for its id. */
  lemma ServiceRowsAgree()
    ensures forall row :: row in KnownServices ==> ServiceNameOf(row.id) == ServiceName(row.name, row.exceptionName)
  {
    forall row | row in KnownServices
      ensures ServiceNameOf(row.id) == ServiceName(row.name, row.exceptionName)
    {
      var i :| 0 <= i < |KnownServices| && KnownServices[i] == row;
      assert i == 0 || i == 1 || i == 2;
    }
  }

  /**
   * Each status row's `is_exception` is the one `status_by_id` keeps for its id,
   * and so is its name, except for "NOT IN SESSION": the later "NOT IN EFFECT"
   * row has the same id and overwrote it.
   */
  lemma StatusRowsAgree()
    ensures forall row :: row in KnownStatuses ==> StatusNameOf(row.id).isException == row.isException
    ensures forall row :: row in KnownStatuses ==> (StatusNameOf(row.id).name == row.name <==> row.raw != "NOT IN SESSION")
  {
    forall row | row in KnownStatuses
      ensures StatusNameOf(row.id).isException == row.isException
      ensures StatusNameOf(row.id).name == row.name <==> row.raw != "NOT IN SESSION"
    {
      var i :| 0 <= i < |KnownStatuses| && KnownStatuses[i] == row;
      StatusRowAgrees(i);
    }
  }

  /** `StatusRowsAgree` for the row at index `i`. */
  lemma StatusRowAgrees(i: nat)
    requires i < |KnownStatuses|
    ensures StatusNameOf(KnownStatuses[i].id).isException == KnownStatuses[i].isException
    ensures StatusNameOf(KnownStatuses[i].id).name == KnownStatuses[i].name <==> KnownStatuses[i].raw != "NOT IN SESSION"
  {
    var row := KnownStatuses[i];
    if i == 4 {
      assert row.raw == "NOT IN SESSION" && row.name == "Not In Session";
      assert row.name != "Not In Effect" by { assert row.name[7] != "Not In Effect"[7]; }
    } else {
      assert row.raw != "NOT IN SESSION" by {
        assert i < 4 || i > 4;
        assert row.raw == "IN EFFECT" || row.raw == "ON SCHEDULE" || row.raw == "OPEN" || row.raw == "PARTLY OPEN" || row.raw == "NOT IN EFFECT" || row.raw == "SUSPENDED" || row.raw == "CLOSED";
      }
    }
  }

  /** `is_exception` holds for exactly three raw statuses: "PARTLY OPEN", "SUSPENDED" and "CLOSED". */
  lemma ExceptionStatuses(raw: string)
    ensures (FindStatus(raw).Some? && FindStatus(raw).value.isException) <==>
            raw == "PARTLY OPEN" || raw == "SUSPENDED" || raw == "CLOSED"
  {
  }

  /**
   * A converted entry carries its service's table name, and its status's name
   * from `status_by_id`: the row's own name, except that "NOT IN SESSION" is
   * named "Not In Effect".
   */
  lemma ConvertItemNames(scrub: bool, item: RawItem)
    requires ConvertItem(scrub, item).Ok?
    ensures var svc := FindService(item.itemType.value).value;
            ConvertItem(scrub, item).value.1.serviceName == svc.name
    ensures var st := FindStatus(item.status.value).value;
            var entry := ConvertItem(scrub, item).value.1;
            (entry.statusName == st.name <==> item.status.value != "NOT IN SESSION") &&
            StatusNameOf(entry.statusId).isException == st.isException
  {
    ServiceRowsAgree();
    StatusRowsAgree();
  }

  /** The item's service, when its "type" is present and known. */
  function ItemService(item: RawItem): Option<Service>
  {
    if item.itemType.Some? && FindService(item.itemType.value).Some?
    then Some(FindService(item.itemType.value).value.id)
    else None
  }

  /** The item passes every lookup of the inner loop body. */
  predicate ItemConverts(item: RawItem)
  {
    ConvertItem(false, item).Ok?
  }

  /** Whether an item converts does not depend on scrubbing. */
  lemma ConvertItemOk(scrub: bool, item: RawItem)
    ensures ConvertItem(scrub, item).Ok? <==> ItemConverts(item)
  {
  }

  /** The index of the last item of service `t`, or -1. */
  function LastItemOf(items: seq<RawItem>, t: Service): (k: int)
    ensures -1 <= k < |items|
    ensures k >= 0 ==> ItemService(items[k]) == Some(t)
    ensures forall m :: k < m < |items| ==> ItemService(items[m]) != Some(t)
  {
    if |items| == 0 then -1
    else if ItemService(items[|items| - 1]) == Some(t) then |items| - 1
    else LastItemOf(items[..|items| - 1], t)
  }

  /** The index of the last day whose date parses to `d`, or -1. */
  function LastDayOf(parse: string -> Option<Date>, days: seq<RawDay>, d: Date): (k: int)
    ensures -1 <= k < |days|
    ensures k >= 0 ==> parse(days[k].todayId) == Some(d)
    ensures forall m :: k < m < |days| ==> parse(days[m].todayId) != Some(d)
  {
    if |days| == 0 then -1
    else if parse(days[|days| - 1].todayId) == Some(d) then |days| - 1
    else LastDayOf(parse, days[..|days| - 1], d)
  }

  /** The index of the first day whose date parses to `d`, or -1. */
  function FirstDayOf(parse: string -> Option<Date>, days: seq<RawDay>, d: Date): (k: int)
    ensures -1 <= k < |days|
    ensures k >= 0 ==> parse(days[k].todayId) == Some(d)
    ensures forall m :: 0 <= m < |days| && (k < 0 || m < k) ==> parse(days[m].todayId) != Some(d)
  {
    if |days| == 0 then -1
    else
      var k := FirstDayOf(parse, days[..|days| - 1], d);
      if k >= 0 then k
      else if parse(days[|days| - 1].todayId) == Some(d) then |days| - 1
      else -1
  }

  /** A day's items fold without error exactly when every item converts. */
  lemma {:induction false} DayEntriesOkIff(scrub: bool, items: seq<RawItem>)
    ensures DayEntries(scrub, items).Ok? <==> forall m :: 0 <= m < |items| ==> ItemConverts(items[m])
    decreases |items|
  {
    if |items| > 0 {
      var init, last := items[..|items| - 1], items[|items| - 1];
      DayEntriesOkIff(scrub, init);
      ConvertItemOk(scrub, last);
      assert DayEntries(scrub, items).Ok? <==> DayEntries(scrub, init).Ok? && ItemConverts(last);
      if forall m :: 0 <= m < |items| ==> ItemConverts(items[m]) {
        forall m | 0 <= m < |init| ensures ItemConverts(init[m]) {
          assert init[m] == items[m];
        }
      }
      if DayEntries(scrub, items).Ok? {
        forall m | 0 <= m < |items| ensures ItemConverts(items[m]) {
          if m < |init| {
            assert init[m] == items[m];
          }
        }
      }
    }
  }

  /** The error of a day is `UnexpectedEntry`, raised by its first item that does not convert. */
  lemma DayEntriesFirstError(scrub: bool, items: seq<RawItem>, m: nat)
    requires m < |items| && !ItemConverts(items[m])
    requires forall m' :: 0 <= m' < m ==> ItemConverts(items[m'])
    ensures DayEntries(scrub, items) == Err(UnexpectedEntry)
  {
    DayEntriesOkIff(scrub, items[..m]);
    DayEntriesStep(scrub, items, m, DayEntries(scrub, items[..m]).value);
    DayEntriesErrPersists(scrub, items, m + 1);
  }

  /**
   * When every item converts, the day holds one entry per service that occurs,
   * made from the last item of that service: later items overwrite earlier ones.
   */
  lemma {:induction false} DayEntriesContent(scrub: bool, items: seq<RawItem>)
    requires forall m :: 0 <= m < |items| ==> ItemConverts(items[m])
    ensures DayEntries(scrub, items).Ok?
    ensures forall t :: t in DayEntries(scrub, items).value <==> LastItemOf(items, t) >= 0
    ensures forall t :: t in DayEntries(scrub, items).value ==>
              ConvertItem(scrub, items[LastItemOf(items, t)]) == Ok((t, DayEntries(scrub, items).value[t]))
    decreases |items|
  {
    DayEntriesOkIff(scrub, items);
    if |items| > 0 {
      var init := items[..|items| - 1];
      assert forall m :: 0 <= m < |init| ==> init[m] == items[m];
      DayEntriesContent(scrub, init);
    }
  }

  /** The day's date parses and all its items convert. */
  ghost predicate DayConverts(parse: string -> Option<Date>, day: RawDay)
  {
    parse(day.todayId).Some? && forall m :: 0 <= m < |day.items| ==> ItemConverts(day.items[m])
  }

  /** One more day of the outer loop: `resp_dict[cur_date] = day_dict`, or the day's error. */
  lemma NormalizeStep(parse: string -> Option<Date>, scrub: bool, days: seq<RawDay>)
    requires |days| > 0
    ensures var init, last := days[..|days| - 1], days[|days| - 1];
            NormalizeSpec(parse, scrub, days).Ok? <==>
              NormalizeSpec(parse, scrub, init).Ok? && parse(last.todayId).Some? && DayEntries(scrub, last.items).Ok?
    ensures var init, last := days[..|days| - 1], days[|days| - 1];
            NormalizeSpec(parse, scrub, days).Ok? ==>
              NormalizeSpec(parse, scrub, days).value ==
              Put(NormalizeSpec(parse, scrub, init).value, parse(last.todayId).value, DayEntries(scrub, last.items).value)
  {
  }

  /** Normalisation succeeds exactly when every date parses and every item converts. */
  lemma {:induction false} NormalizeOkIff(parse: string -> Option<Date>, scrub: bool, days: seq<RawDay>)
    ensures NormalizeSpec(parse, scrub, days).Ok? <==> forall k :: 0 <= k < |days| ==> DayConverts(parse, days[k])
    decreases |days|
  {
    if |days| > 0 {
      var init, last := days[..|days| - 1], days[|days| - 1];
      NormalizeOkIff(parse, scrub, init);
      DayEntriesOkIff(scrub, last.items);
      NormalizeStep(parse, scrub, days);
      var ok := NormalizeSpec(parse, scrub, days).Ok?;
      assert ok <==> NormalizeSpec(parse, scrub, init).Ok? && DayConverts(parse, last);
      if forall k :: 0 <= k < |days| ==> DayConverts(parse, days[k]) {
        forall k | 0 <= k < |init| ensures DayConverts(parse, init[k]) {
          assert init[k] == days[k];
        }
      }
      if ok {
        forall k | 0 <= k < |days| ensures DayConverts(parse, days[k]) {
          if k < |init| {
            assert init[k] == days[k];
          } else {
            assert k == |days| - 1;
          }
        }
      }
    }
  }

  /** The error of normalisation is the error of the first day that fails, taken on its own. */
  lemma NormalizeFirstError(parse: string -> Option<Date>, scrub: bool, days: seq<RawDay>, k: nat)
    requires k < |days| && NormalizeSpec(parse, scrub, days[..k]).Ok?
    requires NormalizeSpec(parse, scrub, [days[k]]).Err?
    ensures NormalizeSpec(parse, scrub, days) == NormalizeSpec(parse, scrub, [days[k]])
  {
    assert days[..k + 1][..k] == days[..k];
    assert [days[k]][..0] == [];
    NormalizeErrPersists(parse, scrub, days, k + 1);
  }

  /**
   * When normalisation succeeds, its keys are the parsed dates and each date
   * holds the entries of the last day with that date: later days overwrite earlier ones.
   */
  lemma {:induction false} NormalizeContent(parse: string -> Option<Date>, scrub: bool, days: seq<RawDay>)
    requires NormalizeSpec(parse, scrub, days).Ok?
    ensures forall d :: d in NormalizeSpec(parse, scrub, days).value.values <==> LastDayOf(parse, days, d) >= 0
    ensures forall d :: d in NormalizeSpec(parse, scrub, days).value.values ==>
              DayEntries(scrub, days[LastDayOf(parse, days, d)].items) == Ok(NormalizeSpec(parse, scrub, days).value.values[d])
    decreases |days|
  {
    if |days| > 0 {
      var init := days[..|days| - 1];
      assert forall k :: 0 <= k < |init| ==> init[k] == days[k];
      NormalizeStep(parse, scrub, days);
      NormalizeContent(parse, scrub, init);
    }
  }

  /** One more day for `FirstDayOf`: a date seen before keeps its first day, a new one gets the last. */
  lemma FirstDayStep(parse: string -> Option<Date>, days: seq<RawDay>, x: Date)
    requires |days| > 0
    ensures var init := days[..|days| - 1];
            FirstDayOf(parse, init, x) >= 0 ==> FirstDayOf(parse, days, x) == FirstDayOf(parse, init, x)
    ensures var init := days[..|days| - 1];
            FirstDayOf(parse, init, x) < 0 ==>
              FirstDayOf(parse, days, x) == if parse(days[|days| - 1].todayId) == Some(x) then |days| - 1 else -1
  {
  }

  /**
   * When normalisation succeeds, a date is a key exactly when some day parses
   * to it, and the keys stand in the order of their dates' first days: a date
   * seen again keeps its place.
   */
  lemma {:induction false} NormalizeKeyOrder(parse: string -> Option<Date>, scrub: bool, days: seq<RawDay>)
    requires NormalizeSpec(parse, scrub, days).Ok?
    ensures forall d :: d in NormalizeSpec(parse, scrub, days).value.values <==> FirstDayOf(parse, days, d) >= 0
    ensures var keys := NormalizeSpec(parse, scrub, days).value.keys;
            forall i, j :: 0 <= i < j < |keys| ==> FirstDayOf(parse, days, keys[i]) < FirstDayOf(parse, days, keys[j])
    decreases |days|
  {
    if |days| > 0 {
      var init, last := days[..|days| - 1], days[|days| - 1];
      NormalizeStep(parse, scrub, days);
      NormalizeKeyOrder(parse, scrub, init);
      var cal0 := NormalizeSpec(parse, scrub, init).value;
      var cal := NormalizeSpec(parse, scrub, days).value;
      var d := parse(last.todayId).value;
      assert cal == Put(cal0, d, DayEntries(scrub, last.items).value);
      forall x ensures x in cal.values <==> FirstDayOf(parse, days, x) >= 0 {
        FirstDayStep(parse, days, x);
      }
      forall i, j | 0 <= i < j < |cal.keys|
        ensures FirstDayOf(parse, days, cal.keys[i]) < FirstDayOf(parse, days, cal.keys[j])
      {
        assert cal0.keys[i] in cal0.keys;
        FirstDayStep(parse, days, cal0.keys[i]);
        if j < |cal0.keys| {
          assert cal0.keys[j] in cal0.keys;
          FirstDayStep(parse, days, cal0.keys[j]);
        } else {
          FirstDayStep(parse, days, d);
        }
      }
    }
  }

  /** When normalisation succeeds on some days, the first key is the first day's date. */
  lemma NormalizeFirstKey(parse: string -> Option<Date>, scrub: bool, days: seq<RawDay>)
    requires |days| > 0 && NormalizeSpec(parse, scrub, days).Ok?
    ensures |NormalizeSpec(parse, scrub, days).value.keys| > 0
    ensures parse(days[0].todayId).Some? && NormalizeSpec(parse, scrub, days).value.keys[0] == parse(days[0].todayId).value
  {
    NormalizeOkIff(parse, scrub, days);
    NormalizeKeyOrder(parse, scrub, days);
    var cal := NormalizeSpec(parse, scrub, days).value;
    assert DayConverts(parse, days[0]);
    var d0 := parse(days[0].todayId).value;
    assert FirstDayOf(parse, days, d0) == 0;
    assert d0 in cal.keys;
    var j :| 0 <= j < |cal.keys| && cal.keys[j] == d0;
    assert j == 0;
  }

  /** One entry of the days-ahead view: the date, and its entry for every known service. */
  datatype DayAhead = DayAhead(date: Date, services: Day)

  /** A day holds every service exactly when it holds the three of them. */
  lemma ServicesComplete(day: Day)
    ensures (forall s: Service :: s in day) <==> Parking in day && Trash in day && School in day
  {
    if Parking in day && Trash in day && School in day {
      forall s: Service ensures s in day {
        assert s == Parking || s == Trash || s == School;
      }
    }
  }

  /** The ids of `KNOWN_SERVICES`, in the order of its literal. */
  lemma KnownServiceIds()
    ensures |KnownServices| == 3
    ensures KnownServices[0].id == Parking && KnownServices[1].id == Trash && KnownServices[2].id == School
  {
  }

  /**
   * The KeyError the days-ahead loop raises for date `d`, or None: the date
   * itself first, then the services in the order of `KNOWN_SERVICES`.
   */
  function GapAt(cal: Normalized, d: Date): (g: Option<ApiError>)
    ensures g.None? <==> d in cal.values && forall s: Service :: s in cal.values[d]
    ensures g == Some(MissingDate(d)) <==> d !in cal.values
    ensures g.Some? && d in cal.values ==> g.value.MissingService? && g.value.day == d && g.value.service !in cal.values[d]
    ensures g == Some(MissingService(d, Trash)) ==> Parking in cal.values[d]
    ensures g == Some(MissingService(d, School)) ==> Parking in cal.values[d] && Trash in cal.values[d]
  {
    if d !in cal.values then Some(MissingDate(d))
    else
      ServicesComplete(cal.values[d]);
      if Parking !in cal.values[d] then Some(MissingService(d, Parking))
      else if Trash !in cal.values[d] then Some(MissingService(d, Trash))
      else if School !in cal.values[d] then Some(MissingService(d, School))
      else None
  }

  /** The days-ahead loop after the offsets -1 up to `i - 1`: the entries so far, or the first KeyError. */
  function DaysAheadFrom(cal: Normalized, today: Date, i: int): Result<map<int, DayAhead>, ApiError>
    requires -1 <= i <= 7
    decreases i + 1
  {
    if i == -1 then Ok(map[])
    else
      match DaysAheadFrom(cal, today, i - 1)
      case Err(e) => Err(e)
      case Ok(m) =>
        var d := Util.DateMod(i - 1, today);
        match GapAt(cal, d)
        case Some(e) => Err(e)
        case None => Ok(m[i - 1 := DayAhead(d, cal.values[d])])
  }

  /** `m` is the days-ahead view of `cal`: offsets -1 to 6, each with its date's services. */
  ghost predicate IsDaysAhead(cal: Normalized, today: Date, m: map<int, DayAhead>)
  {
    (forall j :: j in m <==> -1 <= j < 7) &&
    (forall d :: today - 1 <= d < today + 7 ==> d in cal.values) &&
    forall j :: -1 <= j < 7 ==> m[j] == DayAhead(today + j, cal.values[today + j])
  }

  /** The days-ahead loop over the offsets -1 up to `i - 1` meets `PrefixFacts`. */
  lemma {:induction false} DaysAheadFromSpec(cal: Normalized, today: Date, i: int)
    requires -1 <= i <= 7
    ensures PrefixFacts(cal, today, i, DaysAheadFrom(cal, today, i))
    decreases i + 1
  {
    if i > -1 {
      DaysAheadFromSpec(cal, today, i - 1);
      assert Util.DateMod(i - 1, today) == today + i - 1;
      PrefixStep(cal, today, i, DaysAheadFrom(cal, today, i - 1), DaysAheadFrom(cal, today, i));
    }
  }

  /**
   * `r` is a correct result of the days-ahead loop over the offsets -1 up to
   * `i - 1`: it fails exactly when one of their dates has a gap, with the gap
   * of the earliest such date; otherwise it holds each offset's date and services.
   */
  ghost predicate PrefixFacts(cal: Normalized, today: Date, i: int, r: Result<map<int, DayAhead>, ApiError>)
  {
    && (r.Ok? <==> forall d :: today - 1 <= d < today + i ==> GapAt(cal, d).None?)
    && (r.Err? ==>
          exists d :: today - 1 <= d < today + i && GapAt(cal, d) == Some(r.error) &&
                      forall d' :: today - 1 <= d' < d ==> GapAt(cal, d').None?)
    && (r.Ok? ==>
          (forall j :: j in r.value <==> -1 <= j < i) &&
          (forall d :: today - 1 <= d < today + i ==> d in cal.values) &&
          forall j :: -1 <= j < i ==> r.value[j] == DayAhead(today + j, cal.values[today + j]))
  }

  /**
   * One more offset keeps `PrefixFacts`: the loop keeps its earlier error, or
   * fails with the gap of the date `today + i - 1`, or adds that date's entry.
   */
  lemma PrefixStep(cal: Normalized, today: Date, i: int,
                   prev: Result<map<int, DayAhead>, ApiError>, r: Result<map<int, DayAhead>, ApiError>)
    requires 0 <= i <= 7 && PrefixFacts(cal, today, i - 1, prev)
    requires prev.Err? ==> r == prev
    requires prev.Ok? && GapAt(cal, today + i - 1).Some? ==> r == Err(GapAt(cal, today + i - 1).value)
    requires prev.Ok? && GapAt(cal, today + i - 1).None? ==>
               r == Ok(prev.value[i - 1 := DayAhead(today + i - 1, cal.values[today + i - 1])])
    ensures PrefixFacts(cal, today, i, r)
  {
    var d := today + i - 1;
    if prev.Err? {
      var w :| today - 1 <= w < d && GapAt(cal, w) == Some(prev.error) &&
               forall d' :: today - 1 <= d' < w ==> GapAt(cal, d').None?;
      assert today - 1 <= w < today + i && GapAt(cal, w).Some?;
    } else if GapAt(cal, d).Some? {
      assert today - 1 <= d < today + i && GapAt(cal, d) == Some(r.error);
    } else {
      forall d' | today - 1 <= d' < today + i
        ensures GapAt(cal, d').None?
      {
        if d' < d {
          assert today - 1 <= d' < today + (i - 1);
        }
      }
      forall d' | today - 1 <= d' < today + i
        ensures d' in cal.values
      {
        assert GapAt(cal, d').None?;
      }
      forall j | -1 <= j < i
        ensures r.value[j] == DayAhead(today + j, cal.values[today + j])
      {
        if j < i - 1 {
          assert r.value[j] == prev.value[j];
        } else {
          assert today + j == d;
        }
      }
    }
  }

  /**
   * The days-ahead view fails exactly when a date from yesterday to six days
   * ahead is missing or lacks a service, with the KeyError of the earliest such
   * date; otherwise it is the days-ahead view of the calendar.
   */
  lemma DaysAheadSpec(cal: Normalized, today: Date)
    ensures DaysAheadFrom(cal, today, 7).Ok? <==>
              forall d :: today - 1 <= d < today + 7 ==> d in cal.values && forall s: Service :: s in cal.values[d]
    ensures DaysAheadFrom(cal, today, 7).Err? ==>
              exists d :: today - 1 <= d < today + 7 && GapAt(cal, d) == Some(DaysAheadFrom(cal, today, 7).error) &&
                          forall d' :: today - 1 <= d' < d ==> GapAt(cal, d').None?
    ensures DaysAheadFrom(cal, today, 7).Ok? ==> IsDaysAhead(cal, today, DaysAheadFrom(cal, today, 7).value)
  {
    DaysAheadFromSpec(cal, today, 7);
  }

  /** Once an offset has failed, the later offsets cannot undo it. */
  lemma {:induction false} DaysAheadErrPersists(cal: Normalized, today: Date, i: int)
    requires -1 <= i <= 7 && DaysAheadFrom(cal, today, i).Err?
    ensures DaysAheadFrom(cal, today, 7) == DaysAheadFrom(cal, today, i)
    decreases 7 - i
  {
    if i < 7 {
      DaysAheadErrPersists(cal, today, i + 1);
    }
  }

  /** A `next_exceptions` entry: the day's entry with the day's date added. */
  datatype NextException = NextException(entry: DayEntry, date: Date)

  /** `status_by_id[status_id]["is_exception"]` for an entry. */
  predicate IsException(e: DayEntry)
  {
    StatusNameOf(e.statusId).isException
  }

  /**
   * The inner loop of `__build_next_exceptions` over the services `svcs` of a
   * day: each one with an exceptional status and no recorded entry yet is
   * recorded with this day's date.
   */
  function RecordDay(next: map<Service, NextException>, date: Date, day: Day, svcs: set<Service>)
    : (r: map<Service, NextException>)
    ensures forall s :: s in r <==> s in next || (s in svcs && s in day && IsException(day[s]))
    ensures forall s :: s in next ==> r[s] == next[s]
    ensures forall s :: s in r && s !in next ==> s in day && r[s] == NextException(day[s], date)
  {
    map s | s in next.Keys + (set t | t in svcs && t in day && IsException(day[t])) ::
      if s in next then next[s] else NextException(day[s], date)
  }

  /** One more service of the inner loop: it is recorded or skipped, and nothing else changes. */
  lemma RecordDayStep(next: map<Service, NextException>, date: Date, day: Day, done: set<Service>, svc: Service)
    requires svc in day
    ensures var r := RecordDay(next, date, day, done);
            RecordDay(next, date, day, done + {svc}) ==
            if svc in r || !IsException(day[svc]) then r else r[svc := NextException(day[svc], date)]
  {
  }

  /**
   * `__build_next_exceptions` after the first `n` keys of `cal`: `DateOrder`
   * once a key is below the first key, otherwise the entries recorded so far.
   */
  function NextFrom(cal: Normalized, n: nat): Result<map<Service, NextException>, ApiError>
    requires Dicts.Valid(cal) && n <= |cal.keys|
  {
    if n == 0 then Ok(map[])
    else
      match NextFrom(cal, n - 1)
      case Err(e) => Err(e)
      case Ok(next) =>
        var key := cal.keys[n - 1];
        if n - 1 > 0 && key < cal.keys[0] then Err(DateOrder)
        else
          assert key in cal.keys;
          Ok(RecordDay(next, key, cal.values[key], cal.values[key].Keys))
  }

  /** The `j`-th key of `cal` holds an exceptional entry for `s`. */
  ghost predicate Flagged(cal: Normalized, j: int, s: Service)
  {
    0 <= j < |cal.keys| && cal.keys[j] in cal.values && s in cal.values[cal.keys[j]] &&
    IsException(cal.values[cal.keys[j]][s])
  }

  /** The `j`-th key is the first of the first `n` keys flagged for `s`. */
  ghost predicate FirstFlagged(cal: Normalized, n: int, j: int, s: Service)
  {
    j < n && Flagged(cal, j, s) && forall j' :: 0 <= j' < j ==> !Flagged(cal, j', s)
  }

  /** `r` records, for each service flagged at some key, its entry at the first such key. */
  ghost predicate IsNextExceptions(cal: Normalized, n: int, r: map<Service, NextException>)
    requires Dicts.Valid(cal)
  {
    (forall s :: s in r <==> exists j :: 0 <= j < n && Flagged(cal, j, s)) &&
    forall s :: s in r ==> exists j :: FirstFlagged(cal, n, j, s) &&
                                     r[s] == NextException(cal.values[cal.keys[j]][s], cal.keys[j])
  }

  /**
   * Over the first `n` keys, the scan fails exactly when some later key is
   * below the first key, and the failure is `DateOrder`; otherwise it records,
   * per service, the first entry in key order whose status is an exception.
   */
  lemma {:induction false} NextFromSpec(cal: Normalized, n: nat)
    requires Dicts.Valid(cal) && n <= |cal.keys|
    ensures NextFrom(cal, n).Err? <==> exists j :: 0 < j < n && cal.keys[j] < cal.keys[0]
    ensures NextFrom(cal, n).Err? ==> NextFrom(cal, n).error == DateOrder
    ensures NextFrom(cal, n).Ok? ==> IsNextExceptions(cal, n, NextFrom(cal, n).value)
  {
    if n > 0 {
      NextFromSpec(cal, n - 1);
      NextFromStep(cal, n);
      if NextFrom(cal, n - 1).Ok? && NextFrom(cal, n).Ok? {
        RecordSpec(cal, n, NextFrom(cal, n - 1).value);
      }
    }
  }

  /** One more key of the scan: the order check, then the day's exceptions. */
  lemma NextFromStep(cal: Normalized, n: nat)
    requires Dicts.Valid(cal) && 0 < n <= |cal.keys|
    ensures cal.keys[n - 1] in cal.values
    ensures NextFrom(cal, n - 1).Err? ==> NextFrom(cal, n) == NextFrom(cal, n - 1)
    ensures NextFrom(cal, n - 1).Ok? ==>
              if n - 1 > 0 && cal.keys[n - 1] < cal.keys[0] then NextFrom(cal, n) == Err(DateOrder)
              else
                var key := cal.keys[n - 1];
                NextFrom(cal, n) == Ok(RecordDay(NextFrom(cal, n - 1).value, key, cal.values[key], cal.values[key].Keys))
  {
    assert cal.keys[n - 1] in cal.keys;
  }

  /** Recording a further day keeps the first-exception property. */
  lemma RecordSpec(cal: Normalized, n: nat, next: map<Service, NextException>)
    requires Dicts.Valid(cal) && 0 < n <= |cal.keys| && cal.keys[n - 1] in cal.values
    requires IsNextExceptions(cal, n - 1, next)
    ensures var key := cal.keys[n - 1];
            IsNextExceptions(cal, n, RecordDay(next, key, cal.values[key], cal.values[key].Keys))
  {
    var key := cal.keys[n - 1];
    var r := RecordDay(next, key, cal.values[key], cal.values[key].Keys);
    forall s | s in r
      ensures exists j :: FirstFlagged(cal, n, j, s) && r[s] == NextException(cal.values[cal.keys[j]][s], cal.keys[j])
    {
      if s in next {
        var j :| FirstFlagged(cal, n - 1, j, s) && next[s] == NextException(cal.values[cal.keys[j]][s], cal.keys[j]);
        assert FirstFlagged(cal, n, j, s);
      } else {
        assert FirstFlagged(cal, n, n - 1, s);
      }
    }
    forall s | s !in r ensures forall j :: 0 <= j < n ==> !Flagged(cal, j, s) {
      assert !Flagged(cal, n - 1, s);
    }
  }

  /** Once the order check has failed, the later keys cannot undo it. */
  lemma {:induction false} NextErrPersists(cal: Normalized, n: nat)
    requires Dicts.Valid(cal) && n <= |cal.keys| && NextFrom(cal, n).Err?
    ensures NextFrom(cal, |cal.keys|) == NextFrom(cal, n)
    decreases |cal.keys| - n
  {
    if n < |cal.keys| {
      NextErrPersists(cal, n + 1);
    }
  }

  /**
   * Yesterday is not skipped: an exception on the first date, which is
   * yesterday whenever the response starts at the first day fetched, is the
   * one recorded.
   */
  lemma NextExceptionsFirstDate(cal: Normalized, s: Service)
    requires Dicts.Valid(cal) && Flagged(cal, 0, s) && NextFrom(cal, |cal.keys|).Ok?
    ensures var r := NextFrom(cal, |cal.keys|).value;
            s in r && r[s] == NextException(cal.values[cal.keys[0]][s], cal.keys[0])
  {
    NextFromSpec(cal, |cal.keys|);
    FirstKeyRecorded(cal, |cal.keys|, NextFrom(cal, |cal.keys|).value, s);
  }

  /** `IsNextExceptions` read at the first key. */
  lemma FirstKeyRecorded(cal: Normalized, n: int, r: map<Service, NextException>, s: Service)
    requires Dicts.Valid(cal) && IsNextExceptions(cal, n, r) && 0 < n && Flagged(cal, 0, s)
    ensures s in r && r[s] == NextException(cal.values[cal.keys[0]][s], cal.keys[0])
  {
    var j :| FirstFlagged(cal, n, j, s) && r[s] == NextException(cal.values[cal.keys[j]][s], cal.keys[j]);
    assert 0 < j ==> !Flagged(cal, 0, s);
  }

  /** The views `get_calendar` can return. */
  datatype View =
    | ByDateView(calendar: Normalized)
    | DaysAheadView(daysAhead: map<int, DayAhead>)
    | NextExceptionsView(nextExceptions: map<Service, NextException>)

  /**
   * The view the dispatch of `get_calendar` builds for one calendar type: a
   * view of that type; BY_DATE is the calendar itself and never fails, and
   * the other two fail exactly when their builder does.
   */
  function ViewOf(cal: Normalized, today: Date, c: CalendarType): (r: Result<View, ApiError>)
    requires Dicts.Valid(cal)
    ensures c == ByDate ==> r == Ok(ByDateView(cal))
    ensures r.Ok? ==> (r.value.DaysAheadView? <==> c == DaysAhead) && (r.value.NextExceptionsView? <==> c == NextExceptions)
    ensures c == DaysAhead ==> (r.Err? <==> DaysAheadFrom(cal, today, 7).Err?)
    ensures c == NextExceptions ==> (r.Err? <==> NextFrom(cal, |cal.keys|).Err?)
  {
    match c
    case ByDate => Ok(ByDateView(cal))
    case DaysAhead =>
      (match DaysAheadFrom(cal, today, 7)
       case Err(e) => Err(e)
       case Ok(m) => Ok(DaysAheadView(m)))
    case NextExceptions =>
      (match NextFrom(cal, |cal.keys|)
       case Err(e) => Err(e)
       case Ok(m) => Ok(NextExceptionsView(m)))
  }

  /** The dispatch loop of `get_calendar` over the requested types `req`. */
  function ViewsFrom(cal: Normalized, today: Date, req: seq<CalendarType>): Result<map<CalendarType, View>, ApiError>
    requires Dicts.Valid(cal)
  {
    if |req| == 0 then Ok(map[])
    else
      match ViewsFrom(cal, today, req[..|req| - 1])
      case Err(e) => Err(e)
      case Ok(m) =>
        match ViewOf(cal, today, req[|req| - 1])
        case Err(e) => Err(e)
        case Ok(v) => Ok(m[req[|req| - 1] := v])
  }

  /**
   * The dispatch fails exactly when some requested view fails, with the error
   * of the first one requested; otherwise its keys are exactly the requested
   * types, each holding its view.
   */
  lemma {:induction false} ViewsSpec(cal: Normalized, today: Date, req: seq<CalendarType>)
    requires Dicts.Valid(cal)
    ensures ViewsFrom(cal, today, req).Ok? <==> forall k :: 0 <= k < |req| ==> ViewOf(cal, today, req[k]).Ok?
    ensures ViewsFrom(cal, today, req).Err? ==>
              exists k :: 0 <= k < |req| && ViewOf(cal, today, req[k]) == Err(ViewsFrom(cal, today, req).error) &&
                          forall k' :: 0 <= k' < k ==> ViewOf(cal, today, req[k']).Ok?
    ensures ViewsFrom(cal, today, req).Ok? ==>
              var m := ViewsFrom(cal, today, req).value;
              (forall c :: c in m <==> c in req) && forall c :: c in m ==> ViewOf(cal, today, c) == Ok(m[c])
    decreases |req|
  {
    if |req| > 0 {
      var init := req[..|req| - 1];
      ViewsSpec(cal, today, init);
      assert forall k :: 0 <= k < |init| ==> init[k] == req[k];
      assert forall c :: c in req <==> c in init || c == req[|req| - 1];
    }
  }

  /**
   * With the default request the dispatch succeeds exactly when the days-ahead
   * and next-exceptions builders both do, and then it holds all three views.
   */
  lemma DefaultCalendarsViews(cal: Normalized, today: Date)
    requires Dicts.Valid(cal)
    ensures ViewsFrom(cal, today, DefaultCalendars).Ok? <==>
              DaysAheadFrom(cal, today, 7).Ok? && NextFrom(cal, |cal.keys|).Ok?
    ensures ViewsFrom(cal, today, DefaultCalendars).Ok? ==> forall c :: c in ViewsFrom(cal, today, DefaultCalendars).value
  {
    var req := DefaultCalendars;
    ViewsSpec(cal, today, req);
    assert req[0] == ByDate && req[1] == DaysAhead && req[2] == NextExceptions;
    assert ViewOf(cal, today, req[1]).Ok? <==> DaysAheadFrom(cal, today, 7).Ok?;
    assert ViewOf(cal, today, req[2]).Ok? <==> NextFrom(cal, |cal.keys|).Ok?;
    if ViewsFrom(cal, today, req).Ok? {
      forall c ensures c in ViewsFrom(cal, today, req).value {
        assert c == req[0] || c == req[1] || c == req[2];
      }
    }
  }

  /** Once a view has failed, the later requests cannot undo it. */
  lemma {:induction false} ViewsErrPersists(cal: Normalized, today: Date, req: seq<CalendarType>, k: nat)
    requires Dicts.Valid(cal) && k <= |req| && ViewsFrom(cal, today, req[..k]).Err?
    ensures ViewsFrom(cal, today, req) == ViewsFrom(cal, today, req[..k])
    decreases |req| - k
  {
    if k < |req| {
      assert req[..k + 1][..k] == req[..k];
      ViewsErrPersists(cal, today, req, k + 1);
    } else {
      assert req[..k] == req;
    }
  }

  /**
   * `CivCalAPI`: the two id-keyed tables its constructor builds, and the
   * pipeline that reads them. The HTTP session and API key are left out.
   */
  class CivCalApi {
    var statusById: map<Status, StatusName>
    var serviceById: map<Service, ServiceName>

    /** The tables are the ones `__init__` builds from `KNOWN_STATUSES` and `KNOWN_SERVICES`. */
    ghost predicate Valid()
      reads this
    {
      statusById == StatusIndex(KnownStatuses) && serviceById == ServiceIndex(KnownServices)
    }

    /** `__init__`: one pass over each literal table, keyed by id, later rows overwriting earlier ones. */
    constructor ()
      ensures Valid()
    {
      new;
      statusById := map[];
      assert KnownStatuses[..0] == [];
      for i := 0 to |KnownStatuses|
        invariant statusById == StatusIndex(KnownStatuses[..i])
      {
        var value := KnownStatuses[i];
        StatusIndexStep(KnownStatuses, i);
        statusById := statusById[value.id := StatusName(value.name, value.isException)];
      }
      assert KnownStatuses[..|KnownStatuses|] == KnownStatuses;

      serviceById := map[];
      assert KnownServices[..0] == [];
      for i := 0 to |KnownServices|
        invariant serviceById == ServiceIndex(KnownServices[..i])
        invariant statusById == StatusIndex(KnownStatuses)
      {
        var value := KnownServices[i];
        ServiceIndexStep(KnownServices, i);
        serviceById := serviceById[value.id := ServiceName(value.name, value.exceptionName)];
      }
      assert KnownServices[..|KnownServices|] == KnownServices;
    }

    /** The inner loop of `__async_calendar_update`: one day's items folded into `day_dict`. */
    method NormalizeDay(scrub: bool, items: seq<RawItem>) returns (r: Result<Day, ApiError>)
      requires Valid()
      ensures r == DayEntries(scrub, items)
    {
      var dayDict: Day := map[];
      for j := 0 to |items|
        invariant DayEntries(scrub, items[..j]) == Ok(dayDict)
      {
        var item := items[j];
        DayEntriesStep(scrub, items, j, dayDict);
        if || item.itemType.None? || FindService(item.itemType.value).None?
           || item.status.None? || FindStatus(item.status.value).None?
           || item.details.None? {
          r := Err(UnexpectedEntry);
          DayEntriesErrPersists(scrub, items, j + 1);
          return;
        }
        var serviceId := FindService(item.itemType.value).value.id;
        var statusId := FindStatus(item.status.value).value.id;
        var description := item.details.value;
        var exceptionName := ExceptionNameOf(scrub, item.exceptionName);
        assert ServiceNameOf(serviceId) == serviceById[serviceId];
        assert StatusNameOf(statusId) == statusById[statusId];
        dayDict := dayDict[serviceId := DayEntry(serviceById[serviceId].name, statusId, statusById[statusId].name,
                                                 description, exceptionName)];
      }
      assert items[..|items|] == items;
      r := Ok(dayDict);
    }

    /**
     * The outer loop of `__async_calendar_update`: `resp_dict[cur_date] = day_dict`
     * per day, failing on the first day whose date does not parse or whose items fail.
     */
    method Normalize(parse: string -> Option<Date>, scrub: bool, days: seq<RawDay>)
      returns (r: Result<Normalized, ApiError>)
      requires Valid()
      ensures r == NormalizeSpec(parse, scrub, days)
    {
      var respDict: Normalized := Empty();
      for i := 0 to |days|
        invariant NormalizeSpec(parse, scrub, days[..i]) == Ok(respDict)
      {
        var day := days[i];
        assert days[..i + 1][..i] == days[..i];
        var curDate := parse(day.todayId);
        if curDate.None? {
          r := Err(MalformedDate(day.todayId));
          NormalizeErrPersists(parse, scrub, days, i + 1);
          return;
        }
        var dayDict := NormalizeDay(scrub, day.items);
        if dayDict.Err? {
          r := Err(dayDict.error);
          NormalizeErrPersists(parse, scrub, days, i + 1);
          return;
        }
        respDict := Put(respDict, curDate.value, dayDict.value);
      }
      assert days[..|days|] == days;
      r := Ok(respDict);
    }

    /**
     * The inner loop of `__build_days_ahead`: `resp_dict[i_date][id]` for each
     * service of `KNOWN_SERVICES` in order, failing with the first missing key.
     */
    method CopyServices(cal: Normalized, iDate: Date) returns (r: Result<Day, ApiError>)
      ensures r.Err? <==> GapAt(cal, iDate).Some?
      ensures r.Err? ==> r.error == GapAt(cal, iDate).value
      ensures r.Ok? ==> iDate in cal.values && r.value == cal.values[iDate]
    {
      KnownServiceIds();
      var day: Day := map[];
      for k := 0 to |KnownServices|
        invariant k > 0 ==> iDate in cal.values
        invariant forall j :: 0 <= j < k ==> iDate in cal.values && KnownServices[j].id in cal.values[iDate]
        invariant day.Keys == set j | 0 <= j < k :: KnownServices[j].id
        invariant forall s :: s in day ==> iDate in cal.values && s in cal.values[iDate] && day[s] == cal.values[iDate][s]
      {
        var id := KnownServices[k].id;
        if iDate !in cal.values {
          r := Err(MissingDate(iDate));
          return;
        }
        if id !in cal.values[iDate] {
          r := Err(MissingService(iDate, id));
          return;
        }
        day := day[id := cal.values[iDate][id]];
      }
      assert day.Keys == {Parking, Trash, School};
      ServicesComplete(day);
      assert day == cal.values[iDate];
      r := Ok(day);
    }

    /**
     * `__build_days_ahead`: for each offset from -1 to 6, the date `today + i`
     * and its entry for every known service; a missing date or service is a KeyError.
     */
    method BuildDaysAhead(cal: Normalized, today: Date) returns (r: Result<map<int, DayAhead>, ApiError>)
      ensures r == DaysAheadFrom(cal, today, 7)
    {
      var daysAhead: map<int, DayAhead> := map[];
      for i := -1 to 7
        invariant DaysAheadFrom(cal, today, i) == Ok(daysAhead)
      {
        var iDate := Util.DateMod(i, today);
        var day := CopyServices(cal, iDate);
        if day.Err? {
          r := Err(day.error);
          DaysAheadErrPersists(cal, today, i + 1);
          return;
        }
        daysAhead := daysAhead[i := DayAhead(iDate, day.value)];
      }
      r := Ok(daysAhead);
    }

    /** The inner loop of `__build_next_exceptions` over one day's services, in any order. */
    method RecordExceptions(next: map<Service, NextException>, key: Date, value: Day)
      returns (r: map<Service, NextException>)
      requires Valid()
      ensures r == RecordDay(next, key, value, value.Keys)
    {
      r := next;
      var todo := value.Keys;
      assert value.Keys - todo == {};
      while todo != {}
        invariant todo <= value.Keys
        invariant r == RecordDay(next, key, value, value.Keys - todo)
        decreases todo
      {
        Util.NonEmptyHas(todo);
        var svc :| svc in todo;
        var svcDetails := value[svc];
        assert StatusNameOf(svcDetails.statusId) == statusById[svcDetails.statusId];
        RecordDayStep(next, key, value, value.Keys - todo, svc);
        if !(svc in r || !statusById[svcDetails.statusId].isException) {
          r := r[svc := NextException(svcDetails, key)];
        }
        assert value.Keys - (todo - {svc}) == (value.Keys - todo) + {svc};
        todo := todo - {svc};
      }
    }

    /**
     * `__build_next_exceptions`: walks the keys in order, checking each against
     * the first one, and records per service the first exceptional entry.
     */
    method BuildNextExceptions(cal: Normalized) returns (r: Result<map<Service, NextException>, ApiError>)
      requires Valid() && Dicts.Valid(cal)
      ensures r == NextFrom(cal, |cal.keys|)
    {
      var nextExceptions: map<Service, NextException> := map[];
      var previousDate: Option<Date> := None;
      for n := 0 to |cal.keys|
        invariant NextFrom(cal, n) == Ok(nextExceptions)
        invariant previousDate == if n == 0 then None else Some(cal.keys[0])
      {
        var key := cal.keys[n];
        assert key in cal.keys;
        var value := cal.values[key];
        if previousDate.None? {
          previousDate := Some(key);
        } else if key < previousDate.value {
          r := Err(DateOrder);
          NextErrPersists(cal, n + 1);
          return;
        }
        nextExceptions := RecordExceptions(nextExceptions, key, value);
      }
      r := Ok(nextExceptions);
    }

    /** One branch of the dispatch in `get_calendar`. */
    method BuildView(cal: Normalized, today: Date, c: CalendarType) returns (r: Result<View, ApiError>)
      requires Valid() && Dicts.Valid(cal)
      ensures r == ViewOf(cal, today, c)
    {
      if c == ByDate {
        r := Ok(ByDateView(cal));
      } else if c == DaysAhead {
        var daysAhead := BuildDaysAhead(cal, today);
        r := if daysAhead.Err? then Err(daysAhead.error) else Ok(DaysAheadView(daysAhead.value));
      } else {
        var nextExceptions := BuildNextExceptions(cal);
        r := if nextExceptions.Err? then Err(nextExceptions.error) else Ok(NextExceptionsView(nextExceptions.value));
      }
    }

    /**
     * `get_calendar`: fetches yesterday to 89 days ahead, normalises the days,
     * then builds each requested view in request order. `fetch` stands for the
     * API call and its "days" list.
     */
    method GetCalendar(parse: string -> Option<Date>, fetch: (Date, Date) -> seq<RawDay>, today: Date,
                       calendars: seq<CalendarType> := DefaultCalendars, scrub: bool := false)
      returns (r: Result<map<CalendarType, View>, ApiError>)
      requires Valid()
      ensures r == match NormalizeSpec(parse, scrub, fetch(today - 1, today + 89))
                   case Err(e) => Err(e)
                   case Ok(cal) => ViewsFrom(cal, today, calendars)
    {
      var startDate := Util.DateMod(-1, today);
      var endDate := Util.DateMod(90, startDate);
      var apiResp := Normalize(parse, scrub, fetch(startDate, endDate));
      if apiResp.Err? {
        r := Err(apiResp.error);
        return;
      }
      var cal := apiResp.value;
      var respDict: map<CalendarType, View> := map[];
      assert calendars[..0] == [];
      for k := 0 to |calendars|
        invariant ViewsFrom(cal, today, calendars[..k]) == Ok(respDict)
      {
        assert calendars[..k + 1][..k] == calendars[..k];
        var view := BuildView(cal, today, calendars[k]);
        if view.Err? {
          r := Err(view.error);
          ViewsErrPersists(cal, today, calendars, k + 1);
          return;
        }
        respDict := respDict[calendars[k] := view.value];
      }
      assert calendars[..|calendars|] == calendars;
      r := Ok(respDict);
    }
  }
}
