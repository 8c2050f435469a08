/**
 * The calendar pipeline of nyc311calendar/__init__.py after the fetch: the raw
 * day-by-day response is normalised into a map from date to service to entry,
 * and the three views (by date, days ahead, next exceptions) are derived from it.
 *
 * The date parser (`strptime` on `today_id`) and the printed name of each
 * service are parameters: both are library behaviour the model does not see.
 */
module Calendar {
  import opened Wrappers
  import opened Wire
  import opened Services
  import Util

  /** The views `get_calendar` can return. */
  datatype CalendarType = ByDate | DaysAhead | NextExceptions

  /** `CalendarDayServiceEntry`: one service's status on one day. */
  datatype Entry = Entry(
    serviceName: string,
    statusProfile: Option<StatusTypeDetail>,
    exceptionReason: string,
    rawDescription: Option<string>,
    date: Date)

  /** One day of the normalised calendar, keyed by service. */
  type Day = map<ServiceType, Entry>

  /** The normalised calendar, keyed by date. */
  type Normalized = map<Date, Day>

  /** The ways the pipeline fails. */
  datatype CalendarError =
    | UnexpectedEntry                                   // an item without "type" or "status"
    | UnknownValue(raw: string)                         // ValueError from an enum constructor
    | MalformedDate(raw: string)                        // ValueError from strptime on today_id
    | MissingDate(missingDate: Date)                    // KeyError in days-ahead: no such date
    | MissingService(day: Date, service: ServiceType)   // KeyError in days-ahead: no such service

  /** The entry's `exception_reason`: "" when absent, else the name, scrubbed on request. */
  function ExceptionReason(scrub: bool, exceptionName: Option<string>): (r: string)
    ensures exceptionName.None? ==> r == ""
    ensures exceptionName.Some? && !scrub ==> r == exceptionName.value
    ensures exceptionName.Some? && scrub ==> r == Util.Scrub(exceptionName.value)
    ensures exceptionName.Some? ==> |r| <= |exceptionName.value|
  {
    match Util.Scrubber(if scrub then exceptionName else None)
    case Some(s) => s
    case None => if exceptionName.Some? then exceptionName.value else ""
  }

  /**
   * The body of the inner loop for one item: the item's service and its entry,
   * or the error the loop raises for it.
   */
  function ConvertItem(names: ServiceType -> string, scrub: bool, date: Date, item: RawItem)
    : (r: Result<(ServiceType, Entry), CalendarError>)
    ensures item.itemType.None? || item.status.None? <==> r == Err(UnexpectedEntry)
    ensures item.itemType.Some? && item.status.Some? && ServiceTypeOf(item.itemType.value).None?
            ==> r == Err(UnknownValue(item.itemType.value))
    ensures item.itemType.Some? && item.status.Some? && ServiceTypeOf(item.itemType.value).Some? &&
            Resolve(ServiceTypeOf(item.itemType.value).value, item.status.value).None?
            ==> r == Err(UnknownValue(item.status.value))
    ensures r.Ok? <==>
              item.itemType.Some? && item.status.Some? && ServiceTypeOf(item.itemType.value).Some? &&
              Resolve(ServiceTypeOf(item.itemType.value).value, item.status.value).Some?
    ensures r.Ok? ==>
              var svc := ServiceTypeOf(item.itemType.value).value;
              r.value.0 == svc && ServiceValue(svc) == item.itemType.value &&
              r.value.1 == Entry(names(svc), Resolve(svc, item.status.value), ExceptionReason(scrub, item.exceptionName),
                                 item.details, date)
  {
    if item.itemType.None? || item.status.None? then Err(UnexpectedEntry)
    else
      match ServiceTypeOf(item.itemType.value)
      case None => Err(UnknownValue(item.itemType.value))
      case Some(svc) =>
        match ParseStatus(svc, item.status.value)
        case None => Err(UnknownValue(item.status.value))
        case Some(st) =>
          Ok((svc, Entry(names(svc), Some(Detail(st)), ExceptionReason(scrub, item.exceptionName), item.details, date)))
  }

  /** `day_dict` after the inner loop has run over `items`. */
  function DayEntries(names: ServiceType -> string, scrub: bool, date: Date, items: seq<RawItem>)
    : Result<Day, CalendarError>
  {
    if |items| == 0 then Ok(map[])
    else
      match DayEntries(names, scrub, date, items[..|items| - 1])
      case Err(e) => Err(e)
      case Ok(day) =>
        match ConvertItem(names, scrub, date, items[|items| - 1])
        case Err(e) => Err(e)
        case Ok(p) => Ok(day[p.0 := p.1])
  }

  /** `resp_dict` after the outer loop has run over `days`. */
  function NormalizeSpec(names: ServiceType -> string, parse: string -> Option<Date>, scrub: bool, days: seq<RawDay>)
    : Result<Normalized, CalendarError>
  {
    if |days| == 0 then Ok(map[])
    else
      match NormalizeSpec(names, parse, scrub, days[..|days| - 1])
      case Err(e) => Err(e)
      case Ok(resp) =>
        var day := days[|days| - 1];
        match parse(day.todayId)
        case None => Err(MalformedDate(day.todayId))
        case Some(date) =>
          match DayEntries(names, scrub, date, day.items)
          case Err(e) => Err(e)
          case Ok(entries) => Ok(resp[date := entries])
  }

  /** Once an item has failed, the rest of the day cannot undo it. */
  lemma {:induction false} DayEntriesErrPersists(
    names: ServiceType -> string, scrub: bool, date: Date, items: seq<RawItem>, k: nat)
    requires k <= |items| && DayEntries(names, scrub, date, items[..k]).Err?
    ensures DayEntries(names, scrub, date, items) == DayEntries(names, scrub, date, items[..k])
    decreases |items| - k
  {
    if k < |items| {
      assert items[..k + 1][..k] == items[..k];
      DayEntriesErrPersists(names, scrub, date, items, k + 1);
    } else {
      assert items[..k] == items;
    }
  }

  /** Once a day has failed, the later days cannot undo it. */
  lemma {:induction false} NormalizeErrPersists(
    names: ServiceType -> string, parse: string -> Option<Date>, scrub: bool, days: seq<RawDay>, k: nat)
    requires k <= |days| && NormalizeSpec(names, parse, scrub, days[..k]).Err?
    ensures NormalizeSpec(names, parse, scrub, days) == NormalizeSpec(names, parse, scrub, days[..k])
    decreases |days| - k
  {
    if k < |days| {
      assert days[..k + 1][..k] == days[..k];
      NormalizeErrPersists(names, parse, scrub, days, k + 1);
    } else {
      assert days[..k] == days;
    }
  }

  /** One more item: `day_dict[service_type] = entry`, or the item's error. */
  lemma DayEntriesStep(
    names: ServiceType -> string, scrub: bool, date: Date, items: seq<RawItem>, j: nat, day: Day)
    requires j < |items| && DayEntries(names, scrub, date, items[..j]) == Ok(day)
    ensures ConvertItem(names, scrub, date, items[j]).Err? ==>
              DayEntries(names, scrub, date, items[..j + 1]) == Err(ConvertItem(names, scrub, date, items[j]).error)
    ensures ConvertItem(names, scrub, date, items[j]).Ok? ==>
              var p := ConvertItem(names, scrub, date, items[j]).value;
              DayEntries(names, scrub, date, items[..j + 1]) == Ok(day[p.0 := p.1])
  {
    assert items[..j + 1][..j] == items[..j];
  }

  /** The inner loop of the post-fetch loop: one day's items folded into `day_dict`. */
  method NormalizeDay(names: ServiceType -> string, scrub: bool, curDate: Date, items: seq<RawItem>)
    returns (r: Result<Day, CalendarError>)
    ensures r == DayEntries(names, scrub, curDate, items)
  {
    var dayDict: Day := map[];
    var j := 0;
    while j < |items|
      invariant 0 <= j <= |items|
      invariant DayEntries(names, scrub, curDate, items[..j]) == Ok(dayDict)
    {
      DayEntriesStep(names, scrub, curDate, items, j, dayDict);
      var converted := ConvertItem(names, scrub, curDate, items[j]);
      if converted.Err? {
        r := Err(converted.error);
        DayEntriesErrPersists(names, scrub, curDate, items, j + 1);
        return;
      }
      dayDict := dayDict[converted.value.0 := converted.value.1];
      j := j + 1;
    }
    assert items[..j] == items;
    r := Ok(dayDict);
  }

  /**
   * The post-fetch loop of `__async_calendar_update`: `resp_dict[cur_date] = day_dict`
   * per day, failing on the first day whose date does not parse or whose items fail.
   */
  method Normalize(names: ServiceType -> string, parse: string -> Option<Date>, scrub: bool, days: seq<RawDay>)
    returns (r: Result<Normalized, CalendarError>)
    ensures r == NormalizeSpec(names, parse, scrub, days)
  {
    var resp: Normalized := map[];
    var i := 0;
    while i < |days|
      invariant 0 <= i <= |days|
      invariant NormalizeSpec(names, parse, scrub, days[..i]) == Ok(resp)
    {
      var day := days[i];
      assert days[..i + 1][..i] == days[..i];
      var parsed := parse(day.todayId);
      if parsed.None? {
        r := Err(MalformedDate(day.todayId));
        NormalizeErrPersists(names, parse, scrub, days, i + 1);
        return;
      }
      var dayDict := NormalizeDay(names, scrub, parsed.value, day.items);
      if dayDict.Err? {
        r := Err(dayDict.error);
        NormalizeErrPersists(names, parse, scrub, days, i + 1);
        return;
      }
      resp := resp[parsed.value := dayDict.value];
      i := i + 1;
    }
    assert days[..i] == days;
    r := Ok(resp);
  }

  /** The item's service, when its "type" is present and known. */
  function ItemService(item: RawItem): Option<ServiceType>
  {
    if item.itemType.Some? then ServiceTypeOf(item.itemType.value) else None
  }

  /** The item passes every check of the inner loop body. */
  predicate ItemConverts(item: RawItem)
  {
    item.itemType.Some? && item.status.Some? && ServiceTypeOf(item.itemType.value).Some? &&
    Resolve(ServiceTypeOf(item.itemType.value).value, item.status.value).Some?
  }

  /** The index of the last item of service `t`, or -1. */
  function LastItemOf(items: seq<RawItem>, t: ServiceType): (k: int)
    ensures -1 <= k < |items|
    ensures k >= 0 ==> ItemService(items[k]) == Some(t)
    ensures forall m :: k < m < |items| ==> ItemService(items[m]) != Some(t)
  {
    if |items| == 0 then -1
    else if ItemService(items[|items| - 1]) == Some(t) then |items| - 1
    else LastItemOf(items[..|items| - 1], t)
  }

  /** The index of the last day whose date parses to `d`, or -1. */
  function LastDayOf(parse: string -> Option<Date>, days: seq<RawDay>, d: Date): (k: int)
    ensures -1 <= k < |days|
    ensures k >= 0 ==> parse(days[k].todayId) == Some(d)
    ensures forall m :: k < m < |days| ==> parse(days[m].todayId) != Some(d)
  {
    if |days| == 0 then -1
    else if parse(days[|days| - 1].todayId) == Some(d) then |days| - 1
    else LastDayOf(parse, days[..|days| - 1], d)
  }

  /** Whether an item converts depends on its "type" and "status" alone. */
  lemma ConvertItemOk(names: ServiceType -> string, scrub: bool, date: Date, item: RawItem)
    ensures ConvertItem(names, scrub, date, item).Ok? <==> ItemConverts(item)
  {
  }

  /** A day's items fold without error exactly when every item converts. */
  lemma {:induction false} DayEntriesOkIff(names: ServiceType -> string, scrub: bool, date: Date, items: seq<RawItem>)
    ensures DayEntries(names, scrub, date, items).Ok? <==> forall m :: 0 <= m < |items| ==> ItemConverts(items[m])
    decreases |items|
  {
    if |items| > 0 {
      var init, last := items[..|items| - 1], items[|items| - 1];
      DayEntriesOkIff(names, scrub, date, init);
      ConvertItemOk(names, scrub, date, last);
      assert DayEntries(names, scrub, date, items).Ok? <==>
             DayEntries(names, scrub, date, init).Ok? && ItemConverts(last);
      AllConvertSplit(items);
    }
  }

  /** Every item converts. */
  ghost predicate AllConvert(items: seq<RawItem>)
  {
    forall m :: 0 <= m < |items| ==> ItemConverts(items[m])
  }

  /** Every item converts exactly when every item but the last does and the last does too. */
  lemma AllConvertSplit(items: seq<RawItem>)
    requires |items| > 0
    ensures AllConvert(items) <==> AllConvert(items[..|items| - 1]) && ItemConverts(items[|items| - 1])
  {
    var init := items[..|items| - 1];
    assert forall m :: 0 <= m < |init| ==> init[m] == items[m];
  }

  /** The error of a day is the error of its first item that does not convert. */
  lemma DayEntriesFirstError(names: ServiceType -> string, scrub: bool, date: Date, items: seq<RawItem>, m: nat)
    requires m < |items| && !ItemConverts(items[m])
    requires forall m' :: 0 <= m' < m ==> ItemConverts(items[m'])
    ensures DayEntries(names, scrub, date, items) == Err(ConvertItem(names, scrub, date, items[m]).error)
  {
    DayEntriesOkIff(names, scrub, date, items[..m]);
    DayEntriesStep(names, scrub, date, items, m, DayEntries(names, scrub, date, items[..m]).value);
    DayEntriesErrPersists(names, scrub, date, items, m + 1);
  }

  /**
   * When every item converts, the day holds one entry per service that occurs,
   * made from the last item of that service: later items overwrite earlier ones.
   */
  lemma {:induction false} DayEntriesContent(names: ServiceType -> string, scrub: bool, date: Date, items: seq<RawItem>)
    requires forall m :: 0 <= m < |items| ==> ItemConverts(items[m])
    ensures DayEntries(names, scrub, date, items).Ok?
    ensures forall t :: t in DayEntries(names, scrub, date, items).value <==> LastItemOf(items, t) >= 0
    ensures forall t :: t in DayEntries(names, scrub, date, items).value ==>
              var last := ConvertItem(names, scrub, date, items[LastItemOf(items, t)]);
              last.Ok? && DayEntries(names, scrub, date, items).value[t] == last.value.1
    decreases |items|
  {
    DayEntriesOkIff(names, scrub, date, items);
    if |items| > 0 {
      var init := items[..|items| - 1];
      assert forall m :: 0 <= m < |init| ==> init[m] == items[m];
      DayEntriesContent(names, scrub, date, init);
    }
  }

  /** The day's date parses and all its items convert. */
  ghost predicate DayConverts(parse: string -> Option<Date>, day: RawDay)
  {
    parse(day.todayId).Some? && AllConvert(day.items)
  }

  /** Normalisation succeeds exactly when every date parses and every item converts. */
  lemma {:induction false} NormalizeOkIff(names: ServiceType -> string, parse: string -> Option<Date>, scrub: bool, days: seq<RawDay>)
    ensures NormalizeSpec(names, parse, scrub, days).Ok? <==> forall k :: 0 <= k < |days| ==> DayConverts(parse, days[k])
    decreases |days|
  {
    if |days| > 0 {
      var init, last := days[..|days| - 1], days[|days| - 1];
      NormalizeOkIff(names, parse, scrub, init);
      if parse(last.todayId).Some? {
        DayEntriesOkIff(names, scrub, parse(last.todayId).value, last.items);
      }
      assert NormalizeSpec(names, parse, scrub, days).Ok? <==>
             NormalizeSpec(names, parse, scrub, init).Ok? && DayConverts(parse, last);
      AllDaysConvertSplit(parse, days);
    }
  }

  /** Every day converts. */
  ghost predicate AllDaysConvert(parse: string -> Option<Date>, days: seq<RawDay>)
  {
    forall k :: 0 <= k < |days| ==> DayConverts(parse, days[k])
  }

  /** Every day converts exactly when every day but the last does and the last does too. */
  lemma AllDaysConvertSplit(parse: string -> Option<Date>, days: seq<RawDay>)
    requires |days| > 0
    ensures AllDaysConvert(parse, days) <==>
            AllDaysConvert(parse, days[..|days| - 1]) && DayConverts(parse, days[|days| - 1])
  {
    var init := days[..|days| - 1];
    assert forall k :: 0 <= k < |init| ==> init[k] == days[k];
  }

  /** The error of normalisation is the error of the first day that fails, taken on its own. */
  lemma NormalizeFirstError(names: ServiceType -> string, parse: string -> Option<Date>, scrub: bool, days: seq<RawDay>, k: nat)
    requires k < |days| && NormalizeSpec(names, parse, scrub, days[..k]).Ok?
    requires NormalizeSpec(names, parse, scrub, [days[k]]).Err?
    ensures NormalizeSpec(names, parse, scrub, days) == NormalizeSpec(names, parse, scrub, [days[k]])
  {
    assert days[..k + 1][..k] == days[..k];
    assert [days[k]][..0] == [];
    NormalizeErrPersists(names, parse, scrub, days, k + 1);
  }

  /**
   * When normalisation succeeds, its keys are the parsed dates, and each date
   * holds the entries of the last day with that date: later days overwrite earlier ones.
   */
  lemma {:induction false} NormalizeContent(names: ServiceType -> string, parse: string -> Option<Date>, scrub: bool, days: seq<RawDay>)
    requires NormalizeSpec(names, parse, scrub, days).Ok?
    ensures forall d :: d in NormalizeSpec(names, parse, scrub, days).value <==> LastDayOf(parse, days, d) >= 0
    ensures forall d :: d in NormalizeSpec(names, parse, scrub, days).value ==>
              DayEntries(names, scrub, d, days[LastDayOf(parse, days, d)].items) ==
              Ok(NormalizeSpec(names, parse, scrub, days).value[d])
    decreases |days|
  {
    if |days| > 0 {
      var init := days[..|days| - 1];
      assert forall k :: 0 <= k < |init| ==> init[k] == days[k];
      NormalizeContent(names, parse, scrub, init);
    }
  }

  /** Every entry carries its own key as its date and always has a status profile. */
  ghost predicate WellDated(cal: Normalized)
  {
    forall d, t :: d in cal && t in cal[d] ==> cal[d][t].date == d && cal[d][t].statusProfile.Some?
  }

  /** Entries made for a day all carry that day's date and a profile. */
  lemma {:induction false} DayEntriesWellDated(names: ServiceType -> string, scrub: bool, date: Date, items: seq<RawItem>)
    requires DayEntries(names, scrub, date, items).Ok?
    ensures forall t :: t in DayEntries(names, scrub, date, items).value ==>
              DayEntries(names, scrub, date, items).value[t].date == date &&
              DayEntries(names, scrub, date, items).value[t].statusProfile.Some?
    decreases |items|
  {
    if |items| > 0 {
      DayEntriesWellDated(names, scrub, date, items[..|items| - 1]);
    }
  }

  /** The normalised calendar is well dated. */
  lemma {:induction false} NormalizeWellDated(names: ServiceType -> string, parse: string -> Option<Date>, scrub: bool, days: seq<RawDay>)
    requires NormalizeSpec(names, parse, scrub, days).Ok?
    ensures WellDated(NormalizeSpec(names, parse, scrub, days).value)
    decreases |days|
  {
    if |days| > 0 {
      NormalizeWellDated(names, parse, scrub, days[..|days| - 1]);
      var last := days[|days| - 1];
      DayEntriesWellDated(names, scrub, parse(last.todayId).value, last.items);
    }
  }

  /** One entry of the days-ahead view: the date and that date's services. */
  datatype DayAhead = DayAhead(date: Date, services: Day)

  /** A day holds every service exactly when it holds the three of them. */
  lemma DayComplete(day: Day)
    ensures (forall t: ServiceType :: t in day) <==> Parking in day && School in day && Sanitation in day
  {
    if Parking in day && School in day && Sanitation in day {
      forall t: ServiceType ensures t in day {
        AllServiceTypesComplete(t);
      }
    }
  }

  /**
   * The KeyError the days-ahead loop raises for date `d`, or None: the date
   * itself first, then the services in enum order.
   */
  function GapAt(cal: Normalized, d: Date): (g: Option<CalendarError>)
    ensures g.None? <==> d in cal && forall t: ServiceType :: t in cal[d]
    ensures g == Some(MissingDate(d)) <==> d !in cal
    ensures g.Some? && d in cal ==> g.value.MissingService? && g.value.day == d && g.value.service !in cal[d]
    ensures g == Some(MissingService(d, School)) ==> Parking in cal[d]
    ensures g == Some(MissingService(d, Sanitation)) ==> Parking in cal[d] && School in cal[d]
  {
    if d !in cal then Some(MissingDate(d))
    else
      DayComplete(cal[d]);
      if Parking !in cal[d] then Some(MissingService(d, Parking))
      else if School !in cal[d] then Some(MissingService(d, School))
      else if Sanitation !in cal[d] then Some(MissingService(d, Sanitation))
      else None
  }

  /** The days-ahead loop after the offsets -1 up to `i - 1`: the entries so far, or the first KeyError. */
  function DaysAheadFrom(cal: Normalized, today: Date, i: int): Result<map<int, DayAhead>, CalendarError>
    requires -1 <= i <= 7
    decreases i + 1
  {
    if i == -1 then Ok(map[])
    else
      match DaysAheadFrom(cal, today, i - 1)
      case Err(e) => Err(e)
      case Ok(m) =>
        var d := Util.DateMod(i - 1, today);
        match GapAt(cal, d)
        case Some(e) => Err(e)
        case None => Ok(m[i - 1 := DayAhead(d, cal[d])])
  }

  /** `m` is the days-ahead view of `cal`: offsets -1 to 6, each with its date's services. */
  ghost predicate IsDaysAhead(cal: Normalized, today: Date, m: map<int, DayAhead>)
  {
    (forall j :: j in m <==> -1 <= j < 7) &&
    (forall d :: today - 1 <= d < today + 7 ==> d in cal) &&
    forall j :: -1 <= j < 7 ==> m[j] == DayAhead(today + j, cal[today + j])
  }

  /**
   * The inner loop of `__build_days_ahead`: `resp_dict[i_date][svc_type]` for each
   * service in enum order, failing with the first missing key.
   */
  method CopyServices(cal: Normalized, iDate: Date) returns (r: Result<Day, CalendarError>)
    ensures r.Err? <==> GapAt(cal, iDate).Some?
    ensures r.Err? ==> r.error == GapAt(cal, iDate).value
    ensures r.Ok? ==> iDate in cal && r.value == cal[iDate]
  {
    var tmpServices: Day := map[];
    for k := 0 to |AllServiceTypes|
      invariant k > 0 ==> iDate in cal
      invariant k > 0 ==> forall j :: 0 <= j < k ==> AllServiceTypes[j] in cal[iDate]
      invariant tmpServices.Keys == set j | 0 <= j < k :: AllServiceTypes[j]
      invariant forall t :: t in tmpServices ==> iDate in cal && t in cal[iDate] && tmpServices[t] == cal[iDate][t]
    {
      var svcType := AllServiceTypes[k];
      if iDate !in cal {
        r := Err(MissingDate(iDate));
        return;
      }
      if svcType !in cal[iDate] {
        assert k == 0 || AllServiceTypes[0] in cal[iDate];
        assert k <= 1 || AllServiceTypes[1] in cal[iDate];
        r := Err(MissingService(iDate, svcType));
        return;
      }
      tmpServices := tmpServices[svcType := cal[iDate][svcType]];
    }
    forall t: ServiceType ensures t in tmpServices {
      AllServiceTypesComplete(t);
    }
    assert tmpServices == cal[iDate];
    r := Ok(tmpServices);
  }

  /** The days-ahead loop over the offsets -1 up to `i - 1` meets `PrefixFacts`. */
  lemma {:induction false} DaysAheadFromSpec(cal: Normalized, today: Date, i: int)
    requires -1 <= i <= 7
    ensures PrefixFacts(cal, today, i, DaysAheadFrom(cal, today, i))
    decreases i + 1
  {
    if i > -1 {
      DaysAheadFromSpec(cal, today, i - 1);
      assert Util.DateMod(i - 1, today) == today + i - 1;
      PrefixStep(cal, today, i, DaysAheadFrom(cal, today, i - 1), DaysAheadFrom(cal, today, i));
    }
  }

  /**
   * `r` is a correct result of the days-ahead loop over the offsets -1 up to
   * `i - 1`: it fails exactly when one of their dates has a gap, with the gap
   * of the earliest such date; otherwise it holds each offset's date and services.
   */
  ghost predicate PrefixFacts(cal: Normalized, today: Date, i: int, r: Result<map<int, DayAhead>, CalendarError>)
  {
    && (r.Ok? <==> forall d :: today - 1 <= d < today + i ==> GapAt(cal, d).None?)
    && (r.Err? ==>
          exists d :: today - 1 <= d < today + i && GapAt(cal, d) == Some(r.error) &&
                      forall d' :: today - 1 <= d' < d ==> GapAt(cal, d').None?)
    && (r.Ok? ==>
          (forall j :: j in r.value <==> -1 <= j < i) &&
          (forall d :: today - 1 <= d < today + i ==> d in cal) &&
          forall j :: -1 <= j < i ==> r.value[j] == DayAhead(today + j, cal[today + j]))
  }

  /**
   * One more offset keeps `PrefixFacts`: the loop keeps its earlier error, or
   * fails with the gap of the date `today + i - 1`, or adds that date's entry.
   */
  lemma PrefixStep(cal: Normalized, today: Date, i: int,
                   prev: Result<map<int, DayAhead>, CalendarError>, r: Result<map<int, DayAhead>, CalendarError>)
    requires 0 <= i <= 7 && PrefixFacts(cal, today, i - 1, prev)
    requires prev.Err? ==> r == prev
    requires prev.Ok? && GapAt(cal, today + i - 1).Some? ==> r == Err(GapAt(cal, today + i - 1).value)
    requires prev.Ok? && GapAt(cal, today + i - 1).None? ==>
               r == Ok(prev.value[i - 1 := DayAhead(today + i - 1, cal[today + i - 1])])
    ensures PrefixFacts(cal, today, i, r)
  {
    var d := today + i - 1;
    if prev.Err? {
      var w :| today - 1 <= w < d && GapAt(cal, w) == Some(prev.error) &&
               forall d' :: today - 1 <= d' < w ==> GapAt(cal, d').None?;
      assert today - 1 <= w < today + i && GapAt(cal, w).Some?;
    } else if GapAt(cal, d).Some? {
      assert today - 1 <= d < today + i && GapAt(cal, d) == Some(r.error);
    } else {
      forall d' | today - 1 <= d' < today + i
        ensures GapAt(cal, d').None?
      {
        if d' < d {
          assert today - 1 <= d' < today + (i - 1);
        }
      }
      forall d' | today - 1 <= d' < today + i
        ensures d' in cal
      {
        assert GapAt(cal, d').None?;
      }
      forall j | -1 <= j < i
        ensures r.value[j] == DayAhead(today + j, cal[today + j])
      {
        if j < i - 1 {
          assert r.value[j] == prev.value[j];
        } else {
          assert today + j == d;
        }
      }
    }
  }

  /**
   * The days-ahead view fails exactly when a date from yesterday to six days
   * ahead is missing or lacks a service, with the KeyError of the earliest such
   * date; otherwise it is the days-ahead view of the calendar.
   */
  lemma DaysAheadSpec(cal: Normalized, today: Date)
    ensures DaysAheadFrom(cal, today, 7).Ok? <==>
              forall d :: today - 1 <= d < today + 7 ==> d in cal && forall t: ServiceType :: t in cal[d]
    ensures DaysAheadFrom(cal, today, 7).Err? ==>
              exists d :: today - 1 <= d < today + 7 && GapAt(cal, d) == Some(DaysAheadFrom(cal, today, 7).error) &&
                          forall d' :: today - 1 <= d' < d ==> GapAt(cal, d').None?
    ensures DaysAheadFrom(cal, today, 7).Ok? ==> IsDaysAhead(cal, today, DaysAheadFrom(cal, today, 7).value)
  {
    DaysAheadFromSpec(cal, today, 7);
  }

  /**
   * `__build_days_ahead`: for each offset from -1 to 6, the date `today + i` and
   * a copy of its entry for every service; a missing date or service is a KeyError.
   */
  method BuildDaysAhead(cal: Normalized, today: Date) returns (r: Result<map<int, DayAhead>, CalendarError>)
    ensures r == DaysAheadFrom(cal, today, 7)
  {
    var daysAhead: map<int, DayAhead> := map[];
    for i := -1 to 7
      invariant DaysAheadFrom(cal, today, i) == Ok(daysAhead)
    {
      var iDate := Util.DateMod(i, today);
      var tmpServices := CopyServices(cal, iDate);
      if tmpServices.Err? {
        r := Err(tmpServices.error);
        DaysAheadErrPersists(cal, today, i + 1);
        return;
      }
      daysAhead := daysAhead[i := DayAhead(iDate, tmpServices.value)];
    }
    r := Ok(daysAhead);
  }

  /** Once an offset has failed, the later offsets cannot undo it. */
  lemma {:induction false} DaysAheadErrPersists(cal: Normalized, today: Date, i: int)
    requires -1 <= i <= 7 && DaysAheadFrom(cal, today, i).Err?
    ensures DaysAheadFrom(cal, today, 7) == DaysAheadFrom(cal, today, i)
    decreases 7 - i
  {
    if i < 7 {
      DaysAheadErrPersists(cal, today, i + 1);
    }
  }

  /**
   * The scan keeps an entry unless its profile is present with type NORMAL_ACTIVE
   * or NORMAL_SUSPENDED; an absent profile counts as exceptional.
   */
  predicate Exceptional(e: Entry)
  {
    e.statusProfile.None? ||
    (e.statusProfile.value.exceptionType != NormalActive && e.statusProfile.value.exceptionType != NormalSuspended)
  }

  /** Service `t` has an exceptional entry on date `d`, which is not yesterday. */
  ghost predicate Candidate(cal: Normalized, today: Date, d: Date, t: ServiceType)
  {
    d in cal && d != today - 1 && t in cal[d] && Exceptional(cal[d][t])
  }

  /**
   * `r` is the next-exceptions view of `cal`: a service is a key exactly when it
   * has a candidate date, and its value is its entry on the earliest one.
   */
  ghost predicate IsNextExceptions(cal: Normalized, today: Date, r: map<ServiceType, Entry>)
  {
    (forall t :: t in r <==> exists d :: Candidate(cal, today, d, t)) &&
    forall t :: t in r ==>
      exists d :: Candidate(cal, today, d, t) && r[t] == cal[d][t] &&
                  forall d' :: Candidate(cal, today, d', t) ==> d <= d'
  }

  /** The view is determined by the calendar: at most one map satisfies it. */
  lemma NextExceptionsUnique(cal: Normalized, today: Date, r1: map<ServiceType, Entry>, r2: map<ServiceType, Entry>)
    requires IsNextExceptions(cal, today, r1) && IsNextExceptions(cal, today, r2)
    ensures r1 == r2
  {
    forall t | t in r1
      ensures t in r2 && r1[t] == r2[t]
    {
      var d1 :| Candidate(cal, today, d1, t) && r1[t] == cal[d1][t] &&
                forall d' :: Candidate(cal, today, d', t) ==> d1 <= d';
      var d2 :| Candidate(cal, today, d2, t) && r2[t] == cal[d2][t] &&
                forall d' :: Candidate(cal, today, d', t) ==> d2 <= d';
      assert d1 == d2;
    }
  }

  /** In a well-dated calendar no next exception is dated yesterday. */
  lemma NextExceptionsSkipYesterday(cal: Normalized, today: Date, r: map<ServiceType, Entry>)
    requires WellDated(cal) && IsNextExceptions(cal, today, r)
    ensures forall t :: t in r ==> r[t].date != today - 1
  {
    forall t | t in r
      ensures r[t].date != today - 1
    {
      var d :| Candidate(cal, today, d, t) && r[t] == cal[d][t] &&
               forall d' :: Candidate(cal, today, d', t) ==> d <= d';
    }
  }

  /** A nonempty finite set of dates has a least element. */
  lemma {:induction false} MinExists(s: set<Date>)
    requires s != {}
    ensures exists m :: m in s && forall x :: x in s ==> m <= x
  {
    if forall x :: x !in s { assert false; }
    var y :| y in s;
    var rest := s - {y};
    var m := y;
    if rest != {} {
      MinExists(rest);
      var m' :| m' in rest && forall x :: x in rest ==> m' <= x;
      if m' < y { m := m'; }
    }
    assert m in s;
    forall x | x in s
      ensures m <= x
    {
      if x != y {
        assert x in rest;
      }
    }
  }

  /**
   * What the scan knows once the dates in `done` are scanned: `at[t]` is the
   * date whose entry was recorded for `t`, and every candidate met so far is
   * recorded at that date or earlier.
   */
  ghost predicate Scanned(cal: Normalized, today: Date, done: set<Date>,
                          r: map<ServiceType, Entry>, at: map<ServiceType, Date>)
  {
    r.Keys == at.Keys &&
    (forall t :: t in r ==> at[t] in done && Candidate(cal, today, at[t], t) && r[t] == cal[at[t]][t]) &&
    (forall t, d :: d in done && Candidate(cal, today, d, t) ==> t in r && at[t] <= d)
  }

  /**
   * `__build_next_exceptions`: dates in increasing order (`sorted`), yesterday
   * skipped, and for each service the first exceptional entry met is kept.
   */
  method BuildNextExceptions(cal: Normalized, today: Date) returns (r: map<ServiceType, Entry>)
    ensures IsNextExceptions(cal, today, r)
  {
    r := map[];
    var remaining := cal.Keys;
    var yesterday := Util.DateMod(-1, today);
    ghost var done: set<Date> := {};
    ghost var at: map<ServiceType, Date> := map[];
    while remaining != {}
      invariant remaining !! done && remaining + done == cal.Keys
      invariant forall d, d' :: d in done && d' in remaining ==> d < d'
      invariant Scanned(cal, today, done, r, at)
      decreases |remaining|
    {
      MinExists(remaining);
      var date :| date in remaining && forall x :: x in remaining ==> date <= x;
      if date != yesterday {
        r, at := ScanDay(cal, today, date, done, r, at);
      } else {
        SkipYesterday(cal, today, date, done, r, at);
      }
      OrderStep(done, remaining, date);
      remaining := remaining - {date};
      done := done + {date};
    }
    ScannedAll(cal, today, r, at);
  }

  /** Moving the least remaining date to the scanned ones keeps them ordered. */
  lemma OrderStep(done: set<Date>, remaining: set<Date>, date: Date)
    requires date in remaining && forall x :: x in remaining ==> date <= x
    requires forall d, d' :: d in done && d' in remaining ==> d < d'
    ensures forall d, d' :: d in done + {date} && d' in remaining - {date} ==> d < d'
  {
  }

  /** Skipping yesterday's date records nothing and loses no candidate. */
  lemma SkipYesterday(cal: Normalized, today: Date, date: Date, done: set<Date>,
                      r: map<ServiceType, Entry>, at: map<ServiceType, Date>)
    requires date == today - 1
    requires Scanned(cal, today, done, r, at)
    ensures Scanned(cal, today, done + {date}, r, at)
  {
  }

  /** Once every date is scanned, the recorded map is the next-exceptions view. */
  lemma ScannedAll(cal: Normalized, today: Date, r: map<ServiceType, Entry>, at: map<ServiceType, Date>)
    requires Scanned(cal, today, cal.Keys, r, at)
    ensures IsNextExceptions(cal, today, r)
  {
    forall t | t in r
      ensures exists d :: Candidate(cal, today, d, t) && r[t] == cal[d][t] &&
                          forall d' :: Candidate(cal, today, d', t) ==> d <= d'
    {
      assert Candidate(cal, today, at[t], t);
    }
  }

  /**
   * The inner loop of the scan for one date: each service of the day not yet
   * recorded and exceptional here is recorded with this date.
   */
  method ScanDay(cal: Normalized, today: Date, date: Date, ghost done: set<Date>,
                 r0: map<ServiceType, Entry>, ghost at0: map<ServiceType, Date>)
    returns (r: map<ServiceType, Entry>, ghost at: map<ServiceType, Date>)
    requires date in cal && date != today - 1 && date !in done
    requires forall d :: d in done ==> d < date
    requires Scanned(cal, today, done, r0, at0)
    ensures Scanned(cal, today, done + {date}, r, at)
  {
    r, at := r0, at0;
    var services := cal[date];
    for k := 0 to |AllServiceTypes|
      invariant r.Keys == at.Keys
      invariant forall t :: t in r ==> at[t] in done + {date} && Candidate(cal, today, at[t], t) && r[t] == cal[at[t]][t]
      invariant forall t, d :: d in done && Candidate(cal, today, d, t) ==> t in r && at[t] <= d
      invariant forall j :: 0 <= j < k && Candidate(cal, today, date, AllServiceTypes[j]) ==>
                  AllServiceTypes[j] in r && at[AllServiceTypes[j]] <= date
      invariant forall t :: t in r ==> at[t] <= date
    {
      var svcType := AllServiceTypes[k];
      if svcType in services && svcType !in r && Exceptional(services[svcType]) {
        r := r[svcType := services[svcType]];
        at := at[svcType := date];
      }
    }
    ScanDayDone(cal, today, date, done, r, at);
  }

  /** After the last service of the day, every candidate on that day is recorded. */
  lemma ScanDayDone(cal: Normalized, today: Date, date: Date, done: set<Date>,
                    r: map<ServiceType, Entry>, at: map<ServiceType, Date>)
    requires r.Keys == at.Keys
    requires forall t :: t in r ==> at[t] in done + {date} && Candidate(cal, today, at[t], t) && r[t] == cal[at[t]][t]
    requires forall t, d :: d in done && Candidate(cal, today, d, t) ==> t in r && at[t] <= d
    requires forall j :: 0 <= j < |AllServiceTypes| && Candidate(cal, today, date, AllServiceTypes[j]) ==>
               AllServiceTypes[j] in r && at[AllServiceTypes[j]] <= date
    ensures Scanned(cal, today, done + {date}, r, at)
  {
    forall t, d | d in done + {date} && Candidate(cal, today, d, t)
      ensures t in r && at[t] <= d
    {
      if d == date {
        AllServiceTypesComplete(t);
        var j :| 0 <= j < |AllServiceTypes| && AllServiceTypes[j] == t;
      }
    }
  }

  /** One view of the calendar, as `get_calendar` returns it. */
  datatype View =
    | ByDateView(calendar: Normalized)
    | DaysAheadView(daysAhead: map<int, DayAhead>)
    | NextExceptionsView(nextExceptions: map<ServiceType, Entry>)

  /** The views to build: all three, in enum order, when none (or an empty list) is asked for. */
  function Requested(calendars: Option<seq<CalendarType>>): (req: seq<CalendarType>)
    ensures calendars.Some? && calendars.value != [] ==> req == calendars.value
    ensures calendars.None? || calendars.value == [] ==>
              |req| == 3 && forall c: CalendarType :: c in req
  {
    if calendars.None? || calendars.value == [] then
      AllCalendarTypes();
      [ByDate, DaysAhead, NextExceptions]
    else calendars.value
  }

  /** The three calendar types, listed in enum order. */
  lemma AllCalendarTypes()
    ensures forall c: CalendarType :: c in [ByDate, DaysAhead, NextExceptions]
  {
    forall c: CalendarType
      ensures c in [ByDate, DaysAhead, NextExceptions]
    {
      match c {
        case ByDate => assert [ByDate, DaysAhead, NextExceptions][0] == c;
        case DaysAhead => assert [ByDate, DaysAhead, NextExceptions][1] == c;
        case NextExceptions => assert [ByDate, DaysAhead, NextExceptions][2] == c;
      }
    }
  }

  /**
   * The dates `get_calendar` fetches: from yesterday to 90 days after it, a
   * window that holds every date the days-ahead view reads.
   */
  function FetchWindow(today: Date): (w: (Date, Date))
    ensures w.0 == today - 1 && w.1 - w.0 == 90
    ensures w.0 <= today - 1 && today + 6 <= w.1
  {
    var start := Util.DateMod(-1, today);
    (start, Util.DateMod(90, start))
  }

  /** `view` is the view of type `c` of `cal`. */
  ghost predicate IsView(cal: Normalized, today: Date, c: CalendarType, view: View)
  {
    match c
    case ByDate => view == ByDateView(cal)
    case DaysAhead => view.DaysAheadView? && IsDaysAhead(cal, today, view.daysAhead)
    case NextExceptions => view.NextExceptionsView? && IsNextExceptions(cal, today, view.nextExceptions)
  }

  /** `v` holds exactly the views in `req`, each the view of `cal` it names. */
  ghost predicate IsViews(cal: Normalized, today: Date, req: seq<CalendarType>, v: map<CalendarType, View>)
  {
    (forall c :: c in v <==> c in req) &&
    forall c :: c in v ==> IsView(cal, today, c, v[c])
  }

  /** One turn of the `get_calendar` loop: the view of type `c`, or the days-ahead KeyError. */
  method BuildView(cal: Normalized, today: Date, c: CalendarType) returns (r: Result<View, CalendarError>)
    ensures r.Err? <==> c == DaysAhead && DaysAheadFrom(cal, today, 7).Err?
    ensures r.Err? ==> r.error == DaysAheadFrom(cal, today, 7).error
    ensures r.Ok? ==> IsView(cal, today, c, r.value)
  {
    match c {
      case ByDate =>
        r := Ok(ByDateView(cal));
      case DaysAhead =>
        var daysAhead := BuildDaysAhead(cal, today);
        DaysAheadSpec(cal, today);
        if daysAhead.Err? {
          r := Err(daysAhead.error);
        } else {
          r := Ok(DaysAheadView(daysAhead.value));
        }
      case NextExceptions =>
        var next := BuildNextExceptions(cal, today);
        r := Ok(NextExceptionsView(next));
    }
  }

  /** The loop of `get_calendar` over the requested views, on the normalised calendar. */
  method BuildViews(cal: Normalized, today: Date, req: seq<CalendarType>)
    returns (r: Result<map<CalendarType, View>, CalendarError>)
    ensures r.Err? <==> DaysAhead in req && DaysAheadFrom(cal, today, 7).Err?
    ensures r.Err? ==> r.error == DaysAheadFrom(cal, today, 7).error
    ensures r.Ok? ==> IsViews(cal, today, req, r.value)
  {
    var resp: map<CalendarType, View> := map[];
    for k := 0 to |req|
      invariant IsViews(cal, today, req[..k], resp)
      invariant DaysAhead in req[..k] ==> DaysAheadFrom(cal, today, 7).Ok?
    {
      assert req[..k + 1] == req[..k] + [req[k]];
      var view := BuildView(cal, today, req[k]);
      if view.Err? {
        r := Err(view.error);
        return;
      }
      resp := resp[req[k] := view.value];
    }
    assert req[..|req|] == req;
    r := Ok(resp);
  }

  /**
   * `get_calendar`: fetch the window, normalise it, then build each requested
   * view. The fetch (`__call_api`) is the parameter `fetch`.
   */
  method GetCalendar(names: ServiceType -> string, parse: string -> Option<Date>, fetch: (Date, Date) -> seq<RawDay>,
                     today: Date, calendars: Option<seq<CalendarType>> := None, scrub: bool := false)
    returns (r: Result<map<CalendarType, View>, CalendarError>)
    ensures var norm := NormalizeSpec(names, parse, scrub, fetch(today - 1, today + 89));
            && (norm.Err? ==> r == Err(norm.error))
            && (norm.Ok? ==>
                  && (r.Err? <==> DaysAhead in Requested(calendars) && DaysAheadFrom(norm.value, today, 7).Err?)
                  && (r.Err? ==> r.error == DaysAheadFrom(norm.value, today, 7).error)
                  && (r.Ok? ==> IsViews(norm.value, today, Requested(calendars), r.value)))
  {
    var window := FetchWindow(today);
    var apiResp := Normalize(names, parse, scrub, fetch(window.0, window.1));
    if apiResp.Err? {
      r := Err(apiResp.error);
      return;
    }
    r := BuildViews(apiResp.value, today, Requested(calendars));
  }

  /** The days-ahead view has exactly eight offsets, -1 to 6. */
  lemma DaysAheadEightEntries(cal: Normalized, today: Date, m: map<int, DayAhead>)
    requires IsDaysAhead(cal, today, m)
    ensures m.Keys == {-1, 0, 1, 2, 3, 4, 5, 6}
    ensures forall j :: j in m ==> m[j].date == today + j
  {
    forall j
      ensures j in m.Keys <==> j in {-1, 0, 1, 2, 3, 4, 5, 6}
    {
      assert j in m <==> -1 <= j < 7;
    }
  }

  /**
   * A service whose earliest candidate date is `d` maps to its entry there;
   * two services with the same first exceptional date both appear.
   */
  lemma NextExceptionsFirst(cal: Normalized, today: Date, r: map<ServiceType, Entry>, t: ServiceType, d: Date)
    requires IsNextExceptions(cal, today, r)
    requires Candidate(cal, today, d, t) && forall d' :: Candidate(cal, today, d', t) ==> d <= d'
    ensures t in r && r[t] == cal[d][t]
  {
    var e :| Candidate(cal, today, e, t) && r[t] == cal[e][t] &&
             forall d' :: Candidate(cal, today, d', t) ==> e <= d';
    assert e == d;
  }

  /** A service with no exceptional entry on any date other than yesterday has no next exception. */
  lemma NextExceptionsAbsent(cal: Normalized, today: Date, r: map<ServiceType, Entry>, t: ServiceType)
    requires IsNextExceptions(cal, today, r)
    requires forall d :: d in cal && d != today - 1 && t in cal[d] ==> !Exceptional(cal[d][t])
    ensures t !in r
  {
  }

  /** An open-school item converts to a NORMAL_ACTIVE school entry with no reason. */
  lemma SchoolOpenItem(names: ServiceType -> string, date: Date, svc: string, status: string, details: Option<string>)
    requires svc == "Schools" && status == "OPEN"
    ensures ConvertItem(names, true, date, RawItem(Some(svc), Some(status), details, None))
            == Ok((School, Entry(names(School), Some(SchoolStatusMap(Open)), "", details, date)))
  {
    ServiceTypeRoundTrip(School);
    ParseRoundTrip(SchoolCode(Open));
  }

  /** A suspended-parking item for "Memorial Day (Observed) 2022" converts with its scrubbed reason. */
  lemma ParkingSuspendedItem(names: ServiceType -> string, date: Date, svc: string, status: string,
                             details: Option<string>, reason: string)
    requires svc == "Alternate Side Parking" && status == "SUSPENDED" && reason == "Memorial Day (Observed) 2022"
    ensures ConvertItem(names, true, date, RawItem(Some(svc), Some(status), details, Some(reason)))
            == Ok((Parking, Entry(names(Parking), Some(ParkingStatusMap(ParkingSuspended)), "Memorial Day",
                                  details, date)))
  {
    ServiceTypeRoundTrip(Parking);
    ParseRoundTrip(ParkingCode(ParkingSuspended));
    Util.ScrubMemorialDay(reason);
  }

  /**
   * A day from the raw response with a school that is open and parking that is
   * suspended for "Memorial Day (Observed) 2022", normalised with scrubbing:
   * the school entry is NORMAL_ACTIVE, the parking entry SUSPENDED with the
   * reason "Memorial Day".
   */
  lemma MemorialDayNormalizes(names: ServiceType -> string, parse: string -> Option<Date>, date: Date,
                              todayId: string, school: RawItem, parking: RawItem, days: seq<RawDay>)
    requires todayId == "20220519" && parse(todayId) == Some(date)
    requires school.itemType == Some("Schools") && school.status == Some("OPEN") && school.exceptionName.None?
    requires parking.itemType == Some("Alternate Side Parking") && parking.status == Some("SUSPENDED")
    requires parking.exceptionName == Some("Memorial Day (Observed) 2022")
    requires days == [RawDay(todayId, [school, parking])]
    ensures NormalizeSpec(names, parse, true, days).Ok?
    ensures var cal := NormalizeSpec(names, parse, true, days).value;
            && cal.Keys == {date} && cal[date].Keys == {School, Parking}
            && cal[date][School].statusProfile.Some?
            && cal[date][School].statusProfile.value.exceptionType == NormalActive
            && cal[date][School].exceptionReason == ""
            && cal[date][Parking].statusProfile.Some?
            && cal[date][Parking].statusProfile.value.exceptionType == SuspendedType
            && cal[date][Parking].exceptionReason == "Memorial Day"
  {
    assert SchoolStatusMap(Open).exceptionType == NormalActive;
    assert ParkingStatusMap(ParkingSuspended).exceptionType == SuspendedType;
    MemorialDayItems(names, date, school, parking);
    TwoItemDay(names, parse, true, date, todayId, school, parking, days);
    var es := ConvertItem(names, true, date, school).value.1;
    var ep := ConvertItem(names, true, date, parking).value.1;
    var cal := NormalizeSpec(names, parse, true, days).value;
    assert cal == map[date := map[School := es][Parking := ep]];
    assert cal[date][School] == es && cal[date][Parking] == ep;
  }

  /** A one-day response whose two items convert, for two different services. */
  lemma TwoItemDay(names: ServiceType -> string, parse: string -> Option<Date>, scrub: bool, date: Date,
                   todayId: string, a: RawItem, b: RawItem, days: seq<RawDay>)
    requires parse(todayId) == Some(date) && days == [RawDay(todayId, [a, b])]
    requires ConvertItem(names, scrub, date, a).Ok? && ConvertItem(names, scrub, date, b).Ok?
    ensures var ea := ConvertItem(names, scrub, date, a).value;
            var eb := ConvertItem(names, scrub, date, b).value;
            NormalizeSpec(names, parse, scrub, days) == Ok(map[date := map[ea.0 := ea.1][eb.0 := eb.1]])
  {
    var items := [a, b];
    var ea := ConvertItem(names, scrub, date, a).value;
    var eb := ConvertItem(names, scrub, date, b).value;
    assert items[..0] == [];
    DayEntriesStep(names, scrub, date, items, 0, map[]);
    DayEntriesStep(names, scrub, date, items, 1, map[ea.0 := ea.1]);
    assert items[..2] == items;
    var day := map[ea.0 := ea.1][eb.0 := eb.1];
    assert DayEntries(names, scrub, date, days[0].items) == Ok(day);
    assert days[..0] == [];
    assert NormalizeSpec(names, parse, scrub, days[..0]) == Ok(map[]);
  }

  /** The two items of the Memorial Day example, converted. */
  lemma MemorialDayItems(names: ServiceType -> string, date: Date, school: RawItem, parking: RawItem)
    requires school.itemType == Some("Schools") && school.status == Some("OPEN") && school.exceptionName.None?
    requires parking.itemType == Some("Alternate Side Parking") && parking.status == Some("SUSPENDED")
    requires parking.exceptionName == Some("Memorial Day (Observed) 2022")
    ensures var s := ConvertItem(names, true, date, school);
            && s.Ok? && s.value.0 == School && s.value.1.statusProfile == Some(SchoolStatusMap(Open))
            && s.value.1.exceptionReason == ""
    ensures var p := ConvertItem(names, true, date, parking);
            && p.Ok? && p.value.0 == Parking && p.value.1.statusProfile == Some(ParkingStatusMap(ParkingSuspended))
            && p.value.1.exceptionReason == "Memorial Day"
  {
    SchoolOpenItem(names, date, school.itemType.value, school.status.value, school.details);
    ParkingSuspendedItem(names, date, parking.itemType.value, parking.status.value, parking.details,
                         parking.exceptionName.value);
  }
}
