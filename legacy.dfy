/**
 * The oldest `CivCalAPI.get_calendar` of civcalnyc/civcalapi.py: each item of
 * a day replaces the whole entry of its date, so a date keeps a one-entry
 * dict for the last item seen on it, and a day without items adds nothing.
 */
module Legacy {
  import opened Wrappers
  import opened Wire

  /** `Status`; `UNKNOWN` is declared but no table row carries it. */
  datatype Status = Unknown | InEffect | OnSchedule | Open | PartlyOpen | NotInSession | Suspended | Closed

  /** `EventType`; `UNKNOWN` is declared but no table row carries it. */
  datatype EventType = UnknownEvent | Park | School | Trash

  /** The `id` column of `KNOWN_STATUSES[raw]`, if `raw` is a key. */
  function StatusOf(raw: string): Option<Status>
  {
    if raw == "IN EFFECT" then Some(InEffect)
    else if raw == "ON SCHEDULE" then Some(OnSchedule)
    else if raw == "OPEN" then Some(Open)
    else if raw == "PARTLY OPEN" then Some(PartlyOpen)
    else if raw == "NOT IN SESSION" then Some(NotInSession)
    else if raw == "NOT IN EFFECT" then Some(NotInSession)
    else if raw == "SUSPENDED" then Some(Suspended)
    else if raw == "CLOSED" then Some(Closed)
    else None
  }

  /** The `id` column of `KNOWN_EVENT_TYPES[raw]`, if `raw` is a key. */
  function EventTypeOf(raw: string): Option<EventType>
  {
    if raw == "Alternate Side Parking" then Some(Park)
    else if raw == "Collections" then Some(Trash)
    else if raw == "Schools" then Some(School)
    else None
  }

  /**
   * The status table: eight keys onto seven ids, "NOT IN SESSION" and
   * "NOT IN EFFECT" both onto `NOT_IN_SESSION`, and never `UNKNOWN`.
   */
  lemma StatusTable(raw: string)
    ensures StatusOf(raw) == Some(NotInSession) <==> raw == "NOT IN SESSION" || raw == "NOT IN EFFECT"
    ensures StatusOf(raw) != Some(Unknown)
    ensures StatusOf(raw).Some? <==>
              raw in {"IN EFFECT", "ON SCHEDULE", "OPEN", "PARTLY OPEN", "NOT IN SESSION", "NOT IN EFFECT", "SUSPENDED", "CLOSED"}
  {
  }

  /** The event table: the three raw types onto PARK, TRASH and SCHOOL, and never `UNKNOWN`. */
  lemma EventTypeTable(raw: string)
    ensures EventTypeOf(raw) == Some(Park) <==> raw == "Alternate Side Parking"
    ensures EventTypeOf(raw) == Some(Trash) <==> raw == "Collections"
    ensures EventTypeOf(raw) == Some(School) <==> raw == "Schools"
    ensures EventTypeOf(raw) != Some(UnknownEvent)
  {
  }

  /** `{"status_id": ..., "explanation": ...}`. */
  datatype Entry = Entry(statusId: Status, explanation: string)

  /** The value stored under a date: the dict `{event_type_id: entry}`. */
  type Day = map<EventType, Entry>

  /** The ways the loop fails. */
  datatype ApiError =
    | UnexpectedEntry          // any failure while reading an item
    | MalformedDate(raw: string)  // ValueError from strptime on today_id

  /**
   * The `try` block for one item: its event type and entry, or
   * `UnexpectedEntry` when the type or status is missing or unknown or the
   * details are missing.
   */
  function ItemEntry(item: RawItem): (r: Result<(EventType, Entry), ApiError>)
    ensures r.Err? ==> r.error == UnexpectedEntry
    ensures r.Ok? <==>
              && item.itemType.Some? && EventTypeOf(item.itemType.value).Some?
              && item.status.Some? && StatusOf(item.status.value).Some?
              && item.details.Some?
    ensures r.Ok? ==> r.value.0 != UnknownEvent && r.value.1.statusId != Unknown
    ensures r.Ok? ==> r.value == (EventTypeOf(item.itemType.value).value,
                                  Entry(StatusOf(item.status.value).value, item.details.value))
  {
    if item.itemType.None? || item.status.None? || item.details.None? then Err(UnexpectedEntry)
    else
      match EventTypeOf(item.itemType.value)
      case None => Err(UnexpectedEntry)
      case Some(t) =>
        match StatusOf(item.status.value)
        case None => Err(UnexpectedEntry)
        case Some(st) => Ok((t, Entry(st, item.details.value)))
  }

  /** The item converts. */
  predicate ItemConverts(item: RawItem)
  {
    ItemEntry(item).Ok?
  }

  /** The single-entry dict the item stores under its date. */
  function Single(item: RawItem): (d: Day)
    requires ItemConverts(item)
    ensures |d| == 1
    ensures forall t :: t in d ==> t != UnknownEvent && d[t].statusId != Unknown
  {
    var p := ItemEntry(item).value;
    map[p.0 := p.1]
  }

  /** `resp_dict` after the inner loop has run over `items` of the date `date`. */
  function DayFold(resp: map<Date, Day>, date: Date, items: seq<RawItem>): Result<map<Date, Day>, ApiError>
  {
    if |items| == 0 then Ok(resp)
    else
      match DayFold(resp, date, items[..|items| - 1])
      case Err(e) => Err(e)
      case Ok(r) =>
        match ItemEntry(items[|items| - 1])
        case Err(e) => Err(e)
        case Ok(p) => Ok(r[date := map[p.0 := p.1]])
  }

  /** `resp_dict` after the outer loop has run over `days`. */
  function LegacySpec(parse: string -> Option<Date>, days: seq<RawDay>): Result<map<Date, Day>, ApiError>
  {
    if |days| == 0 then Ok(map[])
    else
      match LegacySpec(parse, days[..|days| - 1])
      case Err(e) => Err(e)
      case Ok(resp) =>
        var day := days[|days| - 1];
        match parse(day.todayId)
        case None => Err(MalformedDate(day.todayId))
        case Some(date) => DayFold(resp, date, day.items)
  }

  /** Once an item has failed, the rest of the day cannot undo it. */
  lemma {:induction false} DayFoldErrPersists(resp: map<Date, Day>, date: Date, items: seq<RawItem>, k: nat)
    requires k <= |items| && DayFold(resp, date, items[..k]).Err?
    ensures DayFold(resp, date, items) == DayFold(resp, date, items[..k])
    decreases |items| - k
  {
    if k < |items| {
      assert items[..k + 1][..k] == items[..k];
      DayFoldErrPersists(resp, date, items, k + 1);
    } else {
      assert items[..k] == items;
    }
  }

  /** Once a day has failed, the later days cannot undo it. */
  lemma {:induction false} LegacyErrPersists(parse: string -> Option<Date>, days: seq<RawDay>, k: nat)
    requires k <= |days| && LegacySpec(parse, days[..k]).Err?
    ensures LegacySpec(parse, days) == LegacySpec(parse, days[..k])
    decreases |days| - k
  {
    if k < |days| {
      assert days[..k + 1][..k] == days[..k];
      LegacyErrPersists(parse, days, k + 1);
    } else {
      assert days[..k] == days;
    }
  }

  /** The inner loop succeeds exactly when every item converts. */
  lemma {:induction false} DayFoldOkIff(resp: map<Date, Day>, date: Date, items: seq<RawItem>)
    ensures DayFold(resp, date, items).Ok? <==> forall m :: 0 <= m < |items| ==> ItemConverts(items[m])
    decreases |items|
  {
    if |items| > 0 {
      var init := items[..|items| - 1];
      DayFoldOkIff(resp, date, init);
      assert forall m :: 0 <= m < |init| ==> init[m] == items[m];
      if DayFold(resp, date, items).Ok? {
        forall m | 0 <= m < |items| ensures ItemConverts(items[m]) {
          if m < |init| {
            assert init[m] == items[m];
          }
        }
      }
    }
  }

  /**
   * When the inner loop succeeds, it leaves `resp` as it was if there are no
   * items, and otherwise replaces the date's entry by the last item's
   * single-entry dict.
   */
  lemma DayFoldValue(resp: map<Date, Day>, date: Date, items: seq<RawItem>)
    requires DayFold(resp, date, items).Ok?
    ensures |items| == 0 ==> DayFold(resp, date, items).value == resp
    ensures |items| > 0 ==>
              ItemConverts(items[|items| - 1]) &&
              DayFold(resp, date, items).value == resp[date := Single(items[|items| - 1])]
  {
  }

  /** `DayFoldValue` read at one date `d`. */
  lemma DayFoldAt(resp: map<Date, Day>, date: Date, items: seq<RawItem>, d: Date)
    requires DayFold(resp, date, items).Ok?
    ensures var r := DayFold(resp, date, items).value;
            if d == date && |items| > 0 then
              ItemConverts(items[|items| - 1]) && d in r && r[d] == Single(items[|items| - 1])
            else
              (d in r <==> d in resp) && (d in r ==> r[d] == resp[d])
  {
    DayFoldValue(resp, date, items);
  }

  /** The items of all days whose date parses to `d`, in order. */
  function ItemsOn(parse: string -> Option<Date>, days: seq<RawDay>, d: Date): seq<RawItem>
  {
    if |days| == 0 then []
    else
      var day := days[|days| - 1];
      ItemsOn(parse, days[..|days| - 1], d) + (if parse(day.todayId) == Some(d) then day.items else [])
  }

  /** The day's date parses and all its items convert. */
  ghost predicate DayConverts(parse: string -> Option<Date>, day: RawDay)
  {
    parse(day.todayId).Some? && forall m :: 0 <= m < |day.items| ==> ItemConverts(day.items[m])
  }

  /** One more day of the outer loop. */
  lemma LegacyStep(parse: string -> Option<Date>, days: seq<RawDay>)
    requires |days| > 0
    ensures var init, last := days[..|days| - 1], days[|days| - 1];
            LegacySpec(parse, days) ==
            if LegacySpec(parse, init).Err? then LegacySpec(parse, init)
            else if parse(last.todayId).None? then Err(MalformedDate(last.todayId))
            else DayFold(LegacySpec(parse, init).value, parse(last.todayId).value, last.items)
  {
  }

  /** `LegacyStep` for a loop that succeeds. */
  lemma LegacyStepOk(parse: string -> Option<Date>, days: seq<RawDay>)
    requires |days| > 0
    ensures var init, last := days[..|days| - 1], days[|days| - 1];
            LegacySpec(parse, days).Ok? ==>
              LegacySpec(parse, init).Ok? && parse(last.todayId).Some? &&
              LegacySpec(parse, days) == DayFold(LegacySpec(parse, init).value, parse(last.todayId).value, last.items)
  {
  }

  /** The loop succeeds exactly when every date parses and every item converts. */
  lemma {:induction false} LegacyOkIff(parse: string -> Option<Date>, days: seq<RawDay>)
    ensures LegacySpec(parse, days).Ok? <==> forall k :: 0 <= k < |days| ==> DayConverts(parse, days[k])
    decreases |days|
  {
    if |days| > 0 {
      var init, last := days[..|days| - 1], days[|days| - 1];
      LegacyOkIff(parse, init);
      LegacyStep(parse, days);
      assert forall k :: 0 <= k < |init| ==> init[k] == days[k];
      if LegacySpec(parse, init).Ok? && parse(last.todayId).Some? {
        DayFoldOkIff(LegacySpec(parse, init).value, parse(last.todayId).value, last.items);
      }
      if forall k :: 0 <= k < |days| ==> DayConverts(parse, days[k]) {
        assert DayConverts(parse, last);
      }
      if LegacySpec(parse, days).Ok? {
        forall k | 0 <= k < |days| ensures DayConverts(parse, days[k]) {
          if k < |init| {
            assert init[k] == days[k];
          } else {
            assert k == |days| - 1;
          }
        }
      }
    }
  }

  /**
   * `r` holds a key for `d` exactly when `items` is not empty, and then the
   * single-entry dict of its last item.
   */
  ghost predicate StoredIn(r: map<Date, Day>, items: seq<RawItem>, d: Date)
  {
    (d in r <==> |items| > 0) &&
    (|items| > 0 ==> ItemConverts(items[|items| - 1]) && r[d] == Single(items[|items| - 1]))
  }

  /** After a successful loop, `d` is stored from the items that fall on it. */
  ghost predicate StoredAt(parse: string -> Option<Date>, days: seq<RawDay>, d: Date)
  {
    LegacySpec(parse, days).Ok? ==> StoredIn(LegacySpec(parse, days).value, ItemsOn(parse, days, d), d)
  }

  /**
   * When the loop succeeds, it holds a key for exactly the dates that have an
   * item, and under each the single-entry dict of the last item of that date:
   * every item overwrites the date's whole entry, and a day without items adds
   * nothing.
   */
  lemma LegacyContent(parse: string -> Option<Date>, days: seq<RawDay>)
    ensures forall d :: StoredAt(parse, days, d)
  {
    forall d ensures StoredAt(parse, days, d) {
      LegacyContentAt(parse, days, d);
    }
  }

  /** One inner loop keeps `StoredIn` for `d`, with the day's items added when it falls on `d`. */
  lemma DayFoldStored(resp: map<Date, Day>, date: Date, items: seq<RawItem>, items0: seq<RawItem>, d: Date)
    requires DayFold(resp, date, items).Ok? && StoredIn(resp, items0, d)
    ensures StoredIn(DayFold(resp, date, items).value, items0 + (if d == date then items else []), d)
  {
    DayFoldAt(resp, date, items, d);
    var all := items0 + (if d == date then items else []);
    if d == date && |items| > 0 {
      assert all[|all| - 1] == items[|items| - 1];
    } else {
      assert all == items0;
    }
  }

  /** `LegacyContent` for one date `d`. */
  lemma {:induction false} LegacyContentAt(parse: string -> Option<Date>, days: seq<RawDay>, d: Date)
    ensures StoredAt(parse, days, d)
    decreases |days|
  {
    if |days| > 0 && LegacySpec(parse, days).Ok? {
      var init, last := days[..|days| - 1], days[|days| - 1];
      LegacyStepOk(parse, days);
      LegacyContentAt(parse, init, d);
      var date := parse(last.todayId).value;
      DayFoldStored(LegacySpec(parse, init).value, date, last.items, ItemsOn(parse, init, d), d);
      assert ItemsOn(parse, days, d) == ItemsOn(parse, init, d) + (if d == date then last.items else []);
    }
  }

  /**
   * A day without items adds no key, but its date is still parsed: a date
   * that does not parse fails the loop all the same.
   */
  lemma EmptyDay(parse: string -> Option<Date>, days: seq<RawDay>, day: RawDay)
    requires day.items == [] && LegacySpec(parse, days).Ok?
    ensures parse(day.todayId).Some? ==> LegacySpec(parse, days + [day]) == LegacySpec(parse, days)
    ensures parse(day.todayId).None? ==> LegacySpec(parse, days + [day]) == Err(MalformedDate(day.todayId))
  {
    assert (days + [day])[..|days|] == days;
  }

  /** No stored entry has the `UNKNOWN` event type or status. */
  lemma {:induction false} NeverUnknown(parse: string -> Option<Date>, days: seq<RawDay>)
    requires LegacySpec(parse, days).Ok?
    ensures forall d, t :: d in LegacySpec(parse, days).value && t in LegacySpec(parse, days).value[d] ==>
              t != UnknownEvent && LegacySpec(parse, days).value[d][t].statusId != Unknown
  {
    forall d | d in LegacySpec(parse, days).value {
      LegacyContentAt(parse, days, d);
    }
  }

  /** The inner loop: every item of the day overwrites `resp_dict[cur_date]`. */
  method StoreItems(resp: map<Date, Day>, curDate: Date, items: seq<RawItem>)
    returns (r: Result<map<Date, Day>, ApiError>)
    ensures r == DayFold(resp, curDate, items)
  {
    var respDict := resp;
    for j := 0 to |items|
      invariant DayFold(resp, curDate, items[..j]) == Ok(respDict)
    {
      var item := items[j];
      assert items[..j + 1][..j] == items[..j];
      if || item.itemType.None? || EventTypeOf(item.itemType.value).None?
         || item.status.None? || StatusOf(item.status.value).None?
         || item.details.None? {
        r := Err(UnexpectedEntry);
        DayFoldErrPersists(resp, curDate, items, j + 1);
        return;
      }
      var eventTypeId := EventTypeOf(item.itemType.value).value;
      var statusId := StatusOf(item.status.value).value;
      var description := item.details.value;
      respDict := respDict[curDate := map[eventTypeId := Entry(statusId, description)]];
    }
    assert items[..|items|] == items;
    r := Ok(respDict);
  }

  /**
   * `get_calendar`: the response for the requested range, folded day by day.
   * `fetch` stands for the API call and its "days" list.
   */
  method GetCalendar(parse: string -> Option<Date>, fetch: (Date, Date) -> seq<RawDay>, startDate: Date, endDate: Date)
    returns (r: Result<map<Date, Day>, ApiError>)
    ensures r == LegacySpec(parse, fetch(startDate, endDate))
  {
    var days := fetch(startDate, endDate);
    var respDict: map<Date, Day> := map[];
    for i := 0 to |days|
      invariant LegacySpec(parse, days[..i]) == Ok(respDict)
    {
      var day := days[i];
      assert days[..i + 1][..i] == days[..i];
      var curDate := parse(day.todayId);
      if curDate.None? {
        r := Err(MalformedDate(day.todayId));
        LegacyErrPersists(parse, days, i + 1);
        return;
      }
      var stored := StoreItems(respDict, curDate.value, day.items);
      if stored.Err? {
        r := stored;
        LegacyErrPersists(parse, days, i + 1);
        return;
      }
      respDict := stored.value;
    }
    assert days[..|days|] == days;
    r := Ok(respDict);
  }
}
