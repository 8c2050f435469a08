# NYC 311 civic calendar, modelled in Dafny

This project models the calendar logic of a client library for the New York
City 311 public-services calendar. The API returns, day by day, the status of
three services: alternate side parking, sanitation collection and schools.
The library normalises this raw response into a calendar keyed by date and
service. It then derives three views from that calendar:
- the calendar itself, by date;
- a "days ahead" view from yesterday to six days ahead;
- a "next exceptions" view, which holds each service's next day that is not
  a normal one.

Three generations of the library are modelled, each in its own module:

- `Services` (services.py) holds the service enum and each service's status
  enum. It also holds each service's `status_map`, which maps a status to its
  name, its standardised type and its description.
- `Calendar` (nyc311calendar/\_\_init\_\_.py) is the current pipeline:
  - the normalisation loop, with its error paths;
  - the days-ahead view, which fails with the KeyError of the earliest gap;
  - the next-exceptions scan, which walks the dates in sorted order and
    skips yesterday;
  - the dispatch in `get_calendar`.
- `CivCal` (src/civcalnyc/civcalapi.py) is the previous pipeline, the class
  `CivCalAPI`:
  - its constructor builds the id-keyed tables `status_by_id` and
    `service_by_id`, whose fields become the class's fields;
  - the normalised calendar is an insertion-ordered dict, `Dicts.PyDict`;
  - the next-exceptions scan walks that order and raises `DateOrderException`
    for any date below the first one.
- `Legacy` (civcalnyc/civcalapi.py) is the oldest `get_calendar`. In it, each
  item replaces the whole entry of its date.
- `Util` (src/civcalnyc/util.py) holds two things:
  - `date_mod`, on integer day numbers;
  - `scrubber`, the regex substitution that removes "(Observed)" markers and
    four-digit years. It is written as a scanner whose match is proved to be
    the longest match of the pattern.
- `Dicts` models a Python dict whose key order matters. `Wire` holds the raw
  response records. `Wrappers` holds `Option`, `Result` and `Date`.

Loops written as loops in the source are modelled as methods with loop
invariants. Each such method is proved equal to a recursive specification
function:
- `NormalizeDay`/`Normalize` equal `DayEntries`/`NormalizeSpec`;
- `BuildDaysAhead` equals `DaysAheadFrom`;
- `StoreItems` equals `DayFold`.

The properties the source promises are proved as lemmas about these
functions. For the nyc next-exceptions scan, `BuildNextExceptions` is proved
to meet the declarative `IsNextExceptions`, which says: the earliest candidate
date per service, yesterday excluded. `NextExceptionsUnique` shows that this
specification has at most one solution.

Several things the library reads from outside are parameters of the model:
- the date parser (`strptime` on `today_id`) is `parse: string -> Option<Date>`;
- today's date is an integer `today`;
- the HTTP call is `fetch: (Date, Date) -> seq<RawDay>`, which gives the
  response's "days" list;
- the nyc `service_name` string is `names: ServiceType -> string`.

## Model

| member | source | states |
|---|---|---|
| Util.DateMod | src/civcalnyc/util.py:14-18 | `date_mod`: the date `num_days` days after `p_date`, on unbounded day numbers; its laws are the three lemmas below |
| Util.DateModZero | src/civcalnyc/util.py:14-18 | moving a date by zero days leaves it unchanged |
| Util.DateModCompose | src/civcalnyc/util.py:14-18 | a move by `b` days and then by `a` days is one move by `a + b` days |
| Util.DateModInverse | src/civcalnyc/util.py:14-18 | moving back by `n` undoes moving by `n`; a move keeps dates in order |
| Util.SpacesFrom | src/civcalnyc/util.py:26-27 | the greedy ` *` consumes only blanks and stops before a non-blank |
| Util.MatchEnd | src/civcalnyc/util.py:26-27 | where a match of the pattern starting at `i` ends (no match: `i`), within the string |
| Util.ScrubFrom | src/civcalnyc/util.py:26-27 | scrubbing the rest of the string never makes it longer |
| Util.Scrub | src/civcalnyc/util.py:26-27 | `re.sub` of the pattern by "": never longer than its input |
| Util.Scrubber | src/civcalnyc/util.py:21-27 | `None` stays `None`; a string is scrubbed and never gets longer |
| Util.SpacesFromExactly | src/civcalnyc/util.py:26-27 | the blank run from `i` stops exactly at the first non-blank |
| Util.SpacesFromAtLeast | src/civcalnyc/util.py:26-27 | the greedy ` *` reaches past every blank run starting at `i` |
| Util.MatchEndSound | src/civcalnyc/util.py:26-27 | a match found by the scanner is a match of ` *\(Observed\) *\| *\d{4} *`, with its trailing blanks taken greedily |
| Util.MatchEndLongest | src/civcalnyc/util.py:26-27 | no match of the pattern at `i` ends after the scanner's |
| Util.MatchEndIsLongestMatch | src/civcalnyc/util.py:26-27 | the scanner finds the longest match at `i`, and finds none exactly when the pattern cannot match there |
| Util.ScrubFromIsSubsequence | src/civcalnyc/util.py:26-27 | scrubbing from `i` only deletes characters of `s[i..]` |
| Util.ScrubIsSubsequence | src/civcalnyc/util.py:26-27 | the scrubbed name is obtained from the name by deleting characters only |
| Util.ScrubFromNoMarker | src/civcalnyc/util.py:26-27 | where the text has no digit and no "(Observed)", it is copied from `i` on |
| Util.ScrubNoMarker | src/civcalnyc/util.py:26-27 | a name with no digit and no "(Observed)" is returned unchanged |
| Util.NoMatchAtPlain | src/civcalnyc/util.py:26-27 | no match starts at a character neither alternative can begin with, nor at a blank before one |
| Util.ScrubFromKeeps | src/civcalnyc/util.py:26-27 | where no match starts, the character is kept |
| Util.ScrubFromPlainRun | src/civcalnyc/util.py:26-27 | a run of plain text is copied as it is |
| Util.ScrubFromObservedYear | src/civcalnyc/util.py:26-27 | " (Observed) YYYY" at the end of the text is deleted in full |
| Util.ScrubObservedYearSuffix | src/civcalnyc/util.py:21-27 | a plain holiday name followed by " (Observed) YYYY" scrubs to the bare name |
| Util.ChristmasTail | src/civcalnyc/util.py:21-22 | where the marker and the year sit in "Christmas Day (Observed) 2021" |
| Util.ScrubChristmas | src/civcalnyc/util.py:21-27 | the docstring's example: "Christmas Day (Observed) 2021" becomes "Christmas Day" |
| Util.MemorialDayTail | src/civcalnyc/util.py:26-27 | where the marker and the year sit in "Memorial Day (Observed) 2022" |
| Util.ScrubMemorialDay | src/civcalnyc/util.py:21-27 | "Memorial Day (Observed) 2022" becomes "Memorial Day" |
| Util.ScrubDigitRun | src/civcalnyc/util.py:26-27 | matches are leftmost-first and do not overlap: "12345" becomes "5" |
| Util.ScrubNotIdempotent | src/civcalnyc/util.py:26-27 | one pass can leave a new match behind: "1(Observed)234" becomes "1234", which scrubs again to "" |
| Services.ServiceTypeOf | nyc311calendar/services.py:10-17 | `ServiceType(raw)`: a result's value is `raw`; the result is None exactly when no member has the value `raw` |
| Services.ServiceValueInjective | nyc311calendar/services.py:10-17 | two services share a value only when they are the same service |
| Services.ServiceTypeRoundTrip | nyc311calendar/services.py:10-17 | looking a service up by its own value gives it back |
| Services.AllServiceTypesComplete | nyc311calendar/services.py:10-17 | enum iteration lists each of the three services exactly once |
| Services.ExceptionTypeValue | nyc311calendar/services.py:48-58 | the values are 1 to 7 or 99, and 99 is exactly REMOTE |
| Services.ParseStatus | nyc311calendar/services.py:64-76 | `svc.StatusType(raw)`: a result belongs to `svc` and has the value `raw`; the result is None exactly when no status of `svc` has that value |
| Services.StatusValueInjective | nyc311calendar/services.py:137-148 | within one service, two statuses share a raw string only when they are the same status |
| Services.ParseRoundTrip | nyc311calendar/services.py:215-223 | parsing a status's own string under its own service gives the status back |
| Services.Resolve | nyc311calendar/__init__.py:147-165 | `status_map[StatusType(raw)]`: a detail is that of a status of `svc` whose value is `raw`; the result is None exactly when `svc` has no such status |
| Services.SchoolTable | nyc311calendar/services.py:78-119 | the school table by standardised type, each in both directions. NORMAL_ACTIVE is exactly OPEN. SUSPENDED is CLOSED or NOT IN SESSION. PARTIAL is PARTLY OPEN or STAFF ONLY. REMOTE is REMOTE ONLY. UNSURE is NO INFORMATION or TENTATIVE |
| Services.SanitationTable | nyc311calendar/services.py:150-197 | the sanitation table by standardised type, in both directions. ON SCHEDULE is NORMAL_ACTIVE and NOT IN EFFECT is NORMAL_SUSPENDED. SUSPENDED is SUSPENDED and DELAYED is DELAYED. PARTIAL is the two compost/legacy-trash codes. UNSURE is NO INFORMATION |
| Services.ParkingTable | nyc311calendar/services.py:225-248 | the parking table by standardised type, in both directions: IN EFFECT, NOT IN EFFECT, SUSPENDED and NO INFORMATION |
| Services.Detail | nyc311calendar/__init__.py:152-165 | `status_map[status_type]` in the table of the code's own service; its standardised type is the type column `KindOf` gives the code |
| Services.RecessAndRemote | nyc311calendar/services.py:48-58 | no table yields RECESS; only the school's REMOTE ONLY yields REMOTE (stated on the type column, which `Detail`'s contract ties to the detail) |
| Services.SuspendedResolvesPerService | nyc311calendar/services.py:137-248 | "SUSPENDED" is no school status. Under parking and under sanitation it resolves to that service's own, different detail |
| Services.NotInEffectResolvesPerService | nyc311calendar/services.py:137-248 | "NOT IN EFFECT" is no school status, and parking and sanitation resolve it differently |
| Services.NoInformationSameForSchoolAndParking | nyc311calendar/services.py:78-248 | "NO INFORMATION" resolves to the same detail for schools and for parking |
| Services.NoInformationDiffersForSanitation | nyc311calendar/services.py:150-248 | "NO INFORMATION" resolves differently for sanitation than for parking |
| Services.ServiceName | nyc311calendar/services.py:121-260 | the `name` property of each service class: "Parking", "School", "Sanitation"; no loop reads it |
| Services.ExceptionName | nyc311calendar/services.py:121-260 | the `exception_name` property of each service class: "Rule Suspension", "Closure", "Collection Suspension"; no loop reads it |
| Services.ServiceNamesDistinct | nyc311calendar/services.py:121-260 | the display names, and the exception names, of different services differ |
| Calendar.ExceptionReason | nyc311calendar/__init__.py:141-144 | an absent reason becomes ""; a present one is kept, or scrubbed on request; it never gets longer |
| Calendar.ConvertItem | nyc311calendar/__init__.py:137-189 | a missing "type" or "status" raises UnexpectedEntry. An unknown type, or a status unknown to its service, raises the enum's ValueError on that string. The item converts exactly when its type and its status are known to that service. The entry then holds the service, its `status_map` detail, the reason, the details and the date |
| Calendar.NormalizeSpec | nyc311calendar/__init__.py:129-195 | the whole response folded into `resp_dict`, with the first error raised |
| Calendar.DayEntriesErrPersists | nyc311calendar/__init__.py:136-177 | after an item fails, the rest of the day leaves the error unchanged |
| Calendar.NormalizeErrPersists | nyc311calendar/__init__.py:129-195 | after a day fails, later days leave the error unchanged |
| Calendar.DayEntriesStep | nyc311calendar/__init__.py:136-189 | one more item either sets `day_dict[service]` to its entry or raises its error |
| Calendar.NormalizeDay | nyc311calendar/__init__.py:136-189 | the inner loop computes `DayEntries` |
| Calendar.Normalize | nyc311calendar/__init__.py:129-195 | the outer loop computes `NormalizeSpec` |
| Calendar.LastItemOf | nyc311calendar/__init__.py:136-189 | the index of the last item of a service, with no later item of that service |
| Calendar.LastDayOf | nyc311calendar/__init__.py:130-191 | the index of the last day whose date parses to `d`, with no later such day |
| Calendar.ConvertItemOk | nyc311calendar/__init__.py:137-177 | an item converts exactly when its type and status are present and known |
| Calendar.DayEntries | nyc311calendar/__init__.py:135-189 | the inner loop's `day_dict` after the items, or the error of the first item that does not convert; characterised by the `DayEntries*` lemmas |
| Calendar.DayEntriesOkIff | nyc311calendar/__init__.py:136-177 | a day folds without error exactly when every item converts |
| Calendar.AllConvertSplit | nyc311calendar/__init__.py:136-177 | every item converts exactly when every item but the last does, and the last does too |
| Calendar.DayEntriesFirstError | nyc311calendar/__init__.py:136-177 | a failing day raises the error of its first item that does not convert |
| Calendar.DayEntriesContent | nyc311calendar/__init__.py:136-191 | the day holds a service exactly when some item is of it, with the entry of its last such item |
| Calendar.NormalizeOkIff | nyc311calendar/__init__.py:129-195 | normalisation succeeds exactly when every date parses and every item converts |
| Calendar.AllDaysConvertSplit | nyc311calendar/__init__.py:129-195 | every day converts exactly when every day but the last does, and the last does too |
| Calendar.NormalizeFirstError | nyc311calendar/__init__.py:129-195 | normalisation fails with the error of the first day that fails |
| Calendar.NormalizeContent | nyc311calendar/__init__.py:129-195 | the keys are exactly the parsed dates. Each holds the entries of the last day with that date |
| Calendar.DayEntriesWellDated | nyc311calendar/__init__.py:179-189 | every entry of a day carries that day's date and a status profile |
| Calendar.NormalizeWellDated | nyc311calendar/__init__.py:129-195 | every entry of the calendar carries its own key as its date |
| Calendar.DayComplete | nyc311calendar/__init__.py:205-209 | a day holds every service exactly when it holds parking, school and sanitation |
| Calendar.GapAt | nyc311calendar/__init__.py:197-212 | the KeyError for a date: none exactly when the date and all its services are present; the date itself is checked first, then the services in enum order, parking, school, sanitation |
| Calendar.CopyServices | nyc311calendar/__init__.py:205-209 | copying a date's services fails exactly when it has a gap, with that gap's KeyError; otherwise it yields the date's entries |
| Calendar.DaysAheadFromSpec | nyc311calendar/__init__.py:197-212 | the loop over a prefix of the offsets meets `PrefixFacts`: it fails exactly when some date has a gap, with the earliest gap's error. Otherwise each offset holds its date and services |
| Calendar.PrefixStep | nyc311calendar/__init__.py:197-212 | one more offset keeps `PrefixFacts`, whether the loop keeps its earlier error, fails on the new date's gap or adds that date's entry |
| Calendar.DaysAheadFrom | nyc311calendar/__init__.py:197-212 | the days-ahead loop over the offsets -1 up to `i - 1`: the KeyError of the first gap, or the offsets' dates and services; characterised by `DaysAheadFromSpec` |
| Calendar.DaysAheadSpec | nyc311calendar/__init__.py:197-212 | the view fails exactly when a date from yesterday to six days ahead is missing or lacks a service, with the earliest such KeyError. Otherwise it is the eight-day view |
| Calendar.BuildDaysAhead | nyc311calendar/__init__.py:197-212 | the loop computes `DaysAheadFrom` over all eight offsets |
| Calendar.DaysAheadErrPersists | nyc311calendar/__init__.py:201-209 | after an offset fails, later offsets leave the error unchanged |
| Calendar.IsNextExceptions | nyc311calendar/__init__.py:214-245 | the declarative view: a service is a key exactly when it has a candidate date (not yesterday, profile absent or exceptional), and it holds its entry on the least such date |
| Calendar.NextExceptionsUnique | nyc311calendar/__init__.py:214-245 | the next-exceptions specification has at most one solution |
| Calendar.NextExceptionsSkipYesterday | nyc311calendar/__init__.py:221-223 | no next exception is dated yesterday |
| Calendar.MinExists | nyc311calendar/__init__.py:219 | a nonempty set of dates has a least one, the first in `sorted` order |
| Calendar.BuildNextExceptions | nyc311calendar/__init__.py:214-245 | the scan keeps, per service, the entry on the earliest date other than yesterday whose profile is absent or not NORMAL_ACTIVE/NORMAL_SUSPENDED, and only services having one |
| Calendar.OrderStep | nyc311calendar/__init__.py:219 | taking the least remaining date keeps the scanned dates below the remaining ones |
| Calendar.SkipYesterday | nyc311calendar/__init__.py:222-223 | skipping yesterday records nothing and misses no candidate |
| Calendar.ScannedAll | nyc311calendar/__init__.py:214-245 | once every date is scanned, the recorded map is the next-exceptions view |
| Calendar.ScanDay | nyc311calendar/__init__.py:228-241 | one date's loop records each service not yet recorded that is exceptional on it, keeping the scan invariant |
| Calendar.ScanDayDone | nyc311calendar/__init__.py:228-241 | after the last service of a date, all its candidates are recorded |
| Calendar.Requested | nyc311calendar/__init__.py:87-92 | a nonempty request is kept; none or an empty list asks for all three views |
| Calendar.AllCalendarTypes | nyc311calendar/__init__.py:44-49 | the three calendar types, listed in enum order |
| Calendar.FetchWindow | nyc311calendar/__init__.py:96-97 | the fetch runs from yesterday to 90 days after it, covering every date the days-ahead view reads |
| Calendar.BuildView | nyc311calendar/__init__.py:100-108 | one view: it fails only for DAYS_AHEAD, with its KeyError; otherwise it is the requested view |
| Calendar.BuildViews | nyc311calendar/__init__.py:100-108 | the views fail exactly when DAYS_AHEAD is requested and fails; otherwise the result is keyed by exactly the requested types |
| Calendar.GetCalendar | nyc311calendar/__init__.py:80-114 | the whole call, with `calendars` defaulting to None and `scrub` to false: a normalisation error is raised; otherwise it builds the requested (or default) views of the fetched window |
| Calendar.DaysAheadEightEntries | nyc311calendar/__init__.py:201-209 | the days-ahead view has exactly the offsets -1 to 6, each dated `today + i` |
| Calendar.NextExceptionsFirst | nyc311calendar/__init__.py:214-245 | a service maps to its entry on its earliest candidate date, so two services with the same first date both appear |
| Calendar.NextExceptionsAbsent | nyc311calendar/__init__.py:228-241 | a service with no exceptional entry on any date other than yesterday has no next exception |
| Calendar.SchoolOpenItem | nyc311calendar/__init__.py:147-189 | an open-school item becomes a NORMAL_ACTIVE school entry with reason "" |
| Calendar.ParkingSuspendedItem | nyc311calendar/__init__.py:141-189 | a suspended-parking item for "Memorial Day (Observed) 2022" gets the scrubbed reason "Memorial Day" |
| Calendar.MemorialDayNormalizes | nyc311calendar/__init__.py:129-195 | a one-day response with these two items normalises to school NORMAL_ACTIVE and parking SUSPENDED "Memorial Day" |
| Calendar.TwoItemDay | nyc311calendar/__init__.py:129-195 | a one-day response of two converting items normalises to both entries under its date |
| Calendar.MemorialDayItems | nyc311calendar/__init__.py:137-189 | the two Memorial Day items convert to their services' entries |
| Dicts.Empty | src/civcalnyc/civcalapi.py:159 | `{}` is a valid dict with no keys |
| Dicts.Put | src/civcalnyc/civcalapi.py:177-183 | `d[k] = v`: a new key goes last and a present key keeps its place; the dict stays valid |
| Dicts.PutKeepsOrder | src/civcalnyc/civcalapi.py:177-183 | an assignment never moves a key that was already there |
| CivCal.StatusNumber | src/civcalnyc/civcalapi.py:22-31 | `Status` values lie in 1..7 |
| CivCal.ServiceNumber | src/civcalnyc/civcalapi.py:33-38 | `ServiceType` values lie in 1..3 |
| CivCal.NumbersInjective | src/civcalnyc/civcalapi.py:22-38 | different members have different enum values |
| CivCal.FindStatus | src/civcalnyc/civcalapi.py:43-76 | `KNOWN_STATUSES[raw]`: the record stored under `raw`, or none; `FindStatusAgrees` ties it to the table |
| CivCal.FindStatusAgrees | src/civcalnyc/civcalapi.py:43-76 | `KNOWN_STATUSES[raw]` finds the row with key `raw`, and fails exactly when there is none |
| CivCal.FindService | src/civcalnyc/civcalapi.py:77-93 | `KNOWN_SERVICES[raw]`: the record stored under `raw`, or none; `FindServiceAgrees` ties it to the table |
| CivCal.FindServiceAgrees | src/civcalnyc/civcalapi.py:77-93 | `KNOWN_SERVICES[raw]` finds the row with key `raw`, and fails exactly when there is none |
| CivCal.KnownKeysDistinct | src/civcalnyc/civcalapi.py:43-93 | the keys of both tables are distinct |
| CivCal.StatusIndex | src/civcalnyc/civcalapi.py:104-109 | `status_by_id` after the constructor's loop over the rows, the last row for an id winning; `StatusIndexStep` and `KnownStatusIndex` state it |
| CivCal.ServiceIndex | src/civcalnyc/civcalapi.py:111-116 | `service_by_id` after the constructor's loop over the rows, the last row for an id winning; `ServiceIndexStep` and `KnownServiceIndex` state it |
| CivCal.StatusIndexStep | src/civcalnyc/civcalapi.py:104-109 | one more status row sets `status_by_id[id]` to its name and `is_exception` |
| CivCal.ServiceIndexStep | src/civcalnyc/civcalapi.py:111-116 | one more service row sets `service_by_id[id]` to its names |
| CivCal.KnownStatusIndex | src/civcalnyc/civcalapi.py:104-109 | the `status_by_id` the constructor builds, written out; NOT_IN_SESSION is named "Not In Effect" |
| CivCal.KnownServiceIndex | src/civcalnyc/civcalapi.py:111-116 | the `service_by_id` the constructor builds, written out |
| CivCal.StatusNameOf | src/civcalnyc/civcalapi.py:104-109 | `status_by_id[id]` written out: every status has a record in the `status_by_id` the loop builds, and it is this one |
| CivCal.ServiceNameOf | src/civcalnyc/civcalapi.py:111-116 | `service_by_id[id]` written out: every service has a record in the `service_by_id` the loop builds, and it is this one |
| CivCal.ExceptionNameOf | src/civcalnyc/civcalapi.py:171-173 | an absent name stays absent; a present one is kept, or scrubbed on request |
| CivCal.ConvertItem | src/civcalnyc/civcalapi.py:166-183 | every error is UnexpectedEntry. The item converts exactly when its type and status are known and it has details. The entry holds the service's name, the status id and name, the details and the exception name |
| CivCal.NormalizeSpec | src/civcalnyc/civcalapi.py:159-185 | a successful result is a valid ordered dict |
| CivCal.DayEntriesErrPersists | src/civcalnyc/civcalapi.py:166-175 | after an item fails, the rest of the day leaves the error unchanged |
| CivCal.NormalizeErrPersists | src/civcalnyc/civcalapi.py:159-185 | after a day fails, later days leave the error unchanged |
| CivCal.DayEntriesStep | src/civcalnyc/civcalapi.py:166-183 | one more item sets `day_dict[id]` or raises UnexpectedEntry |
| CivCal.ServiceRowsAgree | src/civcalnyc/civcalapi.py:77-116 | each service row's record is the one `service_by_id` keeps |
| CivCal.StatusRowsAgree | src/civcalnyc/civcalapi.py:43-109 | every row's `is_exception` survives in `status_by_id`. Its name survives too, except for "NOT IN SESSION", which the later "NOT IN EFFECT" row overwrote |
| CivCal.StatusRowAgrees | src/civcalnyc/civcalapi.py:43-109 | the same, for one row |
| CivCal.ExceptionStatuses | src/civcalnyc/civcalapi.py:43-76 | `is_exception` holds for exactly "PARTLY OPEN", "SUSPENDED" and "CLOSED" |
| CivCal.ConvertItemNames | src/civcalnyc/civcalapi.py:166-183 | an entry carries its service's name. Its status name is the row's own name exactly when the status is not "NOT IN SESSION" |
| CivCal.ConvertItemOk | src/civcalnyc/civcalapi.py:166-175 | whether an item converts does not depend on scrubbing |
| CivCal.LastItemOf | src/civcalnyc/civcalapi.py:166-183 | the index of the last item of a service |
| CivCal.LastDayOf | src/civcalnyc/civcalapi.py:160-185 | the index of the last day with a given date |
| CivCal.FirstDayOf | src/civcalnyc/civcalapi.py:160-185 | the index of the first day with a given date, with no earlier such day |
| CivCal.DayEntries | src/civcalnyc/civcalapi.py:165-182 | the inner loop's `day_dict` after the items, or UnexpectedEntry at the first item that does not convert; characterised by the `DayEntries*` lemmas |
| CivCal.DayEntriesOkIff | src/civcalnyc/civcalapi.py:166-175 | a day folds without error exactly when every item converts |
| CivCal.DayEntriesFirstError | src/civcalnyc/civcalapi.py:166-175 | a failing day raises UnexpectedEntry at its first bad item |
| CivCal.DayEntriesContent | src/civcalnyc/civcalapi.py:166-183 | the day holds a service exactly when some item is of it, with the entry of its last item |
| CivCal.NormalizeStep | src/civcalnyc/civcalapi.py:159-185 | one more day either assigns `resp_dict[cur_date] = day_dict` or fails |
| CivCal.NormalizeOkIff | src/civcalnyc/civcalapi.py:159-185 | normalisation succeeds exactly when every date parses and every item converts |
| CivCal.NormalizeFirstError | src/civcalnyc/civcalapi.py:159-185 | normalisation fails with the first failing day's error |
| CivCal.NormalizeContent | src/civcalnyc/civcalapi.py:159-185 | the keys are the parsed dates, each with the entries of its last day |
| CivCal.FirstDayStep | src/civcalnyc/civcalapi.py:160-185 | one more day keeps a date's first day, or makes it the first |
| CivCal.NormalizeKeyOrder | src/civcalnyc/civcalapi.py:159-185 | the keys stand in the order of their dates' first days: a repeated date keeps its place |
| CivCal.NormalizeFirstKey | src/civcalnyc/civcalapi.py:159-185 | the first key is the first day's date |
| CivCal.ServicesComplete | src/civcalnyc/civcalapi.py:197-200 | a day holds every service exactly when it holds the three |
| CivCal.KnownServiceIds | src/civcalnyc/civcalapi.py:77-93 | `KNOWN_SERVICES` lists parking, trash and school, in that order |
| CivCal.GapAt | src/civcalnyc/civcalapi.py:191-203 | the KeyError for a date: none exactly when the date and all three services are present; the date comes first, then the services in `KNOWN_SERVICES` order, parking, trash, school |
| CivCal.DaysAheadFromSpec | src/civcalnyc/civcalapi.py:191-203 | the loop over a prefix of the offsets meets `PrefixFacts`: it fails exactly when some date has a gap, with the earliest gap's error. Otherwise each offset holds its date and services |
| CivCal.PrefixStep | src/civcalnyc/civcalapi.py:191-203 | one more offset keeps `PrefixFacts`, whether the loop keeps its earlier error, fails on the new date's gap or adds that date's entry |
| CivCal.DaysAheadFrom | src/civcalnyc/civcalapi.py:191-203 | the days-ahead loop over the offsets -1 up to `i - 1`: the KeyError of the first gap, or the offsets' dates and services; characterised by `DaysAheadFromSpec` |
| CivCal.DaysAheadSpec | src/civcalnyc/civcalapi.py:191-203 | the view fails exactly when a date from yesterday to six days ahead is missing or lacks a service; otherwise it is the eight-day view |
| CivCal.DaysAheadErrPersists | src/civcalnyc/civcalapi.py:194-200 | after an offset fails, later offsets leave the error unchanged |
| CivCal.IsException | src/civcalnyc/civcalapi.py:218-221 | an entry is exceptional exactly when the `status_by_id` record of its status id, which `StatusNameOf`'s contract ties to the loop-built table, has `is_exception` set |
| CivCal.IsNextExceptions | src/civcalnyc/civcalapi.py:205-229 | the declarative view over the first `n` keys: a service is a key exactly when some key holds an exceptional entry for it, and it holds that entry, dated, at the first such key |
| CivCal.RecordDay | src/civcalnyc/civcalapi.py:218-225 | a service is recorded exactly when it was already, or is exceptional on this day. Earlier records are kept; new ones carry this day's entry and date |
| CivCal.RecordDayStep | src/civcalnyc/civcalapi.py:218-225 | one more service is recorded or skipped, and nothing else changes |
| CivCal.NextFrom | src/civcalnyc/civcalapi.py:205-229 | `__build_next_exceptions` after the first `n` keys: `DateOrderException`, or the entries recorded so far; characterised by `NextFromSpec` |
| CivCal.NextFromSpec | src/civcalnyc/civcalapi.py:205-229 | the scan fails, with DateOrderException, exactly when a later key is below the first key. Otherwise it records, per service, the first exceptional entry in key order |
| CivCal.NextFromStep | src/civcalnyc/civcalapi.py:209-225 | one more key: the order check, then that day's exceptions |
| CivCal.RecordSpec | src/civcalnyc/civcalapi.py:218-225 | recording one more day keeps the first-exception property |
| CivCal.NextErrPersists | src/civcalnyc/civcalapi.py:209-216 | after the order check fails, later keys leave the error unchanged |
| CivCal.NextExceptionsFirstDate | src/civcalnyc/civcalapi.py:205-229 | yesterday is not skipped: an exception on the first key is the one recorded |
| CivCal.FirstKeyRecorded | src/civcalnyc/civcalapi.py:218-225 | the first-exception property, read at the first key |
| CivCal.ViewOf | src/civcalnyc/civcalapi.py:134-140 | one branch of the dispatch: a view of the requested type; BY_DATE is the calendar itself and never fails, the other two fail exactly when their builder fails |
| CivCal.ViewsFrom | src/civcalnyc/civcalapi.py:134-140 | the dispatch loop over the requested types, stopping at the first error; characterised by `ViewsSpec` |
| CivCal.ViewsSpec | src/civcalnyc/civcalapi.py:134-140 | the dispatch fails exactly when some requested view fails, with the first one's error. Otherwise its keys are the requested types, each holding its view |
| CivCal.DefaultCalendarsViews | src/civcalnyc/civcalapi.py:118-140 | with the default `calendars`, the dispatch succeeds exactly when days-ahead and next-exceptions both do, and then holds all three views |
| CivCal.ViewsErrPersists | src/civcalnyc/civcalapi.py:134-140 | after a view fails, later requests leave the error unchanged |
| CivCal.CivCalApi.constructor | src/civcalnyc/civcalapi.py:95-116 | builds `status_by_id` and `service_by_id` from the two literal tables |
| CivCal.CivCalApi.NormalizeDay | src/civcalnyc/civcalapi.py:166-183 | the inner loop computes `DayEntries` |
| CivCal.CivCalApi.Normalize | src/civcalnyc/civcalapi.py:159-185 | the outer loop computes `NormalizeSpec` |
| CivCal.CivCalApi.CopyServices | src/civcalnyc/civcalapi.py:197-200 | copying a date's services fails exactly when it has a gap, with that gap's KeyError |
| CivCal.CivCalApi.BuildDaysAhead | src/civcalnyc/civcalapi.py:191-203 | the loop computes the eight-offset `DaysAheadFrom` |
| CivCal.CivCalApi.RecordExceptions | src/civcalnyc/civcalapi.py:218-225 | the inner loop, in any service order, computes `RecordDay` |
| CivCal.CivCalApi.BuildNextExceptions | src/civcalnyc/civcalapi.py:205-229 | the loop computes `NextFrom` over all keys |
| CivCal.CivCalApi.BuildView | src/civcalnyc/civcalapi.py:134-140 | one branch of the dispatch computes `ViewOf` |
| CivCal.CivCalApi.GetCalendar | src/civcalnyc/civcalapi.py:118-144 | the whole call, with `calendars` defaulting to all three types and `scrub` to false: a normalisation error is raised; otherwise it builds the requested views of yesterday to 89 days ahead |
| Legacy.StatusOf | civcalnyc/civcalapi.py:36-69 | `KNOWN_STATUSES[raw]["id"]`, or none for an unknown key; `StatusTable` states the table |
| Legacy.EventTypeOf | civcalnyc/civcalapi.py:70-74 | `KNOWN_EVENT_TYPES[raw]["id"]`, or none for an unknown key; `EventTypeTable` states the table |
| Legacy.StatusTable | civcalnyc/civcalapi.py:36-69 | there are eight keys. "NOT IN SESSION" and "NOT IN EFFECT" are both NOT_IN_SESSION, and UNKNOWN never occurs |
| Legacy.EventTypeTable | civcalnyc/civcalapi.py:70-74 | each of the three raw types maps to its event type, in both directions; UNKNOWN never occurs |
| Legacy.ItemEntry | civcalnyc/civcalapi.py:103-108 | every error is UnexpectedEntry. The item converts exactly when its type and status are known and it has details; the entry holds their ids and the details |
| Legacy.Single | civcalnyc/civcalapi.py:110-112 | an item stores a one-entry dict, never UNKNOWN |
| Legacy.DayFoldErrPersists | civcalnyc/civcalapi.py:102-112 | after an item fails, the rest of the day leaves the error unchanged |
| Legacy.LegacyErrPersists | civcalnyc/civcalapi.py:96-114 | after a day fails, later days leave the error unchanged |
| Legacy.DayFold | civcalnyc/civcalapi.py:102-112 | the inner loop over one day's items: each stores its one-entry dict at the date, or the first error; characterised by the `DayFold*` lemmas |
| Legacy.DayFoldOkIff | civcalnyc/civcalapi.py:102-108 | the inner loop succeeds exactly when every item converts |
| Legacy.DayFoldValue | civcalnyc/civcalapi.py:102-112 | an empty day leaves the result as it was; otherwise the date holds the last item's one-entry dict |
| Legacy.DayFoldAt | civcalnyc/civcalapi.py:102-112 | the same, read at one date: the other dates are unchanged |
| Legacy.LegacyStep | civcalnyc/civcalapi.py:96-112 | one more day: an earlier error persists, an unparsable date fails, otherwise its items are folded in |
| Legacy.LegacyStepOk | civcalnyc/civcalapi.py:96-112 | a successful loop succeeded on the earlier days and parsed the last date |
| Legacy.LegacySpec | civcalnyc/civcalapi.py:96-114 | the outer loop over the days: a date that does not parse fails, otherwise its items are folded in; characterised by `LegacyOkIff` and `LegacyContent` |
| Legacy.LegacyOkIff | civcalnyc/civcalapi.py:96-114 | the loop succeeds exactly when every date parses and every item converts |
| Legacy.LegacyContent | civcalnyc/civcalapi.py:96-114 | a date is a key exactly when some item falls on it, holding the one-entry dict of its last item |
| Legacy.DayFoldStored | civcalnyc/civcalapi.py:102-112 | one inner loop keeps that property, with its items added on its date |
| Legacy.LegacyContentAt | civcalnyc/civcalapi.py:96-114 | `LegacyContent` for one date |
| Legacy.EmptyDay | civcalnyc/civcalapi.py:97-102 | a day without items adds no key, but an unparsable date still fails |
| Legacy.NeverUnknown | civcalnyc/civcalapi.py:96-114 | no stored entry has the UNKNOWN event type or status |
| Legacy.StoreItems | civcalnyc/civcalapi.py:102-112 | the inner loop computes `DayFold` |
| Legacy.GetCalendar | civcalnyc/civcalapi.py:85-114 | the call folds the fetched range's days as `LegacySpec` does |

## Left out

- The HTTP call (`__call_api`), the aiohttp session, the API key header and
  the `CannotConnect`/`InvalidAuth` errors are left out. They are I/O; the
  response's "days" list is the `fetch` parameter.
- `async`/`await` and logging are left out; they change no result.
- `today()` and its time zone are left out: today is the integer `today`.
  Dates are integer day numbers, and `date_mod` is addition.
- Util.DateMod: Python's `date` covers the years 1 to 9999 only, and
  `date_mod` raises OverflowError outside them. The model's day numbers are
  unbounded, so that error is not modelled.
- The default `p_date=today()` of `date_mod` (src/civcalnyc/util.py:14) is
  evaluated once, when the module is imported. In src/civcalnyc both the
  fetch window and the days-ahead offsets use that default, so in a
  long-running process they stay on the import day. The model's one `today`
  parameter is that day. The nyc scan calls `today()` afresh
  (nyc311calendar/__init__.py:222); the model takes it to be the same day as
  the one its `date_mod` calls use.
- The response is taken to carry "days", and every day to carry "today_id"
  and "items" (`Wire.RawDay` has no missing field). All three sources read
  these keys outside their `try` blocks, so a missing one raises an uncaught
  KeyError (nyc311calendar/__init__.py:130-136,
  src/civcalnyc/civcalapi.py:160-166, civcalnyc/civcalapi.py:97-102). That
  error is not modelled.
- The response is taken to hold no JSON `null`. `None` in `Wire.RawItem`
  stands for a missing key only, and a null value is not modelled. In the
  source the two differ. In nyc, a null "type" or "status" reaches the enum
  constructor and raises its uncaught ValueError
  (nyc311calendar/__init__.py:147-165). In src/civcalnyc and civcalnyc, a null
  "details" is read without error as a None description
  (src/civcalnyc/civcalapi.py:170, civcalnyc/civcalapi.py:106). The model
  reads each as a missing key instead: UnexpectedEntry in nyc for a missing
  "type" or "status", and UnexpectedEntry for missing "details" in the other
  two.
- `strptime` is left out: it is the `parse` parameter, whose None is the
  ValueError it raises.
- The nyc `service_name` value is the opaque `names` parameter. The source
  takes `str()` of a class property, and its text is library behaviour.
- nyc311calendar/util.py is not part of this model. Its `remove_observed` is
  modelled by the scrubber of src/civcalnyc/util.py, the version of that
  helper that is part of this model.
- Util.Scrub: `\d` is read as the ASCII digits. Python's Unicode digits are
  not modelled.
- The insertion order of per-day dicts, and the key order of the result
  views, are left out. Nothing in the core reads either order. The date order
  of the CivCal calendar is modelled, because its next-exceptions scan reads
  it.
- CivCal.CivCalApi.constructor: the session and API key arguments are left
  out. The Legacy class has no fields the loop reads, so Legacy is modelled
  on values.
- Legacy: the `name` and `is_exception` columns of the two tables are left
  out, because nothing reads them.
- The script under examples/ is left out. It only prints a result.
- Services.RecessAndRemote: stated on `KindOf`, the table's type column. It
  reaches `Detail(st).exceptionType` through the contract of `Services.Detail`.
- The scrubber is not idempotent: applying it twice can remove more
  (`Util.ScrubNotIdempotent`). It also does not collapse the whitespace left
  between words.
- The fetch window ends 90 days after yesterday, that is, at today + 89.
- The nyc scan sorts the dates first, so it never raises
  `DateOrderException`, although the class declares it.
- In the nyc next-exceptions scan, an entry without a status profile counts
  as exceptional, because its test reads the profile only when present.
- An empty list or None of calendars gives all three views in nyc. In
  src/civcalnyc, an empty sequence gives an empty result.
- In src/civcalnyc, "NOT IN SESSION" gets the status name "Not In Effect".
  The later "NOT IN EFFECT" row, with the same id, overwrote it in
  `status_by_id`.
- nyc: an unknown service or status raises the enum's ValueError, which is
  not caught by `except (KeyError, AttributeError)`. It is modelled as the
  distinct error `UnknownValue`, not `UnexpectedEntry`.
- Legacy: a `today_id` that does not parse raises an uncaught ValueError,
  modelled as `MalformedDate`.
