/**
  The decoded JSON body of the calendar endpoint:
  `{"days": [{"today_id": "YYYYMMDD", "items": [{"type", "status", "details", "exceptionName"}]}]}`.
  Every key of an item may be missing, so each is an `Option`. The body is
  taken to hold no JSON `null`: `None` stands for a missing key only. The body
  is also taken to carry "days", and every day "today_id" and "items", so the
  KeyError for a missing one of these is outside the model.
 */
module Wire {
  import opened Wrappers

  datatype RawItem = RawItem(
    itemType: Option<string>,       // item["type"]
    status: Option<string>,         // item["status"]
    details: Option<string>,        // item["details"]
    exceptionName: Option<string>)  // item["exceptionName"]

  datatype RawDay = RawDay(todayId: string, items: seq<RawItem>)
}
