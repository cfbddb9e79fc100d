/** The search endpoints: by reading type or by creation-date range. */
module Queries {
  import opened Validators
  import opened Readings

  /** A search answers either the matching rows (HTTP 200) or an error
      code (HTTP 400). */
  datatype SearchResponse = Rows(rows: seq<Reading>) | BadRequest(error: string) {
    function Status(): int {
      if Rows? then 200 else 400
    }
  }

  /** `get_readings_by_type_or_date_range`: the option in the path chooses
      a type search (the type is validated first), an inclusive date-range
      search, or an error. */
  function Search(rows: seq<Reading>, option: string, readingType: string, startDate: int, endDate: int): (r: SearchResponse)
    ensures option == "type" && readingType !in ReadingsTypes ==> r == BadRequest(NotValidType)
    ensures option == "type" && readingType in ReadingsTypes ==>
      && r.Rows?
      && (forall x :: x in r.rows <==> x in rows && x.sensorType == readingType)
      && (forall x :: multiset(r.rows)[x] == if x.sensorType == readingType then multiset(rows)[x] else 0)
    ensures option == "range" ==>
      && r.Rows?
      && (forall x :: x in r.rows <==> x in rows && startDate <= x.dateCreated <= endDate)
      && (forall x :: multiset(r.rows)[x] == if startDate <= x.dateCreated <= endDate then multiset(rows)[x] else 0)
    ensures option != "type" && option != "range" ==> r == BadRequest(NotValidSearchingType)
    ensures r.BadRequest? ==> r.error in ReadingsTypesErrors + CustomSearchErrors
  {
    if option == "type" then
      var (isValid, result) := IsValidType(readingType);
      if isValid then Rows(OfType(rows, readingType)) else BadRequest(result)
    else if option == "range" then
      Rows(CreatedBetween(rows, startDate, endDate))
    else
      BadRequest(CustomSearchErrors[0])
  }

  /** A rejected search type never reaches the table: the answer does not
      depend on the rows. */
  lemma InvalidTypeIgnoresRows(rows1: seq<Reading>, rows2: seq<Reading>, readingType: string, startDate: int, endDate: int)
    requires readingType !in ReadingsTypes
    ensures Search(rows1, "type", readingType, startDate, endDate) == Search(rows2, "type", readingType, startDate, endDate)
    ensures Search(rows1, "type", readingType, startDate, endDate).Status() == 400
  {
  }

  const SecondsPerDay: int := 86400

  /** The epoch bounds of the interface's day-granularity search: the start
      of the start day, and 23:59:59 of the end day. `startDay` and `endDay`
      are the epoch seconds at which those days begin. */
  function UiRangeBounds(startDay: int, endDay: int): (b: (int, int))
    ensures b.0 == startDay
    ensures endDay + SecondsPerDay - 1 <= b.1 < endDay + SecondsPerDay
  {
    (startDay, endDay + 23 * 3600 + 59 * 60 + 59)
  }

  /** The interface's range search keeps every reading from the first second
      of the start day through the last second of the end day, and nothing
      from the following day. */
  function UiRangeSearch(rows: seq<Reading>, startDay: int, endDay: int): (r: seq<Reading>)
    ensures forall x :: x in r <==> x in rows && startDay <= x.dateCreated < endDay + SecondsPerDay
  {
    var (start, end) := UiRangeBounds(startDay, endDay);
    CreatedBetween(rows, start, end)
  }

  /** A search over one day keeps a reading taken at 23:59:00 and drops one
      taken at 00:00:01 on the next day. */
  lemma SingleDayExample(day: int, lastMinute: Reading, nextDay: Reading)
    requires lastMinute.dateCreated == day + 23 * 3600 + 59 * 60
    requires nextDay.dateCreated == day + SecondsPerDay + 1
    ensures lastMinute in UiRangeSearch([lastMinute, nextDay], day, day)
    ensures nextDay !in UiRangeSearch([lastMinute, nextDay], day, day)
  {
  }
}
