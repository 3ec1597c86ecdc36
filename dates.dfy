/**
 The part of `java.time.LocalDate` the booking core relies on. A date is a day
 number; `plusDays` is addition and `datesUntil` the half-open range of days.
 */
module Dates {
  import opened Common

  /** A calendar day, as the number of days since a fixed epoch; `date.plusDays(n)` is `date + n`. */
  type Day = int

  /** The `IllegalArgumentException` that `datesUntil` throws. */
  datatype RangeError = EndBeforeStart(start: Day, end: Day)

  /** The `count` consecutive days starting at `start`, in ascending order. */
  function DaysFrom(start: Day, count: nat): (days: seq<Day>)
    ensures |days| == count
    ensures forall i :: 0 <= i < count ==> days[i] == start + i
    ensures forall d :: d in days <==> start <= d < start + count
    decreases count
  {
    if count == 0 then [] else [start] + DaysFrom(start + 1, count - 1)
  }

  /**
   `start.datesUntil(end).toList()`: every day from `start` inclusive to `end`
   exclusive, ascending; an error when `end` is before `start`.
   */
  function DatesUntil(start: Day, end: Day): (r: Result<seq<Day>, RangeError>)
    ensures r.Err? <==> end < start
    ensures r.Err? ==> r.error == EndBeforeStart(start, end)
    ensures r.Ok? ==> |r.value| == end - start
    ensures r.Ok? ==> forall i :: 0 <= i < |r.value| ==> r.value[i] == start + i
    ensures r.Ok? ==> forall d :: d in r.value <==> start <= d < end
  {
    if end < start then Err(EndBeforeStart(start, end)) else Ok(DaysFrom(start, end - start))
  }
}
