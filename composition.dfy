/**
  The composition slide: the contribution calendar with a 0-4 intensity
  level per day, the recent window the slide shows, and the active-day and
  total-day counts.
 */
module Composition {
  import opened Seqs
  import opened SlideData

  /** A calendar cell: the day as given plus its intensity level. */
  datatype CalendarDay = CalendarDay(date: string, count: int, level: int)

  /** The shade of a day: none for no contributions, then bands starting at 1, 3, 6 and 10. */
  function Level(count: int): int
  {
    if count == 0 then 0
    else if count < 3 then 1
    else if count < 6 then 2
    else if count < 10 then 3
    else 4
  }

  /** Level 0 means no contributions; every level is one of the five shades. */
  lemma LevelRange(count: int)
    ensures 0 <= Level(count) <= 4
    ensures Level(count) == 0 <==> count == 0
  {
  }

  /** The bands for real counts: 1-2, 3-5, 6-9, and 10 or more. */
  lemma LevelBands(count: nat)
    ensures 1 <= count <= 2 <==> Level(count) == 1
    ensures 3 <= count <= 5 <==> Level(count) == 2
    ensures 6 <= count <= 9 <==> Level(count) == 3
    ensures count >= 10 <==> Level(count) == 4
  {
  }

  /** More contributions never give a lighter shade. */
  lemma LevelMonotone(a: nat, b: nat)
    requires a <= b
    ensures Level(a) <= Level(b)
  {
  }

  function ToCalendarDay(day: ContributionDay): CalendarDay
  {
    CalendarDay(day.date, day.count, Level(day.count))
  }

  /** `calendarData`: every day with its level; a missing calendar gives none. */
  function CalendarData(contributions: Option<seq<ContributionDay>>): (cal: seq<CalendarDay>)
    ensures contributions.None? ==> cal == []
    ensures contributions.Some? ==> |cal| == |contributions.value|
    ensures contributions.Some? ==> forall i :: 0 <= i < |cal| ==>
      && cal[i].date == contributions.value[i].date
      && cal[i].count == contributions.value[i].count
      && cal[i].level == Level(contributions.value[i].count)
  {
    match contributions
    case None => []
    case Some(days) => seq(|days|, i requires 0 <= i < |days| => ToCalendarDay(days[i]))
  }

  /** 120 days (about four months) on a narrow screen, a whole year otherwise. */
  function DaysToShow(isMobile: bool): nat
  {
    if isMobile then 120 else 365
  }

  /** The calendar cut to its last `DaysToShow` entries (a negative-start slice). */
  function RecentData(cal: seq<CalendarDay>, isMobile: bool): seq<CalendarDay>
  {
    JsSlice(cal, -(DaysToShow(isMobile) as int), |cal|)
  }

  /** The window is the newest `min(n, daysToShow)` days, in calendar order. */
  lemma RecentDataIsLastDays(cal: seq<CalendarDay>, isMobile: bool)
    ensures var k := if |cal| < DaysToShow(isMobile) then |cal| else DaysToShow(isMobile);
      RecentData(cal, isMobile) == cal[|cal| - k..]
  {
    SliceSuffix(cal, DaysToShow(isMobile));
  }

  /** The days with a positive count; none when the calendar is missing. */
  function ActiveDays(contributions: Option<seq<ContributionDay>>): (n: nat)
    ensures contributions.None? ==> n == 0
    ensures contributions.Some? ==> n <= |contributions.value|
    ensures contributions.Some? ==>
      (n == 0 <==> forall i :: 0 <= i < |contributions.value| ==> contributions.value[i].count <= 0)
  {
    if contributions.None? then 0 else CountPositive(Counts(contributions.value))
  }

  /** The length of the calendar; a missing or empty calendar counts as a year. */
  function TotalDays(contributions: Option<seq<ContributionDay>>): (n: nat)
    ensures n > 0
    ensures contributions.Some? && |contributions.value| > 0 ==> n == |contributions.value|
    ensures contributions.None? || |contributions.value| == 0 ==> n == 365
  {
    if contributions.None? || |contributions.value| == 0 then 365 else |contributions.value|
  }

  /** The active days never exceed the days counted, so the shown share is at most 100%. */
  lemma ActiveWithinTotal(contributions: Option<seq<ContributionDay>>)
    ensures ActiveDays(contributions) <= TotalDays(contributions)
  {
  }
}
