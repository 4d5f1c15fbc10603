/**
  Peak coding hour (`calculateProductivity`): the hour with the most
  commits, found by a left-to-right scan that only moves on a strictly
  larger count, and the time-of-day band that hour falls in.

  The histogram is a JavaScript object keyed by hour; `Object.entries`
  visits integer keys in ascending order. The model takes the entries as a
  sequence in visiting order, so the result is stated for any order.
 */
module Productivity {

  /** One `[hour, count]` pair of `Object.entries(hourCounts)`, the key already parsed. */
  datatype HourCount = HourCount(hour: int, count: int)

  datatype TimeOfDay = Morning | Afternoon | Evening | LateNight
  {
    function Label(): string
    {
      match this
      case Morning => "Morning"
      case Afternoon => "Afternoon"
      case Evening => "Evening"
      case LateNight => "Late Night"
    }
  }

  datatype ProductivityProfile = ProductivityProfile(timeOfDay: TimeOfDay, peakHour: int)

  /** The hour reported when no hour has a positive count. */
  const DefaultPeakHour: int := 14

  /** The band an hour falls in: [5,12), [12,17), [17,21), and everything else. */
  function TimeOfDayOf(hour: int): (t: TimeOfDay)
    ensures t == Morning <==> 5 <= hour < 12
    ensures t == Afternoon <==> 12 <= hour < 17
    ensures t == Evening <==> 17 <= hour < 21
    ensures t == LateNight <==> hour < 5 || hour >= 21
  {
    if 5 <= hour < 12 then Morning
    else if 12 <= hour < 17 then Afternoon
    else if 17 <= hour < 21 then Evening
    else LateNight
  }

  /**
    Entry `k` is the peak: its count is positive, strictly above every
    earlier count and at least every later one. The scan keeps the first
    occurrence of the maximum.
   */
  ghost predicate IsPeak(entries: seq<HourCount>, k: int)
  {
    && 0 <= k < |entries|
    && entries[k].count > 0
    && (forall j :: 0 <= j < k ==> entries[j].count < entries[k].count)
    && (forall j :: k < j < |entries| ==> entries[j].count <= entries[k].count)
  }

  method CalculateProductivity(entries: seq<HourCount>) returns (p: ProductivityProfile)
    ensures (forall i :: 0 <= i < |entries| ==> entries[i].count <= 0) ==> p.peakHour == DefaultPeakHour
    ensures (exists i :: 0 <= i < |entries| && entries[i].count > 0) ==>
      exists k :: IsPeak(entries, k) && p.peakHour == entries[k].hour
    ensures p.timeOfDay == TimeOfDayOf(p.peakHour)
  {
    var peakHour := DefaultPeakHour;
    var maxCount := 0;
    ghost var k := -1;
    for i := 0 to |entries|
      invariant k == -1 ==> maxCount == 0 && peakHour == DefaultPeakHour
      invariant k == -1 ==> forall j :: 0 <= j < i ==> entries[j].count <= 0
      invariant k != -1 ==> 0 <= k < i && entries[k].count == maxCount > 0 && peakHour == entries[k].hour
      invariant k != -1 ==> forall j :: 0 <= j < k ==> entries[j].count < maxCount
      invariant k != -1 ==> forall j :: 0 <= j < i ==> entries[j].count <= maxCount
    {
      if entries[i].count > maxCount {
        maxCount := entries[i].count;
        peakHour := entries[i].hour;
        k := i;
      }
    }
    if k != -1 {
      assert IsPeak(entries, k);
    }
    p := ProductivityProfile(TimeOfDayOf(peakHour), peakHour);
  }

  /** There is at most one peak, so the scan's answer is determined by the histogram. */
  lemma PeakIsUnique(entries: seq<HourCount>, k1: int, k2: int)
    requires IsPeak(entries, k1) && IsPeak(entries, k2)
    ensures k1 == k2
  {
  }

  /** A histogram with some positive count has a peak (which the scan then reports). */
  lemma {:induction false} PeakExists(entries: seq<HourCount>)
    requires exists i :: 0 <= i < |entries| && entries[i].count > 0
    ensures exists k :: IsPeak(entries, k)
    decreases |entries|
  {
    var n := |entries| - 1;
    var init := entries[..n];
    if exists i :: 0 <= i < n && init[i].count > 0 {
      PeakExists(init);
      var k :| IsPeak(init, k);
      if entries[n].count > entries[k].count {
        assert IsPeak(entries, n);
      } else {
        assert IsPeak(entries, k);
      }
    } else {
      assert IsPeak(entries, n);
    }
  }
}
