/**
  The streak slide: the current streak (days with contributions counted back
  from the newest day up to today), the number of active days, the tier of
  the longest streak and the motivational line under it.
 */
module Streak {
  import opened Seqs
  import opened SlideData

  // ---------------------------------------------------------------------------
  // Days up to today, newest first
  // ---------------------------------------------------------------------------

  /** The days dated on or before `today`, in calendar order. */
  function UpToToday(days: seq<ContributionDay>, timeOf: string -> int, today: int): (r: seq<ContributionDay>)
    ensures |r| <= |days|
    ensures forall i :: 0 <= i < |r| ==> timeOf(r[i].date) <= today
    ensures multiset(r) <= multiset(days)
    ensures forall i :: 0 <= i < |days| && timeOf(days[i].date) <= today ==> days[i] in r
    decreases |days|
  {
    if days == [] then []
    else
      var init, last := days[..|days| - 1], days[|days| - 1];
      assert days == init + [last];
      var kept := UpToToday(init, timeOf, today);
      assert forall i :: 0 <= i < |init| ==> days[i] == init[i];
      kept + (if timeOf(last.date) <= today then [last] else [])
  }

  /**
    The days dated up to today, newest first. The slide sorts
    a copy, the calendar itself is left as it is. `timeOf` stands for
    `new Date(date).getTime()` and `today` for the start of the current day.
   */
  function RecentFirst(days: seq<ContributionDay>, timeOf: string -> int, today: int): (r: seq<ContributionDay>)
    ensures forall i :: 0 <= i < |r| ==> timeOf(r[i].date) <= today
    ensures forall i, j :: 0 <= i < j < |r| ==> timeOf(r[i].date) >= timeOf(r[j].date)
    ensures multiset(r) == multiset(UpToToday(days, timeOf, today))
    ensures |r| == |UpToToday(days, timeOf, today)| <= |days|
  {
    var kept := UpToToday(days, timeOf, today);
    var r := SortDesc(kept, (d: ContributionDay) => timeOf(d.date) as real);
    forall i | 0 <= i < |r| ensures timeOf(r[i].date) <= today {
      assert r[i] in multiset(kept);
    }
    r
  }

  /** The `for ... break` loop: count entries from the front while their count is positive. */
  method CurrentStreak(sorted: seq<ContributionDay>) returns (streak: nat)
    ensures streak <= |sorted|
    ensures forall i :: 0 <= i < streak ==> sorted[i].count > 0
    ensures streak < |sorted| ==> sorted[streak].count <= 0
  {
    streak := 0;
    for i := 0 to |sorted|
      invariant streak == i
      invariant forall j :: 0 <= j < i ==> sorted[j].count > 0
    {
      if sorted[i].count > 0 {
        streak := streak + 1;
      } else {
        break;
      }
    }
  }

  /** A positive-count prefix ending at a non-positive entry or the end is unique: the streak is determined. */
  lemma StreakIsUnique(sorted: seq<ContributionDay>, s1: nat, s2: nat)
    requires s1 <= |sorted| && s2 <= |sorted|
    requires forall i :: 0 <= i < s1 ==> sorted[i].count > 0
    requires s1 < |sorted| ==> sorted[s1].count <= 0
    requires forall i :: 0 <= i < s2 ==> sorted[i].count > 0
    requires s2 < |sorted| ==> sorted[s2].count <= 0
    ensures s1 == s2
  {
  }

  // ---------------------------------------------------------------------------
  // activeDays
  // ---------------------------------------------------------------------------

  /** The days with a positive count. */
  function ActiveDays(days: seq<ContributionDay>): (n: nat)
    ensures n <= |days|
    ensures n == 0 <==> forall i :: 0 <= i < |days| ==> days[i].count <= 0
    ensures n == |days| <==> forall i :: 0 <= i < |days| ==> days[i].count > 0
  {
    CountPositive(Counts(days))
  }

  // ---------------------------------------------------------------------------
  // getStreakTier and the motivational line
  // ---------------------------------------------------------------------------

  datatype StreakTier = Common | Uncommon | Rare | Epic | Legendary
  {
    /** Position on the ladder, Common lowest. */
    function Rank(): nat
    {
      match this
      case Common => 0
      case Uncommon => 1
      case Rare => 2
      case Epic => 3
      case Legendary => 4
    }
  }

  /** `getStreakTier(longestStreak)`: the ladder 100, 50, 30, 14 read from the top. */
  function GetStreakTier(streak: int): StreakTier
  {
    if streak >= 100 then Legendary
    else if streak >= 50 then Epic
    else if streak >= 30 then Rare
    else if streak >= 14 then Uncommon
    else Common
  }

  /** The least streak each tier needs. */
  function Threshold(t: StreakTier): int
  {
    match t
    case Common => 0
    case Uncommon => 14
    case Rare => 30
    case Epic => 50
    case Legendary => 100
  }

  /** The tier is the highest one whose threshold the streak reaches. */
  lemma TierIsHighestReached(streak: nat, t: StreakTier)
    ensures GetStreakTier(streak).Rank() >= t.Rank() <==> streak >= Threshold(t)
  {
  }

  /** A longer streak never has a lower tier. */
  lemma TierMonotone(a: int, b: int)
    requires a <= b
    ensures GetStreakTier(a).Rank() <= GetStreakTier(b).Rank()
  {
  }

  const Unstoppable: string := "Dedication beyond measure. You're unstoppable! \U{1F4AA}"
  const Momentum: string := "Building momentum, one day at a time \U{1F680}"
  const DayOne: string := "Every streak starts with day one. Keep going! \U{2728}"

  function MotivationalMessage(longestStreak: int): string
  {
    if longestStreak >= 30 then Unstoppable
    else if longestStreak >= 14 then Momentum
    else DayOne
  }

  /** The line follows the tier: Rare and above, Uncommon, and Common each have their own. */
  lemma MessageFollowsTier(longestStreak: int)
    ensures MotivationalMessage(longestStreak) == Unstoppable <==> GetStreakTier(longestStreak).Rank() >= Rare.Rank()
    ensures MotivationalMessage(longestStreak) == Momentum <==> GetStreakTier(longestStreak) == Uncommon
    ensures MotivationalMessage(longestStreak) == DayOne <==> GetStreakTier(longestStreak) == Common
  {
  }
}
