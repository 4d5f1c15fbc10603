/**
  The velocity slide: the daily commit series cut into consecutive chunks of
  seven days, each chunk becoming one week labelled with its first day, then
  the busiest week and the number of active weeks.
 */
module Velocity {
  import opened Seqs
  import opened SlideData

  /** A week of the chart: the date of its first day and its commit total. */
  datatype Week = Week(start: string, commits: int)

  function SumCommits(days: seq<DailyCommits>): int
    decreases |days|
  {
    if days == [] then 0 else SumCommits(days[..|days| - 1]) + days[|days| - 1].commits
  }

  lemma {:induction false} SumCommitsConcat(a: seq<DailyCommits>, b: seq<DailyCommits>)
    ensures SumCommits(a + b) == SumCommits(a) + SumCommits(b)
    decreases |b|
  {
    if b == [] {
      assert a + b == a;
    } else {
      var b' := b[..|b| - 1];
      assert (a + b)[..|a + b| - 1] == a + b';
      SumCommitsConcat(a, b');
    }
  }

  /** Number of weeks for `n` days: ceil(n / 7). */
  function NumWeeks(n: nat): nat
  {
    (n + 6) / 7
  }

  /** Days of week `k`: from day 7k to the end of the week or of the series. */
  function WeekEnd(n: nat, k: nat): nat
  {
    if (k + 1) * 7 < n then (k + 1) * 7 else n
  }

  /** Week `k` of the series: starts on day 7k and totals its (at most) seven days. */
  function WeekOf(days: seq<DailyCommits>, k: nat): Week
    requires k < NumWeeks(|days|)
  {
    Week(days[k * 7].date, SumCommits(days[k * 7..WeekEnd(|days|, k)]))
  }

  /** The weeks of the series, in order. */
  function ChunkWeeks(days: seq<DailyCommits>): (weeks: seq<Week>)
    ensures |weeks| == NumWeeks(|days|)
  {
    seq(NumWeeks(|days|), k requires 0 <= k < NumWeeks(|days|) => WeekOf(days, k))
  }

  /**
    The `weeklyData` loop: commits are added day by day, and a week is pushed
    after every seventh day and after the last one; a missing series gives no weeks.
   */
  method WeeklyData(dailyData: Option<seq<DailyCommits>>) returns (weeks: seq<Week>)
    ensures weeks == if dailyData.None? then [] else ChunkWeeks(dailyData.value)
  {
    if dailyData.None? || |dailyData.value| == 0 {
      return [];
    }
    var days := dailyData.value;
    var n := |days|;
    weeks := [];
    var currentWeekStart := days[0].date;
    var currentWeekCommits := 0;
    for index := 0 to n
      invariant index < n ==> |weeks| * 7 <= index < |weeks| * 7 + 7
      invariant index == n ==> |weeks| == NumWeeks(n)
      invariant |weeks| <= NumWeeks(n)
      invariant forall k :: 0 <= k < |weeks| ==> weeks[k] == WeekOf(days, k)
      invariant index < n ==> currentWeekStart == days[|weeks| * 7].date
      invariant index < n ==> currentWeekCommits == SumCommits(days[|weeks| * 7..index])
    {
      var start := |weeks| * 7;
      assert days[start..index + 1][..index - start] == days[start..index];
      currentWeekCommits := currentWeekCommits + days[index].commits;
      WeekBoundary(|weeks|, index, n);
      if (index + 1) % 7 == 0 || index == n - 1 {
        weeks := weeks + [Week(currentWeekStart, currentWeekCommits)];
        if index < n - 1 {
          currentWeekStart := days[index + 1].date;
          currentWeekCommits := 0;
        }
      }
    }
    assert weeks == ChunkWeeks(days);
  }

  /** Day `index` of week `w` closes the week exactly when it is its seventh day or the last day. */
  lemma WeekBoundary(w: nat, index: nat, n: nat)
    requires w * 7 <= index < w * 7 + 7 && index < n
    ensures (index + 1) % 7 == 0 <==> index + 1 == w * 7 + 7
    ensures w < NumWeeks(n)
    ensures ((index + 1) % 7 == 0 || index == n - 1) ==> WeekEnd(n, w) == index + 1
    ensures index == n - 1 ==> NumWeeks(n) == w + 1
    ensures index < n - 1 && (index + 1) % 7 != 0 ==> WeekEnd(n, w) > index + 1
  {
    var r := index + 1 - w * 7;
    assert 1 <= r <= 7;
    assert (index + 1) % 7 == r % 7 by {
      assert index + 1 == w * 7 + r;
    }
  }

  // ---------------------------------------------------------------------------
  // Properties of the weeks
  // ---------------------------------------------------------------------------

  function WeekTotal(weeks: seq<Week>): int
    decreases |weeks|
  {
    if weeks == [] then 0 else WeekTotal(weeks[..|weeks| - 1]) + weeks[|weeks| - 1].commits
  }

  /** The first `k` weeks hold exactly the commits of their days. */
  lemma {:induction false} WeeksPrefixTotal(days: seq<DailyCommits>, k: nat)
    requires k <= NumWeeks(|days|)
    ensures WeekTotal(ChunkWeeks(days)[..k]) == SumCommits(days[..if k == 0 then 0 else WeekEnd(|days|, k - 1)])
    decreases k
  {
    if k > 0 {
      var weeks := ChunkWeeks(days);
      assert weeks[..k][..k - 1] == weeks[..k - 1];
      WeeksPrefixTotal(days, k - 1);
      var from := if k == 1 then 0 else WeekEnd(|days|, k - 2);
      assert from == (k - 1) * 7;
      var to := WeekEnd(|days|, k - 1);
      assert WeekTotal(weeks[..k]) == WeekTotal(weeks[..k - 1]) + weeks[k - 1].commits;
      assert weeks[k - 1].commits == SumCommits(days[from..to]);
      assert days[..to] == days[..from] + days[from..to];
      SumCommitsConcat(days[..from], days[from..to]);
    }
  }

  /** Cutting into weeks loses and duplicates no commit. */
  lemma WeeksPreserveTotal(days: seq<DailyCommits>)
    ensures WeekTotal(ChunkWeeks(days)) == SumCommits(days)
  {
    var weeks := ChunkWeeks(days);
    WeeksPrefixTotal(days, |weeks|);
    assert weeks[..|weeks|] == weeks;
    if |weeks| > 0 {
      assert days[..WeekEnd(|days|, |weeks| - 1)] == days;
    }
  }

  /** Every week but the last covers exactly seven consecutive days, the last one to seven. */
  lemma WeekLengths(days: seq<DailyCommits>, k: nat)
    requires k < NumWeeks(|days|)
    ensures k * 7 < WeekEnd(|days|, k) <= (k + 1) * 7
    ensures k + 1 < NumWeeks(|days|) ==> WeekEnd(|days|, k) - k * 7 == 7
  {
  }

  // ---------------------------------------------------------------------------
  // maxWeeklyCommits, busiestWeek, active weeks
  // ---------------------------------------------------------------------------

  /** The largest weekly total of a non-empty list of weeks. */
  function MaxWeeklyCommits(weeks: seq<Week>): (m: int)
    requires |weeks| > 0
    ensures forall i :: 0 <= i < |weeks| ==> weeks[i].commits <= m
    ensures exists i :: 0 <= i < |weeks| && weeks[i].commits == m
    decreases |weeks|
  {
    if |weeks| == 1 then weeks[0].commits
    else
      var rest := MaxWeeklyCommits(weeks[1..]);
      assert forall i :: 1 <= i < |weeks| ==> weeks[i] == weeks[1..][i - 1];
      if weeks[0].commits >= rest then weeks[0].commits else rest
  }

  /** Index of the first week whose total is `m`, if any: what `find` returns. */
  function FindWeek(weeks: seq<Week>, m: int): (r: Option<nat>)
    ensures r.Some? ==> r.value < |weeks| && weeks[r.value].commits == m
    ensures r.Some? ==> forall j :: 0 <= j < r.value ==> weeks[j].commits != m
    ensures r.None? ==> forall j :: 0 <= j < |weeks| ==> weeks[j].commits != m
    decreases |weeks|
  {
    if weeks == [] then None
    else if weeks[0].commits == m then Some(0)
    else
      match FindWeek(weeks[1..], m)
      case None => None
      case Some(k) => Some(k + 1)
  }

  /**
    `busiestWeek`: the first week holding the maximum total. With no weeks
    the maximum is -Infinity and `find` yields `undefined`.
   */
  function BusiestWeek(weeks: seq<Week>): (r: Option<Week>)
    ensures weeks == [] <==> r.None?
    ensures r.Some? ==> exists k :: 0 <= k < |weeks| && r.value == weeks[k]
                          && (forall j :: 0 <= j < |weeks| ==> weeks[j].commits <= weeks[k].commits)
                          && (forall j :: 0 <= j < k ==> weeks[j].commits < weeks[k].commits)
  {
    if weeks == [] then None
    else
      var m := MaxWeeklyCommits(weeks);
      var k := FindWeek(weeks, m);
      if k.Some? then Some(weeks[k.value]) else assert false; None
  }

  function Commits(weeks: seq<Week>): (cs: seq<int>)
    ensures |cs| == |weeks| && forall i :: 0 <= i < |weeks| ==> cs[i] == weeks[i].commits
  {
    seq(|weeks|, i requires 0 <= i < |weeks| => weeks[i].commits)
  }

  /** The weeks with a positive total. */
  function ActiveWeeks(weeks: seq<Week>): (n: nat)
    ensures n <= |weeks|
    ensures n == 0 <==> forall i :: 0 <= i < |weeks| ==> weeks[i].commits <= 0
    ensures n == |weeks| <==> forall i :: 0 <= i < |weeks| ==> weeks[i].commits > 0
  {
    CountPositive(Commits(weeks))
  }
}
