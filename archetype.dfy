/**
  The coding archetype (`calculateArchetype`): a decision list over the
  share of pull requests, reviews and issues in all activity, the peak hour,
  the weekend share of commits, the commit total and community reach. The
  first rule that holds picks the archetype.
 */
module Archetype {
  import opened Seqs
  import opened Productivity

  /** Contribution counts of the year. */
  datatype ContributionBreakdown = ContributionBreakdown(commits: nat, prs: nat, issues: nat, reviews: nat)

  datatype CommunityStats = CommunityStats(followers: nat, totalStars: nat)

  datatype Archetype =
    | CollaborationMaestro
    | QualityGuardian
    | MidnightArchitect
    | DawnCoder
    | PassionProgrammer
    | RelentlessBuilder
    | SteadyCraftsman
    | VisionaryPlanner
    | OpenSourceStar
    | CuriousExplorer
  {
    function Label(): string
    {
      match this
      case CollaborationMaestro => "The Collaboration Maestro"
      case QualityGuardian => "The Quality Guardian"
      case MidnightArchitect => "The Midnight Architect"
      case DawnCoder => "The Dawn Coder"
      case PassionProgrammer => "The Passion Programmer"
      case RelentlessBuilder => "The Relentless Builder"
      case SteadyCraftsman => "The Steady Craftsman"
      case VisionaryPlanner => "The Visionary Planner"
      case OpenSourceStar => "The Open Source Star"
      case CuriousExplorer => "The Curious Explorer"
    }
  }

  function TotalActivity(b: ContributionBreakdown): nat
  {
    b.commits + b.prs + b.issues + b.reviews
  }

  /** `whole > 0 ? (part / whole) * 100 : 0`, in exact arithmetic. */
  function Percentage(part: int, whole: int): real
  {
    if whole > 0 then part as real / whole as real * 100.0 else 0.0
  }

  /**
    Whether the weekend share (Sunday `w[0]` plus Saturday `w[6]`) exceeds 35%.
    With fewer than seven entries the sum reads `undefined`, which makes the
    share NaN whenever the week total is positive, and NaN exceeds nothing.
   */
  predicate WeekendShareAbove35(w: seq<int>)
  {
    && |w| >= 7
    && Percentage(w[0] + w[6], Sum(w)) > 35.0
  }

  function CalculateArchetype(b: ContributionBreakdown, community: CommunityStats, totalCommits: int,
                              peakHour: int, weekdayStats: seq<int>): (a: Archetype)
    ensures a == Classify(b, community, totalCommits, peakHour, weekdayStats)
  {
    var total := TotalActivity(b);
    var prPercentage := Percentage(b.prs, total);
    var reviewPercentage := Percentage(b.reviews, total);
    var issuePercentage := Percentage(b.issues, total);
    PercentageAbove(b.prs, total, 20);
    PercentageAbove(b.reviews, total, 10);
    PercentageAbove(b.issues, total, 15);
    WeekendShareIsInteger(weekdayStats);
    if prPercentage > 20.0 then CollaborationMaestro
    else if reviewPercentage > 10.0 then QualityGuardian
    else if peakHour >= 22 || peakHour <= 4 then MidnightArchitect
    else if peakHour >= 5 && peakHour <= 11 then DawnCoder
    else if WeekendShareAbove35(weekdayStats) then PassionProgrammer
    else if totalCommits >= 1200 then RelentlessBuilder
    else if totalCommits >= 400 then SteadyCraftsman
    else if issuePercentage > 15.0 then VisionaryPlanner
    else if community.followers >= 500 || community.totalStars >= 1000 then OpenSourceStar
    else CuriousExplorer
  }

  // ---------------------------------------------------------------------------
  // The same decision list over integers
  // ---------------------------------------------------------------------------

  /** `part` is more than `percent`% of `whole`, without division. */
  predicate ShareAbove(part: int, whole: int, percent: int)
  {
    whole > 0 && part * 100 > percent * whole
  }

  predicate WeekendHeavy(w: seq<int>)
  {
    |w| >= 7 && ShareAbove(w[0] + w[6], Sum(w), 35)
  }

  /** Each rule of the list as an integer comparison; the first that holds wins. */
  function Classify(b: ContributionBreakdown, community: CommunityStats, totalCommits: int,
                    peakHour: int, weekdayStats: seq<int>): Archetype
  {
    var total := TotalActivity(b);
    if ShareAbove(b.prs, total, 20) then CollaborationMaestro
    else if ShareAbove(b.reviews, total, 10) then QualityGuardian
    else if peakHour >= 22 || peakHour <= 4 then MidnightArchitect
    else if 5 <= peakHour <= 11 then DawnCoder
    else if WeekendHeavy(weekdayStats) then PassionProgrammer
    else if totalCommits >= 1200 then RelentlessBuilder
    else if totalCommits >= 400 then SteadyCraftsman
    else if ShareAbove(b.issues, total, 15) then VisionaryPlanner
    else if community.followers >= 500 || community.totalStars >= 1000 then OpenSourceStar
    else CuriousExplorer
  }

  /** A percentage test is the cross-multiplied integer test, and fails when the denominator is 0. */
  lemma PercentageAbove(part: int, whole: int, percent: nat)
    ensures Percentage(part, whole) > percent as real <==> ShareAbove(part, whole, percent)
  {
    if whole > 0 {
      var w := whole as real;
      var p := Percentage(part, whole);
      assert p * w == part as real * 100.0 by {
        assert p == part as real / w * 100.0;
        assert part as real / w * w == part as real;
      }
      ScaleByPositive(p, percent as real, w);
      var lhs, rhs := part * 100, percent * whole;
      assert lhs as real == part as real * 100.0;
      assert rhs as real == percent as real * w;
      assert p > percent as real <==> lhs as real > rhs as real;
      assert lhs as real > rhs as real <==> lhs > rhs;
    }
  }

  /** Multiplying both sides by a positive number keeps a strict inequality. */
  lemma ScaleByPositive(x: real, y: real, w: real)
    requires w > 0.0
    ensures x > y <==> x * w > y * w
  {
    if x > y {
      assert (x - y) * w > 0.0;
    } else {
      assert (y - x) * w >= 0.0;
    }
  }

  lemma WeekendShareIsInteger(w: seq<int>)
    ensures WeekendShareAbove35(w) <==> WeekendHeavy(w)
  {
    if |w| >= 7 {
      PercentageAbove(w[0] + w[6], Sum(w), 35);
    }
  }

  // ---------------------------------------------------------------------------
  // Properties
  // ---------------------------------------------------------------------------

  /** More than a fifth of the activity in pull requests wins over every other signal. */
  lemma CollaborationWins(b: ContributionBreakdown, community: CommunityStats, totalCommits: int,
                          peakHour: int, weekdayStats: seq<int>)
    requires b.prs * 100 > 20 * TotalActivity(b)
    ensures CalculateArchetype(b, community, totalCommits, peakHour, weekdayStats) == CollaborationMaestro
  {
  }

  /**
    Without pull requests, reviews and issues (in particular with no activity
    at all) none of the share rules can fire.
   */
  lemma CommitsOnlyNoShares(b: ContributionBreakdown, community: CommunityStats, totalCommits: int,
                            peakHour: int, weekdayStats: seq<int>)
    requires b.prs == 0 && b.reviews == 0 && b.issues == 0
    ensures var a := CalculateArchetype(b, community, totalCommits, peakHour, weekdayStats);
      a != CollaborationMaestro && a != QualityGuardian && a != VisionaryPlanner
  {
  }

  /** An empty week histogram never makes a passion programmer. */
  lemma EmptyWeekIsNotPassion(b: ContributionBreakdown, community: CommunityStats, totalCommits: int, peakHour: int)
    ensures CalculateArchetype(b, community, totalCommits, peakHour, []) != PassionProgrammer
  {
  }

  /** The hour rules agree with the time-of-day bands of the productivity profile. */
  lemma HourRulesMatchBands(b: ContributionBreakdown, community: CommunityStats, totalCommits: int,
                            peakHour: int, weekdayStats: seq<int>)
    ensures var a := CalculateArchetype(b, community, totalCommits, peakHour, weekdayStats);
      && (a == MidnightArchitect ==> TimeOfDayOf(peakHour) == LateNight)
      && (a == DawnCoder ==> TimeOfDayOf(peakHour) == Morning)
  {
  }

  /**
    A coder whose peak hour is from 12 to 21, outside the Midnight and Dawn
    ranges, with low shares and a small audience is a curious explorer; with 400 commits the
    same profile is a steady craftsman, with 1200 a relentless builder.
   */
  lemma CommitLadder(b: ContributionBreakdown, community: CommunityStats, peakHour: int, weekdayStats: seq<int>)
    requires 12 <= peakHour <= 21
    requires b.prs * 100 <= 20 * TotalActivity(b) && b.reviews * 100 <= 10 * TotalActivity(b)
    requires b.issues * 100 <= 15 * TotalActivity(b)
    requires !WeekendHeavy(weekdayStats)
    requires community.followers < 500 && community.totalStars < 1000
    ensures CalculateArchetype(b, community, 399, peakHour, weekdayStats) == CuriousExplorer
    ensures CalculateArchetype(b, community, 400, peakHour, weekdayStats) == SteadyCraftsman
    ensures CalculateArchetype(b, community, 1200, peakHour, weekdayStats) == RelentlessBuilder
  {
  }

  /** The keys of the archetype table that the archetype slide looks each result up in. */
  const SlideArchetypes: seq<string> := [
    "The Collaboration Maestro", "The Quality Guardian", "The Midnight Architect", "The Dawn Coder",
    "The Passion Programmer", "The Relentless Builder", "The Steady Craftsman", "The Visionary Planner",
    "The Open Source Star", "The Curious Explorer"]

  /** Every archetype has an entry on the slide, and distinct archetypes have distinct labels. */
  lemma LabelsAreSlideKeys(a: Archetype, a': Archetype)
    ensures a.Label() in SlideArchetypes
    ensures a.Label() == a'.Label() ==> a == a'
  {
  }
}
