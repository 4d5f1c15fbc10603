/**
  The "interestingness" score of one repository (`calculateRepoScoreBreakdown`
  and `calculateRepoScore`): twelve independent factors added into a total.
  Each factor is a function below with the bounds it keeps; the imperative
  method adds them up into a running score as the source does.
 */
module RepoScoring {
  import opened Seqs
  import opened ScoringConfig

  datatype RepoScoreBreakdown = RepoScoreBreakdown(
    total: real,
    stars: real,
    forks: real,
    recency: real,
    originalWork: real,
    description: real,
    topics: real,
    language: real,
    watchers: real,
    archived: real,
    size: real,
    openIssues: real,
    createdIn2025: real)

  /** The twelve factors of a breakdown added up (everything but `total`). */
  function ComponentSum(b: RepoScoreBreakdown): real
  {
    b.stars + b.forks + b.recency + b.originalWork + b.description + b.topics
    + b.language + b.watchers + b.archived + b.size + b.openIssues + b.createdIn2025
  }

  // ---------------------------------------------------------------------------
  // The factors
  // ---------------------------------------------------------------------------

  /** 1. Stars, on a logarithmic scale; `+ 1` keeps a star-less repository at log10(1). */
  function StarsScore(stars: nat, log10: nat -> real): (r: real)
    requires IsLog10(log10)
    ensures 0.0 <= r <= StarsMaxPoints
    ensures stars == 0 ==> r == 0.0
  {
    Log10NonNegative(log10, stars + 1);
    Min(log10(stars + 1) * StarsLogMultiplier, StarsMaxPoints)
  }

  /** 2. Forks, same shape as stars with their own multiplier and cap. */
  function ForksScore(forks: nat, log10: nat -> real): (r: real)
    requires IsLog10(log10)
    ensures 0.0 <= r <= ForksMaxPoints
    ensures forks == 0 ==> r == 0.0
  {
    Log10NonNegative(log10, forks + 1);
    Min(log10(forks + 1) * ForksLogMultiplier, ForksMaxPoints)
  }

  /**
    3. Recency: only for a repository pushed on or after the period start; it
    loses one point per `RecencyDecayDays` days since the push, down to zero.
   */
  function RecencyScore(pushedAt: Timestamp, now: Timestamp, periodStart: Timestamp): (r: real)
    ensures 0.0 <= r <= RecencyMaxPoints
    ensures pushedAt < periodStart ==> r == 0.0
    ensures periodStart <= pushedAt && now <= pushedAt ==> r == RecencyMaxPoints
  {
    if pushedAt >= periodStart then
      var daysSincePush := Max(0.0, (now - pushedAt) as real / MsPerDay as real);
      Max(0.0, RecencyMaxPoints - daysSincePush / RecencyDecayDays)
    else 0.0
  }

  /** 4. Bonus for work that is not a fork. */
  function OriginalWorkScore(fork: bool): real
  {
    if !fork then OriginalWorkBonus else 0.0
  }

  /** 5. Bonus for a description of more than ten characters once trimmed. */
  function DescriptionScore(description: Option<string>): real
  {
    if Truthy(description) && |Trim(description.value)| > 10 then HasDescriptionBonus else 0.0
  }

  /** 6. Bonus for at least one topic. */
  function TopicsScore(topics: seq<string>): real
  {
    if |topics| > 0 then HasTopicsBonus else 0.0
  }

  /** 7. Bonus for a recorded primary language. */
  function LanguagePresentScore(language: Option<string>): real
  {
    if Truthy(language) then HasLanguageBonus else 0.0
  }

  /** 8. Watchers, linear up to a cap. */
  function WatchersScore(watchers: nat): (r: real)
    ensures 0.0 <= r <= WatchersMax
    ensures watchers == 0 ==> r == 0.0
  {
    Min(watchers as real * WatchersMultiplier, WatchersMax)
  }

  /** 9. Penalty for an archived repository, the only negative factor. */
  function ArchivedScore(archived: bool): real
  {
    if archived then ArchivedPenalty else 0.0
  }

  /** 10. Size, logarithmic and capped; only a non-empty repository is scored, so log10(0) never arises. */
  function SizeScore(size: nat, log10: nat -> real): (r: real)
    requires IsLog10(log10)
    ensures 0.0 <= r <= SizeMaxPoints
    ensures size == 0 ==> r == 0.0
  {
    if size > 0 then
      Log10NonNegative(log10, size);
      Min(log10(size) * SizeLogMultiplier, SizeMaxPoints)
    else 0.0
  }

  /** 11. Open issues, logarithmic of count + 1 and capped, only when there are any. */
  function OpenIssuesScore(openIssues: nat, log10: nat -> real): (r: real)
    requires IsLog10(log10)
    ensures 0.0 <= r <= OpenIssuesMaxPoints
    ensures openIssues == 0 ==> r == 0.0
  {
    if openIssues > 0 then
      Log10NonNegative(log10, openIssues + 1);
      Min(log10(openIssues + 1) * OpenIssuesLogMultiplier, OpenIssuesMaxPoints)
    else 0.0
  }

  /** 12. Bonus for a repository created on or after the period start. */
  function CreatedScore(createdAt: Timestamp, periodStart: Timestamp): real
  {
    if createdAt >= periodStart then CreatedIn2025Bonus else 0.0
  }

  /** The score `calculateRepoScore` returns: the twelve factors added up. */
  function RepoScore(repo: Repository, now: Timestamp, periodStart: Timestamp, log10: nat -> real): real
    requires IsLog10(log10)
  {
    StarsScore(repo.stargazersCount, log10) + ForksScore(repo.forksCount, log10)
    + RecencyScore(repo.pushedAt, now, periodStart) + OriginalWorkScore(repo.fork)
    + DescriptionScore(repo.description) + TopicsScore(repo.topics)
    + LanguagePresentScore(repo.language) + WatchersScore(repo.watchersCount)
    + ArchivedScore(repo.archived) + SizeScore(repo.size, log10)
    + OpenIssuesScore(repo.openIssuesCount, log10) + CreatedScore(repo.createdAt, periodStart)
  }

  // ---------------------------------------------------------------------------
  // The operations
  // ---------------------------------------------------------------------------

  /**
    `calculateRepoScoreBreakdown`: each factor is computed, stored in the
    breakdown and added to a running score, which becomes `total`. The wall
    clock `now` and the period start are parameters.
   */
  method CalculateRepoScoreBreakdown(repo: Repository, now: Timestamp, periodStart: Timestamp, log10: nat -> real)
    returns (b: RepoScoreBreakdown)
    requires IsLog10(log10)
    ensures b.total == ComponentSum(b)
    ensures b.stars == StarsScore(repo.stargazersCount, log10)
    ensures b.forks == ForksScore(repo.forksCount, log10)
    ensures b.recency == RecencyScore(repo.pushedAt, now, periodStart)
    ensures b.originalWork == OriginalWorkScore(repo.fork)
    ensures b.description == DescriptionScore(repo.description)
    ensures b.topics == TopicsScore(repo.topics)
    ensures b.language == LanguagePresentScore(repo.language)
    ensures b.watchers == WatchersScore(repo.watchersCount)
    ensures b.archived == ArchivedScore(repo.archived)
    ensures b.size == SizeScore(repo.size, log10)
    ensures b.openIssues == OpenIssuesScore(repo.openIssuesCount, log10)
    ensures b.createdIn2025 == CreatedScore(repo.createdAt, periodStart)
  {
    var score := 0.0;

    // 1. Stars
    var stars := Min(log10(repo.stargazersCount + 1) * StarsLogMultiplier, StarsMaxPoints);
    score := score + stars;
    assert stars == StarsScore(repo.stargazersCount, log10) && score == stars;

    // 2. Forks
    ghost var prev := score;
    var forks := Min(log10(repo.forksCount + 1) * ForksLogMultiplier, ForksMaxPoints);
    score := score + forks;
    assert forks == ForksScore(repo.forksCount, log10) && score == prev + forks;

    // 3. Recency
    prev := score;
    var recency := 0.0;
    if repo.pushedAt >= periodStart {
      var daysSincePush := Max(0.0, (now - repo.pushedAt) as real / MsPerDay as real);
      recency := Max(0.0, RecencyMaxPoints - daysSincePush / RecencyDecayDays);
      score := score + recency;
    }
    assert recency == RecencyScore(repo.pushedAt, now, periodStart) && score == prev + recency;

    // 4. Original work
    prev := score;
    var originalWork := 0.0;
    if !repo.fork {
      originalWork := OriginalWorkBonus;
      score := score + originalWork;
    }
    assert originalWork == OriginalWorkScore(repo.fork) && score == prev + originalWork;

    // 5. Description
    prev := score;
    var description := 0.0;
    if Truthy(repo.description) && |Trim(repo.description.value)| > 10 {
      description := HasDescriptionBonus;
      score := score + description;
    }
    assert description == DescriptionScore(repo.description) && score == prev + description;

    // 6. Topics
    prev := score;
    var topics := 0.0;
    if |repo.topics| > 0 {
      topics := HasTopicsBonus;
      score := score + topics;
    }
    assert topics == TopicsScore(repo.topics) && score == prev + topics;

    // 7. Language
    prev := score;
    var language := 0.0;
    if Truthy(repo.language) {
      language := HasLanguageBonus;
      score := score + language;
    }
    assert language == LanguagePresentScore(repo.language) && score == prev + language;

    // 8. Watchers
    prev := score;
    var watchers := Min(repo.watchersCount as real * WatchersMultiplier, WatchersMax);
    score := score + watchers;
    assert watchers == WatchersScore(repo.watchersCount) && score == prev + watchers;

    // 9. Archived
    prev := score;
    var archived := 0.0;
    if repo.archived {
      archived := ArchivedPenalty;
      score := score + archived;
    }
    assert archived == ArchivedScore(repo.archived) && score == prev + archived;

    // 10. Size
    prev := score;
    var size := 0.0;
    if repo.size > 0 {
      size := Min(log10(repo.size) * SizeLogMultiplier, SizeMaxPoints);
      score := score + size;
    }
    assert size == SizeScore(repo.size, log10) && score == prev + size;

    // 11. Open issues
    prev := score;
    var openIssues := 0.0;
    if repo.openIssuesCount > 0 {
      openIssues := Min(log10(repo.openIssuesCount + 1) * OpenIssuesLogMultiplier, OpenIssuesMaxPoints);
      score := score + openIssues;
    }
    assert openIssues == OpenIssuesScore(repo.openIssuesCount, log10) && score == prev + openIssues;

    // 12. Created in the period
    prev := score;
    var createdIn2025 := 0.0;
    if repo.createdAt >= periodStart {
      createdIn2025 := CreatedIn2025Bonus;
      score := score + createdIn2025;
    }
    assert createdIn2025 == CreatedScore(repo.createdAt, periodStart) && score == prev + createdIn2025;

    b := RepoScoreBreakdown(score, stars, forks, recency, originalWork, description, topics,
                            language, watchers, archived, size, openIssues, createdIn2025);
  }

  /** `calculateRepoScore`: the total of the breakdown. */
  method CalculateRepoScore(repo: Repository, now: Timestamp, periodStart: Timestamp, log10: nat -> real)
    returns (score: real)
    requires IsLog10(log10)
    ensures score == RepoScore(repo, now, periodStart, log10)
  {
    var b := CalculateRepoScoreBreakdown(repo, now, periodStart, log10);
    BreakdownTotalIsRepoScore(b, repo, now, periodStart, log10);
    score := b.total;
  }

  /** A breakdown whose fields are the twelve factors of `repo` totals to its score. */
  lemma BreakdownTotalIsRepoScore(b: RepoScoreBreakdown, repo: Repository, now: Timestamp, periodStart: Timestamp, log10: nat -> real)
    requires IsLog10(log10)
    requires b.total == ComponentSum(b)
    requires b.stars == StarsScore(repo.stargazersCount, log10)
    requires b.forks == ForksScore(repo.forksCount, log10)
    requires b.recency == RecencyScore(repo.pushedAt, now, periodStart)
    requires b.originalWork == OriginalWorkScore(repo.fork)
    requires b.description == DescriptionScore(repo.description)
    requires b.topics == TopicsScore(repo.topics)
    requires b.language == LanguagePresentScore(repo.language)
    requires b.watchers == WatchersScore(repo.watchersCount)
    requires b.archived == ArchivedScore(repo.archived)
    requires b.size == SizeScore(repo.size, log10)
    requires b.openIssues == OpenIssuesScore(repo.openIssuesCount, log10)
    requires b.createdIn2025 == CreatedScore(repo.createdAt, periodStart)
    ensures b.total == RepoScore(repo, now, periodStart, log10)
  {
  }

  // ---------------------------------------------------------------------------
  // Properties
  // ---------------------------------------------------------------------------

  /** The flag factors take exactly their configured value when their condition holds, and 0 otherwise. */
  lemma FlagFactors(repo: Repository, periodStart: Timestamp)
    ensures OriginalWorkScore(repo.fork) == (if repo.fork then 0.0 else 15.0)
    ensures ArchivedScore(repo.archived) == (if repo.archived then -20.0 else 0.0)
    ensures DescriptionScore(repo.description) == 5.0
      <==> repo.description.Some? && |Trim(repo.description.value)| > 10
    ensures DescriptionScore(repo.description) != 5.0 ==> DescriptionScore(repo.description) == 0.0
    ensures TopicsScore(repo.topics) == (if |repo.topics| >= 1 then 5.0 else 0.0)
    ensures LanguagePresentScore(repo.language) == 3.0
      <==> repo.language.Some? && repo.language.value != ""
    ensures LanguagePresentScore(repo.language) != 3.0 ==> LanguagePresentScore(repo.language) == 0.0
    ensures CreatedScore(repo.createdAt, periodStart) == (if repo.createdAt >= periodStart then 10.0 else 0.0)
  {
  }

  /** A description that is only whitespace, however long, earns nothing. */
  lemma BlankDescriptionEarnsNothing(d: string)
    requires forall k :: 0 <= k < |d| ==> IsJsWhitespace(d[k])
    ensures DescriptionScore(Some(d)) == 0.0
  {
    BlankTrimsToEmpty(d);
  }

  /** Archiving a repository, and nothing else, lowers its score by exactly 20. */
  lemma ArchivingCostsTwenty(repo: Repository, now: Timestamp, periodStart: Timestamp, log10: nat -> real)
    requires IsLog10(log10)
    ensures RepoScore(repo.(archived := true), now, periodStart, log10)
         == RepoScore(repo.(archived := false), now, periodStart, log10) - 20.0
  {
  }

  /** The total stays between the archived-fork floor and the sum of every cap and bonus. */
  lemma RepoScoreBounds(repo: Repository, now: Timestamp, periodStart: Timestamp, log10: nat -> real)
    requires IsLog10(log10)
    ensures -20.0 <= RepoScore(repo, now, periodStart, log10) <= 136.0
  {
  }

  /** More stars never score less (until the cap). */
  lemma StarsMonotone(a: nat, b: nat, log10: nat -> real)
    requires IsLog10(log10)
    requires a <= b
    ensures StarsScore(a, log10) <= StarsScore(b, log10)
  {
    assert log10(a + 1) <= log10(b + 1);
  }

  lemma ForksMonotone(a: nat, b: nat, log10: nat -> real)
    requires IsLog10(log10)
    requires a <= b
    ensures ForksScore(a, log10) <= ForksScore(b, log10)
  {
    assert log10(a + 1) <= log10(b + 1);
  }

  lemma SizeMonotone(a: nat, b: nat, log10: nat -> real)
    requires IsLog10(log10)
    requires a <= b
    ensures SizeScore(a, log10) <= SizeScore(b, log10)
  {
    if a > 0 { assert log10(a) <= log10(b); }
  }

  lemma OpenIssuesMonotone(a: nat, b: nat, log10: nat -> real)
    requires IsLog10(log10)
    requires a <= b
    ensures OpenIssuesScore(a, log10) <= OpenIssuesScore(b, log10)
  {
    if a > 0 { assert log10(a + 1) <= log10(b + 1); }
  }

  /** Of two pushes inside the period, the later one never scores less recency. */
  lemma RecencyMonotone(p1: Timestamp, p2: Timestamp, now: Timestamp, periodStart: Timestamp)
    requires periodStart <= p1 <= p2
    ensures RecencyScore(p1, now, periodStart) <= RecencyScore(p2, now, periodStart)
  {
    var d1 := (now - p1) as real / MsPerDay as real;
    var d2 := (now - p2) as real / MsPerDay as real;
    assert d2 <= d1;
  }

  /** A push 375 days (25 points times 15 days) or more before `now` has decayed to nothing. */
  lemma RecencyDecaysToZero(pushedAt: Timestamp, now: Timestamp, periodStart: Timestamp)
    requires now - pushedAt >= 375 * MsPerDay
    ensures RecencyScore(pushedAt, now, periodStart) == 0.0
  {
    if pushedAt >= periodStart {
      var d := (now - pushedAt) as real / MsPerDay as real;
      assert (now - pushedAt) as real >= 375.0 * MsPerDay as real;
      assert d >= 375.0;
    }
  }
}
