/**
  Language rankings (`calculateLanguageScores`, `getTopLanguages`): a
  first pass counts every non-fork repository with a language into a table
  keyed by language, a second pass adds the diversity bonus, and the ranking
  sorts the table's entries by weight and keeps the first N.

  The table is a JavaScript `Map`, which iterates in insertion order; it is
  modelled as the keys in that order together with a map from key to entry.
 */
module LanguageScoring {
  import opened Seqs
  import opened ScoringConfig

  datatype LanguageScore = LanguageScore(name: string, weight: real, repoCount: nat, recentCount: nat)

  /** A `Map<string, LanguageScore>`: `order` lists the keys as they were first set. */
  datatype LanguageMap = LanguageMap(order: seq<string>, entries: map<string, LanguageScore>)

  /** Every key in the insertion order has an entry; the order has no repetitions. */
  predicate WellFormed(m: LanguageMap)
  {
    && Distinct(m.order)
    && forall i :: 0 <= i < |m.order| ==> m.order[i] in m.entries
  }

  // ---------------------------------------------------------------------------
  // What the first pass counts
  // ---------------------------------------------------------------------------

  /** A repository counts for its language unless it is a fork or has no language. */
  predicate Counted(repo: Repository)
  {
    !repo.fork && Truthy(repo.language)
  }

  predicate Recent(repo: Repository, periodStart: Timestamp)
  {
    repo.pushedAt >= periodStart
  }

  /** The language of each counted repository, in input order. */
  function CountedLanguages(repos: seq<Repository>): (langs: seq<string>)
    ensures |langs| <= |repos|
    decreases |repos|
  {
    if repos == [] then []
    else
      var init, repo := repos[..|repos| - 1], repos[|repos| - 1];
      CountedLanguages(init) + (if Counted(repo) then [repo.language.value] else [])
  }

  /** The language of each counted repository pushed in the period, in input order. */
  function RecentLanguages(repos: seq<Repository>, periodStart: Timestamp): (langs: seq<string>)
    ensures |langs| <= |repos|
    decreases |repos|
  {
    if repos == [] then []
    else
      var init, repo := repos[..|repos| - 1], repos[|repos| - 1];
      RecentLanguages(init, periodStart)
      + (if Counted(repo) && Recent(repo, periodStart) then [repo.language.value] else [])
  }

  /** The repositories of a language, and how many of them were pushed in the period. */
  function RepoCount(repos: seq<Repository>, lang: string): nat
  {
    Count(CountedLanguages(repos), lang)
  }

  function RecentCount(repos: seq<Repository>, periodStart: Timestamp, lang: string): nat
  {
    Count(RecentLanguages(repos, periodStart), lang)
  }

  /**
    The weight a language ends with: the base weight per repository, the
    recent-activity bonus per recent repository, and the diversity bonus per
    repository beyond the threshold.
   */
  function ExpectedWeight(repoCount: nat, recentCount: nat): real
  {
    var beyond := if repoCount > DiversityThreshold then repoCount - DiversityThreshold else 0;
    repoCount as real * BaseWeight + recentCount as real * RecentActivityBonus + beyond as real * DiversityBonus
  }

  /** The entry the table holds for `lang` once both passes are done. */
  function ExpectedScore(repos: seq<Repository>, periodStart: Timestamp, lang: string): LanguageScore
  {
    var n, r := RepoCount(repos, lang), RecentCount(repos, periodStart, lang);
    LanguageScore(lang, ExpectedWeight(n, r), n, r)
  }

  /** The entry after the first pass only: no diversity bonus yet. */
  function CountedScore(repos: seq<Repository>, periodStart: Timestamp, lang: string): LanguageScore
  {
    var n, r := RepoCount(repos, lang), RecentCount(repos, periodStart, lang);
    LanguageScore(lang, n as real * BaseWeight + r as real * RecentActivityBonus, n, r)
  }

  // ---------------------------------------------------------------------------
  // calculateLanguageScores
  // ---------------------------------------------------------------------------

  /**
    `calculateLanguageScores`: counts the repositories (and the recent ones)
    of each language, which also fixes the insertion order of the table,
    then gives each language with more than `DiversityThreshold` repositories
    its diversity bonus. The two passes are the two methods below.
   */
  method CalculateLanguageScores(repos: seq<Repository>, periodStart: Timestamp) returns (m: LanguageMap)
    ensures WellFormed(m)
    ensures m.order == Dedup(CountedLanguages(repos))
    ensures forall lang :: lang in m.entries <==> lang in CountedLanguages(repos)
    ensures forall lang :: lang in m.entries ==> m.entries[lang] == ExpectedScore(repos, periodStart, lang)
  {
    var counted := CountLanguages(repos, periodStart);
    FirstPassWellFormed(repos, periodStart);
    var entries := AddDiversityBonus(counted.order, counted.entries);
    m := LanguageMap(counted.order, entries);
    LanguageScoresCorrect(repos, periodStart);
  }

  /** The first pass: one entry per language of a counted repository, created when first seen. */
  method CountLanguages(repos: seq<Repository>, periodStart: Timestamp) returns (m: LanguageMap)
    ensures m == FirstPass(repos, periodStart)
  {
    var order: seq<string> := [];
    var entries: map<string, LanguageScore> := map[];
    for i := 0 to |repos|
      invariant LanguageMap(order, entries) == FirstPass(repos[..i], periodStart)
    {
      var repo := repos[i];
      assert repos[..i + 1][..i] == repos[..i];
      if repo.fork || !Truthy(repo.language) {
        continue;
      }
      var lang := repo.language.value;
      var isRecent := repo.pushedAt >= periodStart;
      ghost var before := entries;
      if lang !in entries {
        entries := entries[lang := LanguageScore(lang, 0.0, 0, 0)];
        order := order + [lang];
      }
      var score := entries[lang];
      score := score.(repoCount := score.repoCount + 1);
      if isRecent {
        score := score.(recentCount := score.recentCount + 1);
      }
      score := score.(weight := score.weight + BaseWeight + (if isRecent then RecentActivityBonus else 0.0));
      entries := entries[lang := score];
      assert entries == before[lang := score];
    }
    assert repos[..|repos|] == repos;
    m := LanguageMap(order, entries);
  }

  /** The second pass: visits the languages in insertion order and adds the diversity bonus. */
  method AddDiversityBonus(order: seq<string>, counted: map<string, LanguageScore>)
    returns (entries: map<string, LanguageScore>)
    requires forall j :: 0 <= j < |order| ==> order[j] in counted
    ensures entries == SecondPass(order, counted)
  {
    entries := counted;
    for j := 0 to |order|
      invariant entries == SecondPass(order[..j], counted)
      invariant entries.Keys == counted.Keys
    {
      assert order[..j + 1][..j] == order[..j];
      var score := entries[order[j]];
      if score.repoCount >= DiversityThreshold {
        var extraRepos := score.repoCount - DiversityThreshold;
        score := score.(weight := score.weight + extraRepos as real * DiversityBonus);
        entries := entries[order[j] := score];
      }
    }
    assert order[..|order|] == order;
  }

  /** The table the first pass builds from `repos`, one repository at a time. */
  ghost function FirstPass(repos: seq<Repository>, periodStart: Timestamp): LanguageMap
    decreases |repos|
  {
    if repos == [] then LanguageMap([], map[])
    else FirstPassUpdate(FirstPass(repos[..|repos| - 1], periodStart), repos[|repos| - 1], periodStart)
  }

  /** The entries after the second pass has visited the keys `keys`. */
  ghost function SecondPass(keys: seq<string>, entries: map<string, LanguageScore>): map<string, LanguageScore>
    decreases |keys|
  {
    if keys == [] then entries
    else
      var done, lang := SecondPass(keys[..|keys| - 1], entries), keys[|keys| - 1];
      if lang in done && done[lang].repoCount >= DiversityThreshold
      then done[lang := done[lang].(weight := done[lang].weight
                                     + (done[lang].repoCount - DiversityThreshold) as real * DiversityBonus)]
      else done
  }

  /** The table once the first pass has seen `repos`: keys in first-seen order, entries without diversity bonus. */
  ghost predicate FirstPassDone(repos: seq<Repository>, periodStart: Timestamp, m: LanguageMap)
  {
    && m.order == Dedup(CountedLanguages(repos))
    && (forall lang :: lang in m.entries <==> lang in CountedLanguages(repos))
    && (forall lang :: lang in m.entries ==> m.entries[lang] == CountedScore(repos, periodStart, lang))
  }

  /** What one step of the first pass does to the table. */
  ghost function FirstPassUpdate(m: LanguageMap, repo: Repository, periodStart: Timestamp): LanguageMap
  {
    if !Counted(repo) then m
    else
      var lang := repo.language.value;
      var prev := if lang in m.entries then m.entries[lang] else LanguageScore(lang, 0.0, 0, 0);
      var recent := Recent(repo, periodStart);
      var next := LanguageScore(prev.name,
                                prev.weight + BaseWeight + (if recent then RecentActivityBonus else 0.0),
                                prev.repoCount + 1,
                                prev.recentCount + (if recent then 1 else 0));
      LanguageMap(if lang in m.entries then m.order else m.order + [lang], m.entries[lang := next])
  }

  lemma FirstPassStepKeeps(before: seq<Repository>, repo: Repository, periodStart: Timestamp, m: LanguageMap)
    requires FirstPassDone(before, periodStart, m)
    ensures FirstPassDone(before + [repo], periodStart, FirstPassUpdate(m, repo, periodStart))
  {
    if Counted(repo) {
      CountedStepKeeps(before, repo, periodStart, m);
    } else {
      var all := before + [repo];
      assert all[..|all| - 1] == before;
      assert CountedLanguages(all) == CountedLanguages(before);
      assert RecentLanguages(all, periodStart) == RecentLanguages(before, periodStart);
    }
  }

  lemma CountedStepKeeps(before: seq<Repository>, repo: Repository, periodStart: Timestamp, m: LanguageMap)
    requires FirstPassDone(before, periodStart, m)
    requires Counted(repo)
    ensures FirstPassDone(before + [repo], periodStart, FirstPassUpdate(m, repo, periodStart))
  {
    CountedStepLanguages(before, repo);
    CountedStepEntries(before, repo, periodStart, m);
    DedupSnoc(CountedLanguages(before), repo.language.value);
  }

  lemma CountedStepLanguages(before: seq<Repository>, repo: Repository)
    requires Counted(repo)
    ensures CountedLanguages(before + [repo]) == CountedLanguages(before) + [repo.language.value]
  {
    var all := before + [repo];
    assert all[..|all| - 1] == before;
  }

  lemma CountedStepEntries(before: seq<Repository>, repo: Repository, periodStart: Timestamp, m: LanguageMap)
    requires forall l :: l in m.entries <==> l in CountedLanguages(before)
    requires forall l :: l in m.entries ==> m.entries[l] == CountedScore(before, periodStart, l)
    requires Counted(repo)
    ensures var m' := FirstPassUpdate(m, repo, periodStart);
      forall l :: l in m'.entries ==> m'.entries[l] == CountedScore(before + [repo], periodStart, l)
  {
    var lang := repo.language.value;
    var m' := FirstPassUpdate(m, repo, periodStart);
    CountedStepOwnEntry(before, repo, periodStart, m);
    FirstPassStep(before, repo, periodStart);
    forall l | l in m'.entries && l != lang ensures m'.entries[l] == CountedScore(before + [repo], periodStart, l) {
      assert m'.entries[l] == m.entries[l];
    }
  }

  /** The entry of the repository's own language after its step. */
  lemma CountedStepOwnEntry(before: seq<Repository>, repo: Repository, periodStart: Timestamp, m: LanguageMap)
    requires Counted(repo)
    requires repo.language.value in m.entries <==> repo.language.value in CountedLanguages(before)
    requires repo.language.value in m.entries ==>
      m.entries[repo.language.value] == CountedScore(before, periodStart, repo.language.value)
    ensures var m', lang := FirstPassUpdate(m, repo, periodStart), repo.language.value;
      lang in m'.entries && m'.entries[lang] == CountedScore(before + [repo], periodStart, lang)
  {
    var lang := repo.language.value;
    var prev := CountedScore(before, periodStart, lang);
    PreviousEntry(before, periodStart, m, lang);
    var recent := if Recent(repo, periodStart) then 1 else 0;
    var n, r := prev.repoCount, prev.recentCount;
    var m' := FirstPassUpdate(m, repo, periodStart);
    WeightStep(n, r, recent);
    assert m'.entries[lang] == LanguageScore(lang, n as real * BaseWeight + r as real * RecentActivityBonus + BaseWeight
                                                     + recent as real * RecentActivityBonus, n + 1, r + recent);
    FirstPassStep(before, repo, periodStart);
    assert RepoCount(before + [repo], lang) == n + 1;
    assert RecentCount(before + [repo], periodStart, lang) == r + recent;
  }

  /** The entry the first pass finds for a language: the counted score so far, or a fresh one. */
  lemma PreviousEntry(before: seq<Repository>, periodStart: Timestamp, m: LanguageMap, lang: string)
    requires lang in m.entries <==> lang in CountedLanguages(before)
    requires lang in m.entries ==> m.entries[lang] == CountedScore(before, periodStart, lang)
    ensures (if lang in m.entries then m.entries[lang] else LanguageScore(lang, 0.0, 0, 0))
         == CountedScore(before, periodStart, lang)
  {
    if lang !in m.entries {
      CountZero(CountedLanguages(before), lang);
      RecentAtMostRepoCount(before, periodStart, lang);
    }
  }

  /** One more repository, `recent` of them recent, adds its base weight and bonus. */
  lemma WeightStep(n: nat, r: nat, recent: nat)
    ensures (n + 1) as real * BaseWeight + (r + recent) as real * RecentActivityBonus
         == n as real * BaseWeight + r as real * RecentActivityBonus + BaseWeight + recent as real * RecentActivityBonus
  {
    assert BaseWeight == 1.0 && RecentActivityBonus == 1.0;
  }

  lemma {:induction false} FirstPassCorrect(repos: seq<Repository>, periodStart: Timestamp)
    ensures FirstPassDone(repos, periodStart, FirstPass(repos, periodStart))
    decreases |repos|
  {
    if repos != [] {
      var init := repos[..|repos| - 1];
      assert repos == init + [repos[|repos| - 1]];
      FirstPassCorrect(init, periodStart);
      FirstPassStepKeeps(init, repos[|repos| - 1], periodStart, FirstPass(init, periodStart));
    }
  }

  /**
    Over distinct keys, the second pass leaves the keys alone, gives each
    visited key its diversity bonus and leaves every other entry unchanged.
   */
  lemma {:induction false} SecondPassEntries(keys: seq<string>, entries: map<string, LanguageScore>)
    requires Distinct(keys)
    ensures SecondPass(keys, entries).Keys == entries.Keys
    ensures forall lang :: lang in entries && lang !in keys ==> SecondPass(keys, entries)[lang] == entries[lang]
    ensures forall lang :: lang in entries && lang in keys ==>
      SecondPass(keys, entries)[lang] == WithDiversityBonus(entries[lang])
    decreases |keys|
  {
    if keys != [] {
      var init := keys[..|keys| - 1];
      assert keys == init + [keys[|keys| - 1]];
      SecondPassEntries(init, entries);
    }
  }

  /** A first-pass entry with the diversity bonus added at most once. */
  function WithDiversityBonus(s: LanguageScore): LanguageScore
  {
    if s.repoCount >= DiversityThreshold
    then s.(weight := s.weight + (s.repoCount - DiversityThreshold) as real * DiversityBonus)
    else s
  }

  lemma FirstPassWellFormed(repos: seq<Repository>, periodStart: Timestamp)
    ensures WellFormed(FirstPass(repos, periodStart))
  {
    FirstPassCorrect(repos, periodStart);
    DedupSpec(CountedLanguages(repos));
  }

  /** Both passes together compute the expected table. */
  lemma LanguageScoresCorrect(repos: seq<Repository>, periodStart: Timestamp)
    ensures var counted := FirstPass(repos, periodStart);
      var m := LanguageMap(counted.order, SecondPass(counted.order, counted.entries));
      && WellFormed(m)
      && m.order == Dedup(CountedLanguages(repos))
      && (forall lang :: lang in m.entries <==> lang in CountedLanguages(repos))
      && (forall lang :: lang in m.entries ==> m.entries[lang] == ExpectedScore(repos, periodStart, lang))
  {
    var counted := FirstPass(repos, periodStart);
    FirstPassCorrect(repos, periodStart);
    FirstPassWellFormed(repos, periodStart);
    DedupSpec(CountedLanguages(repos));
    SecondPassEntries(counted.order, counted.entries);
    SecondPassCorrect(repos, periodStart);
  }

  /** After the second pass every entry has its final weight. */
  lemma SecondPassCorrect(repos: seq<Repository>, periodStart: Timestamp)
    ensures var counted := FirstPass(repos, periodStart);
      var entries := SecondPass(counted.order, counted.entries);
      forall lang :: lang in entries ==> entries[lang] == ExpectedScore(repos, periodStart, lang)
  {
    var counted := FirstPass(repos, periodStart);
    var langs := CountedLanguages(repos);
    FirstPassCorrect(repos, periodStart);
    DedupSpec(langs);
    DedupMembers(langs);
    SecondPassEntries(counted.order, counted.entries);
    var entries := SecondPass(counted.order, counted.entries);
    forall lang | lang in entries ensures entries[lang] == ExpectedScore(repos, periodStart, lang) {
      var k := FirstIndex(langs, lang);
      assert lang in counted.order;
      BonusCompletes(repos, periodStart, lang);
    }
  }

  lemma BonusCompletes(repos: seq<Repository>, periodStart: Timestamp, lang: string)
    ensures WithDiversityBonus(CountedScore(repos, periodStart, lang)) == ExpectedScore(repos, periodStart, lang)
  {
    BonusStep(RepoCount(repos, lang), RecentCount(repos, periodStart, lang));
  }

  /** The second pass completes the first-pass weight to the final one. */
  lemma BonusStep(n: nat, r: nat)
    ensures var first := n as real * BaseWeight + r as real * RecentActivityBonus;
      ExpectedWeight(n, r)
      == if n >= DiversityThreshold then first + (n - DiversityThreshold) as real * DiversityBonus else first
  {
  }

  /**
    How one counted repository changes the table after the first pass: its own
    language gains one repository (and one recent one if pushed in the period)
    and the weight that goes with it; every other language is unchanged.
   */
  lemma FirstPassStep(before: seq<Repository>, repo: Repository, periodStart: Timestamp)
    requires Counted(repo)
    ensures forall lang :: RepoCount(before + [repo], lang)
                           == RepoCount(before, lang) + (if lang == repo.language.value then 1 else 0)
    ensures forall lang :: RecentCount(before + [repo], periodStart, lang)
                           == RecentCount(before, periodStart, lang)
                              + (if lang == repo.language.value && Recent(repo, periodStart) then 1 else 0)
  {
    var all := before + [repo];
    assert all[..|all| - 1] == before;
    forall lang | true
      ensures RepoCount(all, lang) == RepoCount(before, lang) + (if lang == repo.language.value then 1 else 0)
      ensures RecentCount(all, periodStart, lang)
              == RecentCount(before, periodStart, lang)
                 + (if lang == repo.language.value && Recent(repo, periodStart) then 1 else 0)
    {
      CountSnoc(CountedLanguages(before), repo.language.value, lang);
      if Recent(repo, periodStart) {
        CountSnoc(RecentLanguages(before, periodStart), repo.language.value, lang);
      } else {
        assert RecentLanguages(all, periodStart) == RecentLanguages(before, periodStart);
      }
    }
  }

  // ---------------------------------------------------------------------------
  // getTopLanguages
  // ---------------------------------------------------------------------------

  function Weight(s: LanguageScore): real { s.weight }

  /** `Array.from(langMap.values())`: the entries in insertion order. */
  function Values(m: LanguageMap): (vs: seq<LanguageScore>)
    requires WellFormed(m)
    ensures |vs| == |m.order|
    ensures forall i :: 0 <= i < |vs| ==> vs[i] == m.entries[m.order[i]]
  {
    seq(|m.order|, i requires 0 <= i < |m.order| => m.entries[m.order[i]])
  }

  /** `getTopLanguages(langMap, topN = 3)`: the entries sorted by weight, heaviest first, cut to `topN`. */
  function GetTopLanguages(m: LanguageMap, topN: int := 3): (top: seq<LanguageScore>)
    requires WellFormed(m)
    ensures topN >= 0 ==> |top| == if topN < |m.order| then topN else |m.order|
    ensures |top| <= |m.order|
    ensures SortedDesc(top, Weight)
    ensures multiset(top) <= multiset(Values(m))
    ensures forall i :: 0 <= i < |top| ==> exists lang :: lang in m.entries && top[i] == m.entries[lang]
  {
    var sorted := SortDesc(Values(m), Weight);
    var top := JsSlice(sorted, 0, topN);
    SliceOfSorted(sorted, 0, topN);
    forall i | 0 <= i < |top| ensures exists lang :: lang in m.entries && top[i] == m.entries[lang] {
      assert top[i] in multiset(Values(m));
      var k :| 0 <= k < |Values(m)| && Values(m)[k] == top[i];
      assert m.order[k] in m.entries;
    }
    top
  }

  /** Every entry left out of the ranking weighs no more than any entry in it. */
  lemma TopLanguagesAreHeaviest(m: LanguageMap, topN: int)
    requires WellFormed(m) && topN >= 0
    ensures var top := GetTopLanguages(m, topN);
      forall x :: x in multiset(Values(m)) - multiset(top) ==> forall i :: 0 <= i < |top| ==> top[i].weight >= x.weight
  {
    var sorted := SortDesc(Values(m), Weight);
    var k := if topN < |sorted| then topN else |sorted|;
    SlicePrefix(sorted, topN);
    var top := GetTopLanguages(m, topN);
    assert top == sorted[..k];
    assert multiset(sorted) == multiset(Values(m));
    SortedPrefixIsLargest(sorted, Weight, k);
    forall x | x in multiset(Values(m)) - multiset(top)
      ensures forall i :: 0 <= i < |top| ==> top[i].weight >= x.weight
    {
      forall i | 0 <= i < |top| ensures top[i].weight >= x.weight {
        assert Weight(sorted[i]) == top[i].weight;
      }
    }
  }

  /** A slice of a sorted list is sorted and takes its elements from the list. */
  lemma SliceOfSorted(s: seq<LanguageScore>, start: int, end: int)
    requires SortedDesc(s, Weight)
    ensures SortedDesc(JsSlice(s, start, end), Weight)
    ensures multiset(JsSlice(s, start, end)) <= multiset(s)
  {
    var from, to := RelativeIndex(start, |s|), RelativeIndex(end, |s|);
    if from < to {
      InfixMultiset(s, from, to);
    }
  }

  lemma InfixMultiset<T>(s: seq<T>, from: nat, to: nat)
    requires from <= to <= |s|
    ensures multiset(s[from..to]) <= multiset(s)
  {
    assert s == s[..from] + (s[from..to] + s[to..]);
  }

  // ---------------------------------------------------------------------------
  // Properties
  // ---------------------------------------------------------------------------

  lemma {:induction false} CountedLanguagesConcat(a: seq<Repository>, b: seq<Repository>)
    ensures CountedLanguages(a + b) == CountedLanguages(a) + CountedLanguages(b)
    decreases |b|
  {
    if b == [] {
      assert a + b == a;
    } else {
      var b' := b[..|b| - 1];
      assert (a + b)[..|a + b| - 1] == a + b';
      CountedLanguagesConcat(a, b');
    }
  }

  lemma {:induction false} RecentLanguagesConcat(a: seq<Repository>, b: seq<Repository>, periodStart: Timestamp)
    ensures RecentLanguages(a + b, periodStart) == RecentLanguages(a, periodStart) + RecentLanguages(b, periodStart)
    decreases |b|
  {
    if b == [] {
      assert a + b == a;
    } else {
      var b' := b[..|b| - 1];
      assert (a + b)[..|a + b| - 1] == a + b';
      RecentLanguagesConcat(a, b', periodStart);
    }
  }

  /**
    Forks and repositories without a language are skipped whatever their other
    fields: putting one anywhere into the list changes no language's counts,
    so no entry of the table changes.
   */
  lemma UncountedRepoIsIgnored(a: seq<Repository>, repo: Repository, b: seq<Repository>, periodStart: Timestamp)
    requires repo.fork || !Truthy(repo.language)
    ensures CountedLanguages(a + [repo] + b) == CountedLanguages(a + b)
    ensures forall lang :: ExpectedScore(a + [repo] + b, periodStart, lang) == ExpectedScore(a + b, periodStart, lang)
  {
    CountedLanguagesConcat(a + [repo], b);
    CountedLanguagesConcat(a, [repo]);
    CountedLanguagesConcat(a, b);
    RecentLanguagesConcat(a + [repo], b, periodStart);
    RecentLanguagesConcat(a, [repo], periodStart);
    RecentLanguagesConcat(a, b, periodStart);
    assert CountedLanguages([repo]) == [] by { assert [repo][..0] == []; }
    assert RecentLanguages([repo], periodStart) == [] by { assert [repo][..0] == []; }
    assert CountedLanguages(a + [repo]) == CountedLanguages(a);
    assert RecentLanguages(a + [repo], periodStart) == RecentLanguages(a, periodStart);
    assert RecentLanguages(a + [repo] + b, periodStart) == RecentLanguages(a + b, periodStart);
  }

  /** Every counted repository adds exactly one to its own language: the counts add up to the number counted. */
  lemma RepoCountsSumToCounted(repos: seq<Repository>)
    ensures SumCounts(Dedup(CountedLanguages(repos)), CountedLanguages(repos)) == |CountedLanguages(repos)|
  {
    SumCountsDedup(CountedLanguages(repos));
  }

  /** Recent repositories of a language are among its repositories. */
  lemma {:induction false} RecentAtMostRepoCount(repos: seq<Repository>, periodStart: Timestamp, lang: string)
    ensures RecentCount(repos, periodStart, lang) <= RepoCount(repos, lang)
    decreases |repos|
  {
    if repos != [] {
      var init, repo := repos[..|repos| - 1], repos[|repos| - 1];
      assert repos == init + [repo];
      RecentAtMostRepoCount(init, periodStart, lang);
      if Counted(repo) {
        FirstPassStep(init, repo, periodStart);
        assert RepoCount(repos, lang) == RepoCount(init, lang) + (if lang == repo.language.value then 1 else 0);
      } else {
        assert CountedLanguages(repos) == CountedLanguages(init);
        assert RecentLanguages(repos, periodStart) == RecentLanguages(init, periodStart);
      }
    }
  }

  /**
    The diversity bonus starts only beyond the threshold: with exactly
    `DiversityThreshold` repositories there is none, with two more it is two bonuses.
   */
  lemma DiversityBonusExamples(recent: nat)
    ensures ExpectedWeight(DiversityThreshold, recent) == DiversityThreshold as real * BaseWeight + recent as real * RecentActivityBonus
    ensures ExpectedWeight(DiversityThreshold + 2, recent)
         == (DiversityThreshold + 2) as real * BaseWeight + recent as real * RecentActivityBonus + 2.0 * DiversityBonus
  {
  }

  /** A heavier-used language never weighs less. */
  lemma WeightMonotone(n1: nat, r1: nat, n2: nat, r2: nat)
    requires n1 <= n2 && r1 <= r2
    ensures ExpectedWeight(n1, r1) <= ExpectedWeight(n2, r2)
  {
  }
}
