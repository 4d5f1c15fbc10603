# GitStory scoring and slide logic in Dafny

GitStory turns a GitHub profile into a "year in review" slide show. This
project models the logic behind it.

The scoring engine (`src/services/scoringAlgorithms.ts`) covers:

- the tunable constants of `SCORING_CONFIG`;
- the per-language table, built in a counting pass and a diversity-bonus pass;
- the ranking of the top languages;
- the twelve-factor "interestingness" score of a repository and its breakdown;
- the coding archetype decision list;
- the peak-hour scan with its time-of-day band.

The list logic embedded in four slides covers:

- the weekly chunking of daily commits, the busiest week and the count of active weeks (velocity);
- the days up to today sorted newest first, the current streak, the active-day count, the streak tier ladder and the motivational line (streak);
- the 0-4 calendar shade, the recent window and the active/total day counts (composition);
- the top-5 chart languages, the de-duplicated topic cloud and the quip of the leading language (languages).

How the model is built:

- Code that mutates state becomes a Dafny method:
  - the two `forEach` passes over the language `Map` (loops with invariants);
  - the running `score` of the breakdown (straight-line updates of a local accumulator and the breakdown fields);
  - the peak-hour scan;
  - the weekly chunking;
  - the streak loop with its `break`.
- Each method is proved against a specification function, whose properties are lemmas.
- Expression code (the archetype chain, the sorts, slices and filters, the lookups) becomes functions.
- Weights are exact reals.
- Timestamps are integers.
- The library pieces become explicit definitions:
  - a `Map` is its key order plus a map of entries;
  - sorting is a stable insertion sort;
  - `slice` resolves negative ends;
  - `new Set` keeps first occurrences;
  - `trim` removes the ECMAScript whitespace set.
- `Math.log10` is a parameter. It is assumed only to be 0 at 1 and monotone on the positive integers, so every log-based result holds for any such function.
- The wall clock (`now`, `today`), the `2025-01-01` period start, date-string parsing (`timeOf`) and the mobile-screen flag are parameters.

Modules: `Seqs` (shared list helpers), `ScoringConfig`, `RepoScoring`,
`LanguageScoring`, `Productivity`, `Archetype`, `SlideData`, `Velocity`,
`Streak`, `Composition`, `LanguagesSlide`.

## Model

| member | source | states |
|---|---|---|
| ScoringConfig.TrimShape | src/services/scoringAlgorithms.ts:198 | the trimmed description is the slice of the string between a leading and a trailing run of whitespace, and neither starts nor ends with whitespace |
| ScoringConfig.BlankTrimsToEmpty | src/services/scoringAlgorithms.ts:198 | a string made only of whitespace trims to the empty string |
| ScoringConfig.Log10NonNegative | src/services/scoringAlgorithms.ts:171 | the assumed logarithm is non-negative on every argument of at least 1 |
| RepoScoring.StarsScore | src/services/scoringAlgorithms.ts:169-174 | the stars factor lies in [0, 30] and is 0 for a repository without stars |
| RepoScoring.ForksScore | src/services/scoringAlgorithms.ts:176-181 | the forks factor lies in [0, 15] and is 0 without forks |
| RepoScoring.RecencyScore | src/services/scoringAlgorithms.ts:183-189 | recency lies in [0, 25], is 0 for a push before the period start, and is the full 25 for a push in the period not older than now |
| RepoScoring.WatchersScore | src/services/scoringAlgorithms.ts:215-217 | the watchers factor lies in [0, 5] and is 0 without watchers |
| RepoScoring.SizeScore | src/services/scoringAlgorithms.ts:225-232 | the size factor lies in [0, 15] and is 0 for an empty repository |
| RepoScoring.OpenIssuesScore | src/services/scoringAlgorithms.ts:234-241 | the open-issues factor, taken from the logarithm of the count plus one, lies in [0, 8] and is 0 without open issues |
| RepoScoring.CalculateRepoScoreBreakdown | src/services/scoringAlgorithms.ts:147-252 | the running score becomes `total`, which equals the sum of the twelve component fields, and each field is its factor of the repository |
| RepoScoring.CalculateRepoScore | src/services/scoringAlgorithms.ts:258-260 | the score is the breakdown's total, the twelve factors of the repository added up |
| RepoScoring.BreakdownTotalIsRepoScore | src/services/scoringAlgorithms.ts:250 | a breakdown whose fields are the repository's factors and whose total is their sum totals to the repository score |
| RepoScoring.FlagFactors | src/services/scoringAlgorithms.ts:191-248 | original work is 15 iff not a fork, archived is -20 iff archived, description is 5 iff present with a trimmed length over 10, topics is 5 iff at least one topic, language is 3 iff a non-empty language, created is 10 iff created on or after the period start; 0 otherwise |
| RepoScoring.BlankDescriptionEarnsNothing | src/services/scoringAlgorithms.ts:197-201 | a description of whitespace only, however long, earns no description bonus |
| RepoScoring.ArchivingCostsTwenty | src/services/scoringAlgorithms.ts:219-223 | flipping only `archived` to true lowers the score by exactly 20 |
| RepoScoring.RepoScoreBounds | src/services/scoringAlgorithms.ts:169-248 | every score lies between -20 and 136, the sum of all caps and bonuses |
| RepoScoring.StarsMonotone | src/services/scoringAlgorithms.ts:170-173 | more stars never give a lower stars factor |
| RepoScoring.ForksMonotone | src/services/scoringAlgorithms.ts:177-180 | more forks never give a lower forks factor |
| RepoScoring.SizeMonotone | src/services/scoringAlgorithms.ts:226-231 | a larger repository never gets a lower size factor |
| RepoScoring.OpenIssuesMonotone | src/services/scoringAlgorithms.ts:235-240 | more open issues never give a lower open-issues factor |
| RepoScoring.RecencyMonotone | src/services/scoringAlgorithms.ts:185-187 | of two pushes inside the period, the later never gets less recency |
| RepoScoring.RecencyDecaysToZero | src/services/scoringAlgorithms.ts:186-187 | a push 375 days or more before now has no recency left |
| LanguageScoring.CalculateLanguageScores | src/services/scoringAlgorithms.ts:64-112 | the table is well formed and its keys, in insertion order, are the distinct languages of the non-fork repositories with a language, in order of first appearance; each entry's counts are that language's repositories and recent repositories, and its weight is counts times base weight, plus recent count times the recent bonus, plus 0.5 per repository beyond three |
| LanguageScoring.CountLanguages | src/services/scoringAlgorithms.ts:69-100 | the counting loop builds exactly the table of the first-pass fold over the repositories |
| LanguageScoring.AddDiversityBonus | src/services/scoringAlgorithms.ts:102-109 | the bonus loop over the keys in insertion order yields exactly the second-pass fold over the counted table |
| LanguageScoring.FirstPassCorrect | src/services/scoringAlgorithms.ts:69-100 | after the first pass the keys are the counted languages in order of first appearance, each entry holds its language's repository count, recent count and weight without diversity bonus, and no other key has an entry |
| LanguageScoring.FirstPassWellFormed | src/services/scoringAlgorithms.ts:81-89 | the first pass inserts each language once, and every inserted key has an entry |
| LanguageScoring.SecondPassEntries | src/services/scoringAlgorithms.ts:104-109 | over repetition-free keys the bonus pass keeps the key set, leaves keys it does not visit unchanged and gives each visited key its bonus exactly once |
| LanguageScoring.SecondPassCorrect | src/services/scoringAlgorithms.ts:102-109 | after the bonus pass every entry holds its language's expected score |
| LanguageScoring.LanguageScoresCorrect | src/services/scoringAlgorithms.ts:64-112 | the two folds give a well-formed table over exactly the counted languages, each with its expected score |
| LanguageScoring.BonusCompletes | src/services/scoringAlgorithms.ts:105-107 | adding the diversity bonus to an entry after the first pass gives the expected final entry |
| LanguageScoring.FirstPassStep | src/services/scoringAlgorithms.ts:91-96 | a counted repository adds exactly 1 to its own language's count, adds 1 to its recent count iff it was pushed in the period, and changes no other language |
| LanguageScoring.UncountedRepoIsIgnored | src/services/scoringAlgorithms.ts:71-75 | inserting a fork or a repository without a language anywhere in the input changes no count and no entry |
| LanguageScoring.RepoCountsSumToCounted | src/services/scoringAlgorithms.ts:92 | the repository counts of the distinct languages sum to the number of counted repositories |
| LanguageScoring.RecentAtMostRepoCount | src/services/scoringAlgorithms.ts:92-96 | no language has more recent repositories than repositories |
| LanguageScoring.DiversityBonusExamples | src/services/scoringAlgorithms.ts:105-107 | a language with exactly the threshold count gets no diversity bonus, one with two more gets 1.0 |
| LanguageScoring.WeightMonotone | src/services/scoringAlgorithms.ts:99-107 | more repositories and more recent repositories never give a lower weight |
| LanguageScoring.Values | src/services/scoringAlgorithms.ts:118 | the table's values are listed in the key insertion order |
| LanguageScoring.GetTopLanguages | src/services/scoringAlgorithms.ts:117-121 | the result has `min(topN, languages)` entries (never more than the table), is ordered by non-increasing weight, and is a sub-multiset of the table's entries, each one an entry of the table |
| LanguageScoring.TopLanguagesAreHeaviest | src/services/scoringAlgorithms.ts:117-121 | every entry left out of the top list weighs no more than any entry in it |
| LanguageScoring.SliceOfSorted | src/services/scoringAlgorithms.ts:119-120 | slicing a list sorted by weight keeps it sorted and takes only its elements |
| Seqs.DedupSpec | src/components/slides/LanguagesSlide.tsx:26 | building a set and listing it keeps each element once, only elements of the input and every one of them, in the order of their first occurrence |
| Seqs.SortedPrefixIsLargest | src/services/scoringAlgorithms.ts:119-120 | in a list sorted by non-increasing key, every element past a prefix has a key no larger than any element of the prefix |
| Productivity.TimeOfDayOf | src/services/scoringAlgorithms.ts:325-334 | Morning iff the hour is in [5,12), Afternoon iff in [12,17), Evening iff in [17,21), Late Night iff below 5 or from 21 |
| Productivity.CalculateProductivity | src/services/scoringAlgorithms.ts:311-337 | with no positive count the peak hour is 14; otherwise the peak hour is that of the entry holding the strict maximum first in visiting order; the time of day is the band of the peak hour |
| Productivity.PeakIsUnique | src/services/scoringAlgorithms.ts:318-323 | at most one entry is the first occurrence of the maximum, so the reported hour is determined |
| Productivity.PeakExists | src/services/scoringAlgorithms.ts:318-323 | a histogram with a positive count has such a peak entry |
| Archetype.CalculateArchetype | src/services/scoringAlgorithms.ts:271-302 | the archetype is the first rule of the decision list that holds, each percentage test read as its integer cross-multiplication (false with no activity), else the Curious Explorer |
| Archetype.PercentageAbove | src/services/scoringAlgorithms.ts:281-283 | a percentage exceeds p iff part * 100 > p * whole with a positive whole; with a zero whole it is 0 and exceeds nothing |
| Archetype.WeekendShareIsInteger | src/services/scoringAlgorithms.ts:286-288 | the weekend share exceeds 35% iff Sunday plus Saturday, times 100, exceeds 35 times the week total, for a histogram of seven or more days |
| Archetype.CollaborationWins | src/services/scoringAlgorithms.ts:291 | with pull requests over 20% of activity the result is the Collaboration Maestro, whatever the commits, hours or community |
| Archetype.CommitsOnlyNoShares | src/services/scoringAlgorithms.ts:281-298 | without pull requests, reviews and issues neither share rule can fire, so the result is not the Maestro, Guardian or Planner |
| Archetype.EmptyWeekIsNotPassion | src/services/scoringAlgorithms.ts:286-295 | with no weekday histogram the result is never the Passion Programmer |
| Archetype.HourRulesMatchBands | src/services/scoringAlgorithms.ts:293-294 | the Midnight Architect has a Late Night peak hour and the Dawn Coder a Morning one |
| Archetype.CommitLadder | src/services/scoringAlgorithms.ts:296-301 | for a peak hour from 12 to 21, outside the Midnight and Dawn ranges, and a profile that fails the share, weekend and community rules, 399 commits make a Curious Explorer, 400 a Steady Craftsman and 1200 a Relentless Builder |
| Archetype.LabelsAreSlideKeys | src/components/slides/ArchetypeSlide.tsx:14-59 | every archetype label has an entry in the archetype slide's table, and distinct archetypes have distinct labels |
| Velocity.ChunkWeeks | src/components/slides/VelocitySlide.tsx:26-39 | the series yields ceil(n/7) weeks |
| Velocity.WeeklyData | src/components/slides/VelocitySlide.tsx:18-41 | the loop yields no weeks for a missing or empty series, and otherwise exactly the chunking into seven-day weeks, each starting on the date of its first day and totalling its days |
| Velocity.WeekBoundary | src/components/slides/VelocitySlide.tsx:28 | a day closes its week exactly when it is the week's seventh day or the last day of the series |
| Velocity.WeeksPreserveTotal | src/components/slides/VelocitySlide.tsx:27-36 | the weekly totals add up to the daily commits: nothing lost or counted twice |
| Velocity.WeekLengths | src/components/slides/VelocitySlide.tsx:26-39 | every week but the last covers exactly seven consecutive days, the last one to seven |
| Velocity.MaxWeeklyCommits | src/components/slides/VelocitySlide.tsx:43 | the maximum is at least every weekly total and equals one of them |
| Velocity.FindWeek | src/components/slides/VelocitySlide.tsx:44 | the search yields the first week with the given total, or nothing when no week has it |
| Velocity.BusiestWeek | src/components/slides/VelocitySlide.tsx:43-44 | nothing iff there are no weeks; otherwise a week holding the maximum total, with every earlier week strictly smaller |
| Velocity.ActiveWeeks | src/components/slides/VelocitySlide.tsx:198 | at most the number of weeks, 0 iff no week has commits, all weeks iff every week has commits |
| Streak.UpToToday | src/components/slides/StreakSlide.tsx:21-22 | keeps exactly the days dated on or before today: every kept day is one, taken from the calendar, and every such day of the calendar is kept |
| Streak.RecentFirst | src/components/slides/StreakSlide.tsx:21-23 | the days up to today ordered newest first, a permutation of those days, no more than the calendar |
| Streak.CurrentStreak | src/components/slides/StreakSlide.tsx:25-32 | the streak is the length of the longest prefix with positive counts: every count before it is positive and the entry after it, if any, is not |
| Streak.StreakIsUnique | src/components/slides/StreakSlide.tsx:25-32 | only one length satisfies that description, so the streak is determined |
| Streak.ActiveDays | src/components/slides/StreakSlide.tsx:35 | at most the number of days, 0 iff no day has contributions, all iff every day has |
| Streak.TierIsHighestReached | src/components/slides/StreakSlide.tsx:39-45 | the tier of a streak is at least a given tier iff the streak reaches that tier's threshold (14, 30, 50, 100) |
| Streak.TierMonotone | src/components/slides/StreakSlide.tsx:39-45 | a longer streak never has a lower tier |
| Streak.MessageFollowsTier | src/components/slides/StreakSlide.tsx:157-161 | the "unstoppable" line iff the tier is Rare or above (30 days), the "momentum" line iff Uncommon (14 to 29), the "day one" line iff Common |
| Composition.LevelRange | src/components/slides/CompositionSlide.tsx:36 | the level lies in 0..4 and is 0 iff the count is 0 |
| Composition.LevelBands | src/components/slides/CompositionSlide.tsx:36 | for counts of at least 0: 1-2 give level 1, 3-5 level 2, 6-9 level 3, 10 or more level 4, each both ways |
| Composition.LevelMonotone | src/components/slides/CompositionSlide.tsx:36 | a larger count never gives a lower level |
| Composition.CalendarData | src/components/slides/CompositionSlide.tsx:33-37 | no cells for a missing calendar; otherwise one cell per day with its date, its count and its level |
| Composition.RecentDataIsLastDays | src/components/slides/CompositionSlide.tsx:44-45 | the window is the last min(n, 120) cells on a narrow screen and the last min(n, 365) otherwise |
| Composition.ActiveDays | src/components/slides/CompositionSlide.tsx:48 | 0 for a missing calendar; otherwise at most its length, and 0 iff no day has contributions |
| Composition.TotalDays | src/components/slides/CompositionSlide.tsx:49 | the calendar length, or 365 when it is missing or empty, so always positive |
| Composition.ActiveWithinTotal | src/components/slides/CompositionSlide.tsx:48-50 | the active days never exceed the total days |
| LanguagesSlide.ChartLanguages | src/components/slides/LanguagesSlide.tsx:13-19 | min(n, 5) languages, ordered by non-increasing share, each with `fill` equal to its colour, drawn from the profile's languages |
| LanguagesSlide.ChartHoldsLargest | src/components/slides/LanguagesSlide.tsx:13-15 | no language left out of the chart has a larger share than one drawn |
| LanguagesSlide.ChartLanguagesComeFromProfile | src/components/slides/LanguagesSlide.tsx:13-19 | every drawn language, without its `fill`, is one of the profile's languages |
| LanguagesSlide.Originals | src/components/slides/LanguagesSlide.tsx:16-19 | dropping `fill` recovers each drawn language's own fields |
| LanguagesSlide.AllTopicsMember | src/components/slides/LanguagesSlide.tsx:24 | every collected topic is a topic of some top repository |
| LanguagesSlide.ToLower | src/components/slides/LanguagesSlide.tsx:27 | lower-casing keeps the length and lower-cases each character |
| LanguagesSlide.WithoutLanguageNames | src/components/slides/LanguagesSlide.tsx:27 | the kept topics come from the input and none names a drawn language, case-insensitively |
| LanguagesSlide.FilterKeepsOthers | src/components/slides/LanguagesSlide.tsx:27 | every topic that is not a language name is kept |
| LanguagesSlide.FilterKeepsOrder | src/components/slides/LanguagesSlide.tsx:27 | filtering a repetition-free list keeps the relative order of what it keeps |
| LanguagesSlide.KeptTopicsOrdered | src/components/slides/LanguagesSlide.tsx:26-27 | the distinct non-language topics follow the order of their first appearance |
| LanguagesSlide.UniqueTopicsContents | src/components/slides/LanguagesSlide.tsx:24-28 | at most ten topics, none a drawn language's name, each a topic of some top repository |
| LanguagesSlide.UniqueTopicsIsFirstTen | src/components/slides/LanguagesSlide.tsx:26-28 | the cloud is the first min(n, 10) of the n distinct non-language topics, so every such topic within the first ten is kept |
| LanguagesSlide.UniqueTopicsOrdered | src/components/slides/LanguagesSlide.tsx:24-28 | the topics have no repetitions and keep the order of first appearance in the flattened topics |
| LanguagesSlide.TopicCloudShown | src/components/slides/LanguagesSlide.tsx:26-30 | the cloud is shown iff there are more than two distinct non-language topics; the cut at ten plays no part |
| LanguagesSlide.QuipOfListed | src/components/slides/LanguagesSlide.tsx:33-43 | each of the nine listed languages, as the first drawn language, gets its own quip; the chain is a first-match lookup over the table of nine, whose names are distinct |
| LanguagesSlide.QuipOfUnlisted | src/components/slides/LanguagesSlide.tsx:34-44 | any other first language, or none, gets "Master of Many" |

## Left out

- Floating point: weights, scores and percentages are exact reals. No IEEE rounding and no NaN or Infinity arithmetic is modelled.
- The exact values of `Math.log10`: the model assumes only log10(1) = 0 and monotonicity. Bounds and monotonicity are therefore proved for every such function.
- Date handling: `new Date(string)` parsing, `getTime`, `setHours` normalisation and `new Date()` are outside the model. Timestamps are integers; `now`, `today` and the `timeOf` parser are parameters; the 2025-01-01 boundary is the period-start parameter (`Year2025Start` holds its value).
- Velocity.WeeklyData: each week's label is the raw date string of its first day; the `toLocaleDateString` formatting and the kept `sortDate` object are not modelled.
- The rounded display values are not modelled: the consistency percentage (StreakSlide.tsx:36), the active percentage (CompositionSlide.tsx:50) and the weekly average (VelocitySlide.tsx:202) use `Math.round` on floats.
- Streak.CurrentStreak: like the source, the loop does not check that consecutive entries are consecutive calendar days. A gap in the calendar does not end the streak.
- Streak.RecentFirst: the comparator's order for entries with equal times is the stable order. Unparsable dates, which give NaN in JavaScript, are outside the model.
- Streak.GetStreakTier: only the tier name is modelled; the colour, background and border class strings are presentation.
- Archetype.CalculateArchetype: a weekday histogram shorter than seven entries is treated as "not above 35%", which is what the NaN comparison yields in JavaScript. An empty histogram shows this.
- Velocity.BusiestWeek: with no weeks `Math.max` gives -Infinity and `find` gives `undefined`; the model returns `None` without computing a maximum.
- LanguagesSlide.ToLower: `toLowerCase` is modelled on ASCII letters only. Other characters are kept as they are.
- Lengths: JavaScript measures `trim().length` in UTF-16 code units, while the model counts characters. Descriptions with characters outside the Basic Multilingual Plane can differ.
- Inputs are assumed well typed: counts are non-negative integers and missing `topics` is an empty list. The source's behaviour on undefined fields (NaN scores) is not modelled.
- The data types the slides receive are declared here with the fields the model reads. `src/types.ts` is not part of this model.
- Presentation: the React and JSX rendering, animations, charts, the theme, the resize hook and `isMobile` detection are not modelled. The mobile flag is a parameter.
- The ArchetypeSlide lookup table is checked only for its keys.
