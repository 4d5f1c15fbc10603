/**
  What the scoring engine shares: the tunable constants of `SCORING_CONFIG`,
  the repository record as the GitHub API delivers it, the logarithm the
  scores are built on, and the two bits of JavaScript semantics (truthiness of
  an optional string and `String.prototype.trim`) that decide some factors.
 */
module ScoringConfig {
  import opened Seqs

  // ---------------------------------------------------------------------------
  // SCORING_CONFIG.language
  // ---------------------------------------------------------------------------

  const BaseWeight: real := 1.0
  const RecentActivityBonus: real := 1.0
  const DiversityThreshold: nat := 3
  const DiversityBonus: real := 0.5

  // ---------------------------------------------------------------------------
  // SCORING_CONFIG.repo
  // ---------------------------------------------------------------------------

  const StarsMaxPoints: real := 30.0
  const StarsLogMultiplier: real := 10.0
  const ForksMaxPoints: real := 15.0
  const ForksLogMultiplier: real := 5.0
  const RecencyMaxPoints: real := 25.0
  const RecencyDecayDays: real := 15.0
  const OriginalWorkBonus: real := 15.0
  const HasDescriptionBonus: real := 5.0
  const HasTopicsBonus: real := 5.0
  const HasLanguageBonus: real := 3.0
  const WatchersMultiplier: real := 0.5
  const WatchersMax: real := 5.0
  const ArchivedPenalty: real := -20.0
  const SizeLogMultiplier: real := 3.0
  const SizeMaxPoints: real := 15.0
  const OpenIssuesLogMultiplier: real := 4.0
  const OpenIssuesMaxPoints: real := 8.0
  const CreatedIn2025Bonus: real := 10.0

  // ---------------------------------------------------------------------------
  // Time
  // ---------------------------------------------------------------------------

  /** Milliseconds since the Unix epoch, as `Date.prototype.getTime` gives them. */
  type Timestamp = int

  const MsPerDay: int := 1000 * 60 * 60 * 24

  /**
    `new Date('2025-01-01').getTime()`, the start of the scoring period that the
    source hard-codes. The operations take the period start as a parameter;
    this is the value the source passes.
   */
  const Year2025Start: Timestamp := 1735689600000

  // ---------------------------------------------------------------------------
  // Repository records
  // ---------------------------------------------------------------------------

  /**
    The fields of a GitHub repository object that the scoring reads. Counts
    are non-negative; `topics` is empty when the API omits it; dates are
    already converted to timestamps.
   */
  datatype Repository = Repository(
    name: string,
    language: Option<string>,
    stargazersCount: nat,
    forksCount: nat,
    watchersCount: nat,
    openIssuesCount: nat,
    size: nat,
    fork: bool,
    archived: bool,
    description: Option<string>,
    topics: seq<string>,
    createdAt: Timestamp,
    pushedAt: Timestamp)

  /** JavaScript truthiness of an optional string: missing and "" are both false. */
  predicate Truthy(s: Option<string>)
  {
    s.Some? && s.value != ""
  }

  // ---------------------------------------------------------------------------
  // Math.log10
  // ---------------------------------------------------------------------------

  /**
    What the scores rely on about `Math.log10` on the positive integers it is
    applied to: it is 0 at 1 and never decreases. Its exact values are not
    modelled; every operation takes the logarithm as a parameter satisfying this.
   */
  ghost predicate IsLog10(log10: nat -> real)
  {
    && log10(1) == 0.0
    && forall x: nat, y: nat :: 1 <= x <= y ==> log10(x) <= log10(y)
  }

  lemma Log10NonNegative(log10: nat -> real, x: nat)
    requires IsLog10(log10)
    requires x >= 1
    ensures log10(x) >= 0.0
  {
  }

  // ---------------------------------------------------------------------------
  // String.prototype.trim
  // ---------------------------------------------------------------------------

  /** The ECMAScript WhiteSpace and LineTerminator code points, which `trim` removes. */
  predicate IsJsWhitespace(c: char)
  {
    || c == '\t' || c == '\n' || c == '\U{B}' || c == '\U{C}' || c == '\r' || c == ' '
    || c == '\U{A0}' || c == '\U{1680}' || ('\U{2000}' <= c <= '\U{200A}')
    || c == '\U{2028}' || c == '\U{2029}' || c == '\U{202F}' || c == '\U{205F}'
    || c == '\U{3000}' || c == '\U{FEFF}'
  }

  /** The index of the first non-whitespace character of `s` at or after `i`, or `|s|`. */
  function TrimStartIndex(s: string, i: nat): (a: nat)
    requires i <= |s|
    ensures i <= a <= |s|
    ensures forall k :: i <= k < a ==> IsJsWhitespace(s[k])
    ensures a < |s| ==> !IsJsWhitespace(s[a])
    decreases |s| - i
  {
    if i < |s| && IsJsWhitespace(s[i]) then TrimStartIndex(s, i + 1) else i
  }

  /** The index just past the last non-whitespace character of `s[lo..j]`, or `lo`. */
  function TrimEndIndex(s: string, lo: nat, j: nat): (e: nat)
    requires lo <= j <= |s|
    ensures lo <= e <= j
    ensures forall k :: e <= k < j ==> IsJsWhitespace(s[k])
    ensures e > lo ==> !IsJsWhitespace(s[e - 1])
    decreases j
  {
    if j > lo && IsJsWhitespace(s[j - 1]) then TrimEndIndex(s, lo, j - 1) else j
  }

  /** `s.trim()`: drops the leading and then the trailing whitespace. */
  function Trim(s: string): string
  {
    var a := TrimStartIndex(s, 0);
    s[a..TrimEndIndex(s, a, |s|)]
  }

  /**
    `Trim(s)` is the infix of `s` between a run of leading and a run of
    trailing whitespace, and neither starts nor ends with whitespace itself:
    the longest such infix.
   */
  lemma TrimShape(s: string)
    ensures var a := TrimStartIndex(s, 0); var e := TrimEndIndex(s, a, |s|);
      && Trim(s) == s[a..e]
      && (forall k :: 0 <= k < a ==> IsJsWhitespace(s[k]))
      && (forall k :: e <= k < |s| ==> IsJsWhitespace(s[k]))
      && (a < e ==> !IsJsWhitespace(s[a]) && !IsJsWhitespace(s[e - 1]))
  {
  }

  /** A string of whitespace only trims to the empty string. */
  lemma {:induction false} BlankTrimsToEmpty(s: string)
    requires forall k :: 0 <= k < |s| ==> IsJsWhitespace(s[k])
    ensures Trim(s) == ""
  {
    TrimShape(s);
  }
}
