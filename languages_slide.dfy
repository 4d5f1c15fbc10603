/**
  The languages slide: the five languages with the largest share drawn in
  the chart, the topics of the top repositories that are not language names,
  and the quip chosen by the leading language.
 */
module LanguagesSlide {
  import opened Seqs
  import opened SlideData

  // ---------------------------------------------------------------------------
  // The chart's languages
  // ---------------------------------------------------------------------------

  /** A language as the chart draws it: the language's fields plus `fill`. */
  datatype ChartLanguage = ChartLanguage(name: string, percentage: real, color: string, fill: string)

  function Share(l: TopLanguage): real { l.percentage }

  function Original(c: ChartLanguage): TopLanguage
  {
    TopLanguage(c.name, c.percentage, c.color)
  }

  function ToChart(l: TopLanguage): ChartLanguage
  {
    ChartLanguage(l.name, l.percentage, l.color, l.color)
  }

  const ChartSize: nat := 5

  /**
    The profile's languages sorted by share, largest first, the first
    five kept, each given a `fill` equal to its colour.
    The sort works on a copy, so the profile's own list keeps its order.
   */
  function ChartLanguages(topLanguages: seq<TopLanguage>): (langs: seq<ChartLanguage>)
    ensures |langs| == if |topLanguages| < ChartSize then |topLanguages| else ChartSize
    ensures forall i, j :: 0 <= i < j < |langs| ==> langs[i].percentage >= langs[j].percentage
    ensures forall i :: 0 <= i < |langs| ==> langs[i].fill == langs[i].color
    ensures multiset(Originals(langs)) <= multiset(topLanguages)
  {
    var sorted := SortDesc(topLanguages, Share);
    var top := JsSlice(sorted, 0, ChartSize);
    SlicePrefix(sorted, ChartSize);
    PrefixMultiset(sorted, |top|);
    var langs := seq(|top|, i requires 0 <= i < |top| => ToChart(top[i]));
    assert Originals(langs) == top;
    langs
  }

  function Originals(langs: seq<ChartLanguage>): (ls: seq<TopLanguage>)
    ensures |ls| == |langs| && forall i :: 0 <= i < |langs| ==> ls[i] == Original(langs[i])
  {
    seq(|langs|, i requires 0 <= i < |langs| => Original(langs[i]))
  }

  lemma PrefixMultiset<T>(s: seq<T>, n: nat)
    requires n <= |s|
    ensures multiset(s[..n]) <= multiset(s)
  {
    assert s == s[..n] + s[n..];
  }

  /** The chart holds the largest shares: no language left out has a larger share than one drawn. */
  lemma ChartHoldsLargest(topLanguages: seq<TopLanguage>)
    ensures var langs := ChartLanguages(topLanguages);
      forall x :: x in multiset(topLanguages) - multiset(Originals(langs)) ==>
        forall i :: 0 <= i < |langs| ==> langs[i].percentage >= x.percentage
  {
    var sorted := SortDesc(topLanguages, Share);
    var langs := ChartLanguages(topLanguages);
    SlicePrefix(sorted, ChartSize);
    assert Originals(langs) == sorted[..|langs|];
    SortedPrefixIsLargest(sorted, Share, |langs|);
    forall x | x in multiset(topLanguages) - multiset(Originals(langs))
      ensures forall i :: 0 <= i < |langs| ==> langs[i].percentage >= x.percentage
    {
      forall i | 0 <= i < |langs| ensures langs[i].percentage >= x.percentage {
        assert Share(sorted[i]) == langs[i].percentage;
      }
    }
  }

  /** Every language drawn is one of the profile's languages, unchanged but for `fill`. */
  lemma ChartLanguagesComeFromProfile(topLanguages: seq<TopLanguage>, i: nat)
    requires i < |ChartLanguages(topLanguages)|
    ensures Original(ChartLanguages(topLanguages)[i]) in topLanguages
  {
    var langs := ChartLanguages(topLanguages);
    assert Originals(langs)[i] in multiset(Originals(langs));
  }

  // ---------------------------------------------------------------------------
  // uniqueTopics
  // ---------------------------------------------------------------------------

  /** The topics of the top repositories, concatenated in repository order. */
  function AllTopics(repos: seq<TopRepo>): seq<string>
    decreases |repos|
  {
    if repos == [] then [] else AllTopics(repos[..|repos| - 1]) + repos[|repos| - 1].topics
  }

  lemma {:induction false} AllTopicsMember(repos: seq<TopRepo>, t: string)
    requires t in AllTopics(repos)
    ensures exists j :: 0 <= j < |repos| && t in repos[j].topics
    decreases |repos|
  {
    var init := repos[..|repos| - 1];
    if t in AllTopics(init) {
      AllTopicsMember(init, t);
      var j :| 0 <= j < |init| && t in init[j].topics;
      assert repos[j] == init[j];
    } else {
      assert t in repos[|repos| - 1].topics;
    }
  }

  /** `toLowerCase` on ASCII letters; other characters are kept. */
  function ToLowerChar(c: char): char
  {
    if 'A' <= c <= 'Z' then (c as int + 32) as char else c
  }

  function ToLower(s: string): (r: string)
    ensures |r| == |s| && forall i :: 0 <= i < |s| ==> r[i] == ToLowerChar(s[i])
  {
    seq(|s|, i requires 0 <= i < |s| => ToLowerChar(s[i]))
  }

  /** Whether `t` names one of the drawn languages, ignoring letter case. */
  predicate IsLanguageName(t: string, langs: seq<ChartLanguage>)
  {
    exists i :: 0 <= i < |langs| && ToLower(langs[i].name) == ToLower(t)
  }

  /** The topics that are not language names, in their order. */
  function WithoutLanguageNames(topics: seq<string>, langs: seq<ChartLanguage>): (r: seq<string>)
    ensures |r| <= |topics|
    ensures forall i :: 0 <= i < |r| ==> r[i] in topics && !IsLanguageName(r[i], langs)
    decreases |topics|
  {
    if topics == [] then []
    else
      var init, t := topics[..|topics| - 1], topics[|topics| - 1];
      WithoutLanguageNames(init, langs) + (if IsLanguageName(t, langs) then [] else [t])
  }

  /** Filtering a list without repetitions keeps the order of what it keeps. */
  lemma {:induction false} FilterKeepsOrder(topics: seq<string>, langs: seq<ChartLanguage>)
    requires Distinct(topics)
    ensures forall i, j :: 0 <= i < j < |WithoutLanguageNames(topics, langs)| ==>
      FirstIndex(topics, WithoutLanguageNames(topics, langs)[i]) < FirstIndex(topics, WithoutLanguageNames(topics, langs)[j])
    decreases |topics|
  {
    if topics != [] {
      var init, t := topics[..|topics| - 1], topics[|topics| - 1];
      assert topics == init + [t];
      FirstIndexSnoc(init, t);
      FilterKeepsOrder(init, langs);
      var before := WithoutLanguageNames(init, langs);
      var r := WithoutLanguageNames(topics, langs);
      assert r == before + (if IsLanguageName(t, langs) then [] else [t]);
      assert t !in init;
      forall i | 0 <= i < |before| ensures FirstIndex(topics, before[i]) == FirstIndex(init, before[i]) < |init| {
        assert before[i] in init;
      }
      forall i, j | 0 <= i < j < |r| ensures FirstIndex(topics, r[i]) < FirstIndex(topics, r[j]) {
        assert r[i] == before[i];
        if j < |before| {
          assert r[j] == before[j];
          assert FirstIndex(init, before[i]) < FirstIndex(init, before[j]);
        } else {
          assert r[j] == t;
          assert FirstIndex(topics, t) == |init|;
        }
      }
    }
  }

  /** Nothing is dropped but language names. */
  lemma {:induction false} FilterKeepsOthers(topics: seq<string>, langs: seq<ChartLanguage>)
    ensures forall i :: 0 <= i < |topics| && !IsLanguageName(topics[i], langs) ==>
      topics[i] in WithoutLanguageNames(topics, langs)
    decreases |topics|
  {
    if topics != [] {
      var init := topics[..|topics| - 1];
      assert topics == init + [topics[|topics| - 1]];
      FilterKeepsOthers(init, langs);
    }
  }

  const MaxTopics: nat := 10

  /**
    `Array.from(new Set(allTopics)).filter(not a language name).slice(0, 10)`:
    the first ten distinct topics, in order of first appearance, that do not
    name a drawn language.
   */
  function UniqueTopics(repos: seq<TopRepo>, langs: seq<ChartLanguage>): seq<string>
  {
    JsSlice(WithoutLanguageNames(Dedup(AllTopics(repos)), langs), 0, MaxTopics)
  }

  /** At most ten topics, none a language name, each a topic of some top repository. */
  lemma UniqueTopicsContents(repos: seq<TopRepo>, langs: seq<ChartLanguage>)
    ensures var ts := UniqueTopics(repos, langs);
      && |ts| <= MaxTopics
      && (forall i :: 0 <= i < |ts| ==> !IsLanguageName(ts[i], langs))
      && (forall i :: 0 <= i < |ts| ==> ts[i] in AllTopics(repos))
      && (forall i :: 0 <= i < |ts| ==> exists j :: 0 <= j < |repos| && ts[i] in repos[j].topics)
  {
    var all := AllTopics(repos);
    var d := Dedup(all);
    var kept := WithoutLanguageNames(d, langs);
    var ts := UniqueTopics(repos, langs);
    DedupMembers(all);
    SlicePrefix(kept, MaxTopics);
    forall i | 0 <= i < |ts| ensures ts[i] in all && exists j :: 0 <= j < |repos| && ts[i] in repos[j].topics {
      assert ts[i] == kept[i];
      var k :| 0 <= k < |d| && d[k] == ts[i];
      AllTopicsMember(repos, ts[i]);
    }
  }

  /**
    The cloud is exactly the first ten (or fewer) distinct non-language topics:
    every such topic within the first ten is kept.
   */
  lemma UniqueTopicsIsFirstTen(repos: seq<TopRepo>, langs: seq<ChartLanguage>)
    ensures var kept := WithoutLanguageNames(Dedup(AllTopics(repos)), langs);
      UniqueTopics(repos, langs) == kept[..if |kept| < MaxTopics then |kept| else MaxTopics]
  {
    SlicePrefix(WithoutLanguageNames(Dedup(AllTopics(repos)), langs), MaxTopics);
  }

  /** The topics have no repetitions and keep the order in which they first appear. */
  lemma UniqueTopicsOrdered(repos: seq<TopRepo>, langs: seq<ChartLanguage>)
    ensures var ts := UniqueTopics(repos, langs);
      && Distinct(ts)
      && (forall i :: 0 <= i < |ts| ==> ts[i] in AllTopics(repos))
      && (forall i, j :: 0 <= i < j < |ts| ==>
            FirstIndex(AllTopics(repos), ts[i]) < FirstIndex(AllTopics(repos), ts[j]))
  {
    var all := AllTopics(repos);
    var kept := WithoutLanguageNames(Dedup(all), langs);
    var ts := UniqueTopics(repos, langs);
    KeptTopicsOrdered(all, langs, kept);
    SlicePrefix(kept, MaxTopics);
    assert ts == kept[..|ts|];
    forall i | 0 <= i < |ts| ensures ts[i] in all {
      assert ts[i] == kept[i];
    }
    forall i, j | 0 <= i < j < |ts| ensures FirstIndex(all, ts[i]) < FirstIndex(all, ts[j]) {
      assert ts[i] == kept[i] && ts[j] == kept[j];
    }
  }

  /** The distinct topics that are not language names follow their first appearances in `all`. */
  lemma KeptTopicsOrdered(all: seq<string>, langs: seq<ChartLanguage>, kept: seq<string>)
    requires kept == WithoutLanguageNames(Dedup(all), langs)
    ensures forall i :: 0 <= i < |kept| ==> kept[i] in all
    ensures forall i, j :: 0 <= i < j < |kept| ==> FirstIndex(all, kept[i]) < FirstIndex(all, kept[j])
  {
    var d := Dedup(all);
    DedupSpec(all);
    FilterKeepsOrder(d, langs);
    forall i | 0 <= i < |kept| ensures kept[i] in all {
      var k :| 0 <= k < |d| && d[k] == kept[i];
    }
    forall i, j | 0 <= i < j < |kept| ensures FirstIndex(all, kept[i]) < FirstIndex(all, kept[j]) {
      var a, b := FirstIndex(d, kept[i]), FirstIndex(d, kept[j]);
      assert d[a] == kept[i] && d[b] == kept[j];
    }
  }

  /** The topic cloud is shown only with more than two topics. */
  predicate HasTopics(topics: seq<string>)
  {
    |topics| > 2
  }

  /**
    The cloud is shown exactly when the top repositories have at least three
    distinct topics that are not language names; the cut at ten topics plays no part.
   */
  lemma TopicCloudShown(repos: seq<TopRepo>, langs: seq<ChartLanguage>)
    ensures HasTopics(UniqueTopics(repos, langs)) <==> |WithoutLanguageNames(Dedup(AllTopics(repos)), langs)| > 2
  {
    SlicePrefix(WithoutLanguageNames(Dedup(AllTopics(repos)), langs), MaxTopics);
  }

  // ---------------------------------------------------------------------------
  // getLanguageQuip
  // ---------------------------------------------------------------------------

  const DefaultQuip: string := "Master of Many \U{1F30D}"

  /** The nine languages with a quip of their own, in the order they are tested. */
  const Quips: seq<(string, string)> := [
    ("TypeScript", "Type Safety Artisan \U{1F6E1}\U{FE0F}"),
    ("JavaScript", "The Web Weaver \U{1F49B}"),
    ("Python", "Elegance in Simplicity \U{1F40D}"),
    ("Rust", "Fearless and Fast \U{1F980}"),
    ("Go", "Simplicity at Scale \U{1F439}"),
    ("Java", "Enterprise Architect \U{2615}"),
    ("C++", "Performance Alchemist \U{26A1}"),
    ("HTML", "Structure Sculptor \U{1F3D7}\U{FE0F}"),
    ("CSS", "Pixel Perfectionist \U{1F3A8}")]

  /** The first entry of `table` named `name`, tested in order, else the default quip. */
  function FirstQuip(name: string, table: seq<(string, string)>): string
    decreases |table|
  {
    if table == [] then DefaultQuip
    else if table[0].0 == name then table[0].1
    else FirstQuip(name, table[1..])
  }

  /** The quip chosen by the name of the first drawn language, if there is one. */
  function LanguageQuip(langs: seq<ChartLanguage>): string
  {
    if |langs| > 0 then FirstQuip(langs[0].name, Quips) else DefaultQuip
  }

  /** The entry at `k` is found when no earlier entry has its name. */
  lemma {:induction false} FirstQuipFinds(table: seq<(string, string)>, k: nat)
    requires k < |table|
    requires forall j :: 0 <= j < k ==> table[j].0 != table[k].0
    ensures FirstQuip(table[k].0, table) == table[k].1
    decreases k
  {
    if k > 0 {
      var rest := table[1..];
      assert rest[k - 1] == table[k];
      forall j | 0 <= j < k - 1 ensures rest[j].0 != rest[k - 1].0 {
        assert rest[j] == table[j + 1];
      }
      FirstQuipFinds(rest, k - 1);
    }
  }

  /** A name that no entry has falls through to the default. */
  lemma {:induction false} FirstQuipMisses(name: string, table: seq<(string, string)>)
    requires forall j :: 0 <= j < |table| ==> table[j].0 != name
    ensures FirstQuip(name, table) == DefaultQuip
    decreases |table|
  {
    if table != [] {
      var rest := table[1..];
      forall j | 0 <= j < |rest| ensures rest[j].0 != name {
        assert rest[j] == table[j + 1];
      }
      FirstQuipMisses(name, rest);
    }
  }

  /** Each listed language gets its own quip. */
  lemma QuipOfListed(langs: seq<ChartLanguage>, k: nat)
    requires k < |Quips| && |langs| > 0 && langs[0].name == Quips[k].0
    ensures LanguageQuip(langs) == Quips[k].1
  {
    assert forall i, j :: 0 <= i < j < |Quips| ==> Quips[i].0 != Quips[j].0;
    FirstQuipFinds(Quips, k);
  }

  /** Any other top language, or none, gets the default. */
  lemma QuipOfUnlisted(langs: seq<ChartLanguage>)
    requires |langs| == 0 || forall k :: 0 <= k < |Quips| ==> langs[0].name != Quips[k].0
    ensures LanguageQuip(langs) == DefaultQuip
  {
    if |langs| > 0 {
      FirstQuipMisses(langs[0].name, Quips);
    }
  }
}
