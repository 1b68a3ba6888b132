/**
 * The language summary of a repository list (`processLanguageData`): count
 * the repositories per primary language, turn each count into a share of all
 * repositories that declare a language, rank by count and keep the top ten.
 *
 * The counting object is a JavaScript record whose keys enumerate in
 * insertion order; it is modelled as a sequence of (language, count) pairs in
 * that order, so the stable sort that follows leaves equal counts in the
 * order their languages were first seen.
 */
module LanguageStats {
  import opened Wrappers
  import opened GitHubTypes
  import opened ArrayOps
  import Colors

  /** One property of the counting record. */
  datatype LanguageCount = LanguageCount(name: string, count: nat)

  /** `if (repo.language)`: the language is neither null nor the empty string. */
  predicate HasLanguage(repo: GitHubRepo) {
    repo.language.Some? && repo.language.value != ""
  }

  /** `acc[language] = (acc[language] || 0) + 1`. */
  function Bump(acc: seq<LanguageCount>, language: string): seq<LanguageCount> {
    if acc == [] then [LanguageCount(language, 1)]
    else if acc[0].name == language then [LanguageCount(language, acc[0].count + 1)] + acc[1..]
    else [acc[0]] + Bump(acc[1..], language)
  }

  /** The `reduce` building the counting record, one repository at a time from the left. */
  function Tally(repos: seq<GitHubRepo>): seq<LanguageCount> {
    if repos == [] then []
    else
      var acc := Tally(repos[..|repos| - 1]);
      var repo := repos[|repos| - 1];
      if HasLanguage(repo) then Bump(acc, repo.language.value) else acc
  }

  /** `Object.values(languageCount).reduce((sum, count) => sum + count, 0)`. */
  function SumCounts(counts: seq<LanguageCount>): nat {
    if counts == [] then 0 else counts[0].count + SumCounts(counts[1..])
  }

  /** The number of repositories whose language is `language`. */
  function Occurrences(repos: seq<GitHubRepo>, language: string): nat {
    if repos == [] then 0
    else Occurrences(repos[..|repos| - 1], language)
         + (if repos[|repos| - 1].language == Some(language) then 1 else 0)
  }

  /** The number of repositories that declare a (non-empty) language. */
  function NumWithLanguage(repos: seq<GitHubRepo>): nat {
    if repos == [] then 0
    else NumWithLanguage(repos[..|repos| - 1]) + (if HasLanguage(repos[|repos| - 1]) then 1 else 0)
  }

  /** Some repository uses `a` before any repository uses `b`. */
  ghost predicate SeenBefore(repos: seq<GitHubRepo>, a: string, b: string) {
    exists k :: 0 <= k < |repos| && repos[k].language == Some(a) && Occurrences(repos[..k], b) == 0
  }

  predicate DistinctNames(counts: seq<LanguageCount>) {
    forall i, j :: 0 <= i < j < |counts| ==> counts[i].name != counts[j].name
  }

  /** Each entry holds a non-empty language and the exact number of repositories using it. */
  ghost predicate ExactCounts(repos: seq<GitHubRepo>, counts: seq<LanguageCount>) {
    forall i :: 0 <= i < |counts| ==>
      counts[i].name != "" && counts[i].count >= 1 && counts[i].count == Occurrences(repos, counts[i].name)
  }

  /** Every non-empty language some repository uses has an entry. */
  ghost predicate Complete(repos: seq<GitHubRepo>, counts: seq<LanguageCount>) {
    forall l :: l != "" && Occurrences(repos, l) > 0 ==> exists i :: 0 <= i < |counts| && counts[i].name == l
  }

  /** Entries appear in the order their languages are first used. */
  ghost predicate FirstSeenOrder(repos: seq<GitHubRepo>, counts: seq<LanguageCount>) {
    forall i, j :: 0 <= i < j < |counts| ==> SeenBefore(repos, counts[i].name, counts[j].name)
  }

  /**
   * What the counting record holds after reading `repos`: one entry per
   * language used, none for repositories without a language, each with the
   * exact number of repositories using it, in order of first use.
   */
  ghost predicate CountsOf(repos: seq<GitHubRepo>, counts: seq<LanguageCount>) {
    DistinctNames(counts) && ExactCounts(repos, counts) && Complete(repos, counts) && FirstSeenOrder(repos, counts)
  }

  /** Bumping an existing language increments its count in place; a new language is appended. */
  lemma {:induction false} BumpSpec(acc: seq<LanguageCount>, language: string)
    requires DistinctNames(acc)
    ensures (forall i :: 0 <= i < |acc| ==> acc[i].name != language) ==>
              Bump(acc, language) == acc + [LanguageCount(language, 1)]
    ensures forall i :: 0 <= i < |acc| && acc[i].name == language ==>
              Bump(acc, language) == acc[i := LanguageCount(language, acc[i].count + 1)]
  {
    if acc != [] {
      BumpSpec(acc[1..], language);
      if acc[0].name != language {
        forall i | 0 <= i < |acc| && acc[i].name == language
          ensures Bump(acc, language) == acc[i := LanguageCount(language, acc[i].count + 1)]
        {
          assert acc[1..][i - 1].name == language;
          assert acc[1..][i - 1 := LanguageCount(language, acc[i].count + 1)]
                 == acc[i := LanguageCount(language, acc[i].count + 1)][1..];
        }
      }
    }
  }

  lemma {:induction false} OccurrencesWitness(repos: seq<GitHubRepo>, language: string)
    requires Occurrences(repos, language) > 0
    ensures exists k :: 0 <= k < |repos| && repos[k].language == Some(language)
  {
    var p := repos[..|repos| - 1];
    if repos[|repos| - 1].language != Some(language) {
      OccurrencesWitness(p, language);
      var k :| 0 <= k < |p| && p[k].language == Some(language);
      assert repos[k] == p[k];
    }
  }

  lemma {:induction false} OccurrencesPrefix(repos: seq<GitHubRepo>, k: nat, language: string)
    requires k <= |repos|
    ensures Occurrences(repos[..k], language) <= Occurrences(repos, language)
    decreases |repos|
  {
    if k < |repos| {
      var p := repos[..|repos| - 1];
      OccurrencesPrefix(p, k, language);
      assert p[..k] == repos[..k];
    } else {
      assert repos[..k] == repos;
    }
  }

  lemma SeenBeforeExtend(p: seq<GitHubRepo>, repo: GitHubRepo, a: string, b: string)
    requires SeenBefore(p, a, b)
    ensures SeenBefore(p + [repo], a, b)
  {
    var k :| 0 <= k < |p| && p[k].language == Some(a) && Occurrences(p[..k], b) == 0;
    assert (p + [repo])[..k] == p[..k];
    assert (p + [repo])[k] == p[k];
  }

  lemma OccurrencesSnoc(p: seq<GitHubRepo>, repo: GitHubRepo, language: string)
    ensures Occurrences(p + [repo], language) == Occurrences(p, language) + (if repo.language == Some(language) then 1 else 0)
  {
    assert (p + [repo])[..|p|] == p;
  }

  /** A repository without a language leaves the record as it was. */
  lemma TallyStepSkip(p: seq<GitHubRepo>, repo: GitHubRepo)
    requires CountsOf(p, Tally(p)) && !HasLanguage(repo)
    ensures CountsOf(p + [repo], Tally(p + [repo]))
  {
    var repos := p + [repo];
    assert repos[..|repos| - 1] == p;
    var acc := Tally(p);
    forall l | l != "" ensures Occurrences(repos, l) == Occurrences(p, l) {
      OccurrencesSnoc(p, repo, l);
    }
    forall i, j | 0 <= i < j < |acc| ensures SeenBefore(repos, acc[i].name, acc[j].name) {
      SeenBeforeExtend(p, repo, acc[i].name, acc[j].name);
    }
  }

  /** Incrementing the entry of the new repository's language keeps every count exact. */
  lemma ExactCountsIncrement(p: seq<GitHubRepo>, repo: GitHubRepo, acc: seq<LanguageCount>, m: nat)
    requires ExactCounts(p, acc) && m < |acc| && repo.language == Some(acc[m].name)
    requires DistinctNames(acc)
    ensures ExactCounts(p + [repo], acc[m := LanguageCount(acc[m].name, acc[m].count + 1)])
  {
    var acc' := acc[m := LanguageCount(acc[m].name, acc[m].count + 1)];
    forall i | 0 <= i < |acc'|
      ensures acc'[i].name != "" && acc'[i].count >= 1 && acc'[i].count == Occurrences(p + [repo], acc'[i].name)
    {
      assert acc'[i].name == acc[i].name;
      OccurrencesSnoc(p, repo, acc[i].name);
    }
  }

  /** Incrementing an existing entry keeps every used language recorded. */
  lemma CompleteIncrement(p: seq<GitHubRepo>, repo: GitHubRepo, acc: seq<LanguageCount>, m: nat)
    requires Complete(p, acc) && m < |acc| && repo.language == Some(acc[m].name)
    ensures Complete(p + [repo], acc[m := LanguageCount(acc[m].name, acc[m].count + 1)])
  {
    var acc' := acc[m := LanguageCount(acc[m].name, acc[m].count + 1)];
    forall x | x != "" && Occurrences(p + [repo], x) > 0
      ensures exists i :: 0 <= i < |acc'| && acc'[i].name == x
    {
      OccurrencesSnoc(p, repo, x);
      if x == acc[m].name {
        assert acc'[m].name == x;
      } else {
        var i :| 0 <= i < |acc| && acc[i].name == x;
        assert acc'[i].name == x;
      }
    }
  }

  /** Incrementing an existing entry keeps the entries in order of first use. */
  lemma FirstSeenIncrement(p: seq<GitHubRepo>, repo: GitHubRepo, acc: seq<LanguageCount>, m: nat)
    requires FirstSeenOrder(p, acc) && m < |acc|
    ensures FirstSeenOrder(p + [repo], acc[m := LanguageCount(acc[m].name, acc[m].count + 1)])
  {
    var acc' := acc[m := LanguageCount(acc[m].name, acc[m].count + 1)];
    forall i, j | 0 <= i < j < |acc'| ensures SeenBefore(p + [repo], acc'[i].name, acc'[j].name) {
      assert acc'[i].name == acc[i].name && acc'[j].name == acc[j].name;
      SeenBeforeExtend(p, repo, acc[i].name, acc[j].name);
    }
  }

  /** A repository whose language is already in the record increments that entry. */
  lemma TallyStepKnown(p: seq<GitHubRepo>, repo: GitHubRepo, m: nat)
    requires CountsOf(p, Tally(p)) && HasLanguage(repo)
    requires m < |Tally(p)| && Tally(p)[m].name == repo.language.value
    ensures CountsOf(p + [repo], Tally(p + [repo]))
  {
    var repos := p + [repo];
    assert repos[..|repos| - 1] == p;
    var acc := Tally(p);
    var l := repo.language.value;
    BumpSpec(acc, l);
    var acc' := acc[m := LanguageCount(l, acc[m].count + 1)];
    assert Tally(repos) == acc';
    assert DistinctNames(acc') by {
      assert forall i :: 0 <= i < |acc'| ==> acc'[i].name == acc[i].name;
    }
    ExactCountsIncrement(p, repo, acc, m);
    CompleteIncrement(p, repo, acc, m);
    FirstSeenIncrement(p, repo, acc, m);
  }

  /** Appending a language no earlier repository used keeps the entries in order of first use. */
  lemma FirstSeenAppend(p: seq<GitHubRepo>, repo: GitHubRepo, acc: seq<LanguageCount>, l: string)
    requires ExactCounts(p, acc) && FirstSeenOrder(p, acc)
    requires repo.language == Some(l) && Occurrences(p, l) == 0
    ensures FirstSeenOrder(p + [repo], acc + [LanguageCount(l, 1)])
  {
    var repos := p + [repo];
    var acc' := acc + [LanguageCount(l, 1)];
    forall i, j | 0 <= i < j < |acc'| ensures SeenBefore(repos, acc'[i].name, acc'[j].name) {
      assert acc'[i] == acc[i];
      if j < |acc| {
        assert acc'[j] == acc[j];
        SeenBeforeExtend(p, repo, acc[i].name, acc[j].name);
      } else {
        OccurrencesWitness(p, acc[i].name);
        var k :| 0 <= k < |p| && p[k].language == Some(acc[i].name);
        OccurrencesPrefix(p, k, l);
        assert repos[..k] == p[..k];
        assert repos[k] == p[k];
      }
    }
  }

  /** A repository with a language not yet in the record appends an entry with count one. */
  lemma TallyStepNew(p: seq<GitHubRepo>, repo: GitHubRepo)
    requires CountsOf(p, Tally(p)) && HasLanguage(repo)
    requires forall i :: 0 <= i < |Tally(p)| ==> Tally(p)[i].name != repo.language.value
    ensures CountsOf(p + [repo], Tally(p + [repo]))
  {
    var repos := p + [repo];
    assert repos[..|repos| - 1] == p;
    var acc := Tally(p);
    var l := repo.language.value;
    BumpSpec(acc, l);
    var acc' := acc + [LanguageCount(l, 1)];
    assert Tally(repos) == acc';
    assert Occurrences(p, l) == 0;
    assert ExactCounts(repos, acc') by {
      forall i | 0 <= i < |acc'|
        ensures acc'[i].count == Occurrences(repos, acc'[i].name)
      {
        OccurrencesSnoc(p, repo, acc'[i].name);
      }
    }
    assert Complete(repos, acc') by {
      forall x | x != "" && Occurrences(repos, x) > 0
        ensures exists i :: 0 <= i < |acc'| && acc'[i].name == x
      {
        OccurrencesSnoc(p, repo, x);
        if x == l {
          assert acc'[|acc|].name == x;
        } else {
          var i :| 0 <= i < |acc| && acc[i].name == x;
          assert acc'[i].name == x;
        }
      }
    }
    FirstSeenAppend(p, repo, acc, l);
  }

  lemma TallyStep(p: seq<GitHubRepo>, repo: GitHubRepo)
    requires CountsOf(p, Tally(p))
    ensures CountsOf(p + [repo], Tally(p + [repo]))
  {
    if !HasLanguage(repo) {
      TallyStepSkip(p, repo);
    } else if m :| 0 <= m < |Tally(p)| && Tally(p)[m].name == repo.language.value {
      TallyStepKnown(p, repo, m);
    } else {
      TallyStepNew(p, repo);
    }
  }

  /**
   * The counting `reduce` yields, for every language some repository uses,
   * exactly one entry holding the number of repositories that use it, and no
   * entry for repositories whose language is null or empty; entries appear in
   * the order their languages are first used.
   */
  lemma {:induction false} TallyCorrect(repos: seq<GitHubRepo>)
    ensures CountsOf(repos, Tally(repos))
  {
    if repos != [] {
      var p := repos[..|repos| - 1];
      TallyCorrect(p);
      TallyStep(p, repos[|repos| - 1]);
      assert p + [repos[|repos| - 1]] == repos;
    }
  }

  lemma {:induction false} SumCountsBump(acc: seq<LanguageCount>, language: string)
    ensures SumCounts(Bump(acc, language)) == SumCounts(acc) + 1
  {
    if acc != [] && acc[0].name != language {
      SumCountsBump(acc[1..], language);
    }
  }

  /** `total` is the number of repositories that declare a language, not the number of repositories. */
  lemma {:induction false} TotalIsReposWithLanguage(repos: seq<GitHubRepo>)
    ensures SumCounts(Tally(repos)) == NumWithLanguage(repos)
  {
    if repos != [] {
      var p := repos[..|repos| - 1];
      TotalIsReposWithLanguage(p);
      if HasLanguage(repos[|repos| - 1]) {
        SumCountsBump(Tally(p), repos[|repos| - 1].language.value);
      }
    }
  }

  /** The `percentage` that `processLanguageData` computes for one entry. */
  function Percentage(count: nat, total: nat): (r: real)
    requires total > 0
    ensures count <= total ==> 0.0 <= r <= 100.0
    ensures count == total ==> r == 100.0
  {
    assert count as real / total as real <= 1.0 <== count <= total;
    (count as real / total as real) * 100.0
  }

  /** The `map` from counting entries to summary rows. */
  function ToLanguageData(counts: seq<LanguageCount>, total: nat): (r: seq<LanguageData>)
    requires counts == [] || total > 0
    ensures |r| == |counts|
    ensures forall i :: 0 <= i < |r| ==>
              && r[i].name == counts[i].name && r[i].count == counts[i].count
              && r[i].percentage == Percentage(counts[i].count, total)
              && r[i].color == Colors.GetLanguageColor(counts[i].name)
  {
    if counts == [] then []
    else
      [LanguageData(counts[0].name, counts[0].count, Percentage(counts[0].count, total),
                    Colors.GetLanguageColor(counts[0].name))]
      + ToLanguageData(counts[1..], total)
  }

  /** `(a, b) => b.count - a.count`: larger counts first. */
  function ByCountDescending(a: LanguageData, b: LanguageData): (r: int)
    ensures r <= 0 <==> a.count >= b.count
  {
    b.count - a.count
  }

  lemma ByCountConsistent()
    ensures Consistent(ByCountDescending)
  {
  }

  /** The rows before sorting: one per counting entry, in record order. */
  function Entries(repos: seq<GitHubRepo>): (r: seq<LanguageData>)
    ensures |r| == |Tally(repos)|
  {
    var counts := Tally(repos);
    var total := SumCounts(counts);
    TallyCorrect(repos);
    assert counts != [] ==> total >= counts[0].count >= 1;
    ToLanguageData(counts, total)
  }

  /** Every language entry, ranked, before the top-ten cut. */
  function RankedLanguages(repos: seq<GitHubRepo>): (r: seq<LanguageData>)
    ensures multiset(r) == multiset(Entries(repos))
  {
    SortBy(Entries(repos), ByCountDescending)
  }

  /** `processLanguageData`. */
  function ProcessLanguageData(repos: seq<GitHubRepo>): (r: seq<LanguageData>)
    ensures |r| <= 10
  {
    Take(RankedLanguages(repos), 10)
  }

  /** `total` is positive whenever there is an entry to divide. */
  lemma TotalPositive(repos: seq<GitHubRepo>)
    ensures Tally(repos) != [] ==> NumWithLanguage(repos) > 0
    ensures Tally(repos) == [] ==> NumWithLanguage(repos) == 0
  {
    TallyCorrect(repos);
    TotalIsReposWithLanguage(repos);
    var counts := Tally(repos);
    assert counts != [] ==> SumCounts(counts) >= counts[0].count >= 1;
  }

  /** Each row of the ranked list is one of the unsorted rows. */
  lemma RankedFromEntries(repos: seq<GitHubRepo>, i: nat)
    requires i < |RankedLanguages(repos)|
    ensures exists k :: 0 <= k < |Entries(repos)| && Entries(repos)[k] == RankedLanguages(repos)[i]
  {
    assert RankedLanguages(repos)[i] in multiset(Entries(repos));
  }

  lemma EntriesExact(repos: seq<GitHubRepo>)
    ensures var e := Entries(repos);
            var n := NumWithLanguage(repos);
            forall k :: 0 <= k < |e| ==>
              && e[k].name != "" && e[k].count >= 1
              && e[k].count == Occurrences(repos, e[k].name)
              && n > 0 && e[k].percentage == (e[k].count as real / n as real) * 100.0
              && e[k].color == Colors.GetLanguageColor(e[k].name)
    ensures var e := Entries(repos);
            forall i, j :: 0 <= i < j < |e| ==> e[i].name != e[j].name
  {
    TallyCorrect(repos);
    TotalIsReposWithLanguage(repos);
    TotalPositive(repos);
  }

  /**
   * Before the cut, the ranked list has one entry per language used, with
   * distinct names, the exact number of repositories using it, its share of
   * the repositories that declare a language, and its table colour.
   */
  lemma RankedEntriesExact(repos: seq<GitHubRepo>)
    ensures var full := RankedLanguages(repos);
            var n := NumWithLanguage(repos);
            && |full| == |Tally(repos)|
            && (forall i :: 0 <= i < |full| ==>
                  && full[i].name != "" && full[i].count >= 1
                  && full[i].count == Occurrences(repos, full[i].name)
                  && n > 0 && full[i].percentage == (full[i].count as real / n as real) * 100.0
                  && full[i].color == Colors.GetLanguageColor(full[i].name))
  {
    EntriesExact(repos);
    forall i | 0 <= i < |RankedLanguages(repos)| {
      RankedFromEntries(repos, i);
    }
  }

  /** No language appears twice in the ranked list. */
  lemma RankedNamesDistinct(repos: seq<GitHubRepo>)
    ensures var full := RankedLanguages(repos);
            forall i, j :: 0 <= i < j < |full| ==> full[i].name != full[j].name
  {
    TallyCorrect(repos);
    var e := Entries(repos);
    assert forall k :: 0 <= k < |e| ==> e[k].name == Tally(repos)[k].name;
    PermutationKeepsDistinct(e, RankedLanguages(repos), (d: LanguageData) => d.name);
  }

  /** Every language some repository uses has a row in the ranked list. */
  lemma RankedComplete(repos: seq<GitHubRepo>)
    ensures var full := RankedLanguages(repos);
            forall l :: l != "" && Occurrences(repos, l) > 0 ==> exists i :: 0 <= i < |full| && full[i].name == l
  {
    TallyCorrect(repos);
    var counts := Tally(repos);
    var e := Entries(repos);
    var full := RankedLanguages(repos);
    forall l | l != "" && Occurrences(repos, l) > 0
      ensures exists i :: 0 <= i < |full| && full[i].name == l
    {
      var k :| 0 <= k < |counts| && counts[k].name == l;
      assert e[k].name == l;
      assert e[k] in multiset(full);
      var i :| 0 <= i < |full| && full[i] == e[k];
    }
  }

  /**
   * The ranked list is in non-increasing count order, and languages with
   * equal counts stay in the order in which the input first used them.
   */
  lemma RankedOrder(repos: seq<GitHubRepo>)
    ensures var full := RankedLanguages(repos);
            && (forall i, j :: 0 <= i < j < |full| ==> full[i].count >= full[j].count)
            && (forall i, j :: 0 <= i < j < |full| && full[i].count == full[j].count ==>
                  SeenBefore(repos, full[i].name, full[j].name))
  {
    var counts := Tally(repos);
    TallyCorrect(repos);
    var entries := Entries(repos);
    var full := RankedLanguages(repos);
    ByCountConsistent();
    SortSorted(entries, ByCountDescending);
    var prec := (a: LanguageData, b: LanguageData) => SeenBefore(repos, a.name, b.name);
    assert TieOrdered(entries, ByCountDescending, prec) by {
      forall i, j | 0 <= i < j < |entries| ensures prec(entries[i], entries[j]) {
        assert entries[i].name == counts[i].name && entries[j].name == counts[j].name;
      }
    }
    SortKeepsTieOrder(entries, ByCountDescending, prec);
    forall i, j | 0 <= i < j < |full| ensures full[i].count >= full[j].count {
      assert ByCountDescending(full[i], full[j]) <= 0;
    }
    forall i, j | 0 <= i < j < |full| && full[i].count == full[j].count
      ensures SeenBefore(repos, full[i].name, full[j].name)
    {
      assert Tied(ByCountDescending, full[i], full[j]);
      assert prec(full[i], full[j]);
    }
  }

  /**
   * `processLanguageData` keeps at most ten entries, the first ones of the
   * ranked list: counts are non-increasing, ties keep first-use order, and
   * every language cut off has a count no larger than any kept one.
   */
  lemma ProcessLanguageDataRanked(repos: seq<GitHubRepo>)
    ensures var full := RankedLanguages(repos);
            var r := ProcessLanguageData(repos);
            && |r| == (if |full| < 10 then |full| else 10)
            && r == full[..|r|]
            && (forall i, j :: 0 <= i < j < |r| ==> r[i].count >= r[j].count)
            && (forall i, j :: 0 <= i < j < |r| && r[i].count == r[j].count ==>
                  SeenBefore(repos, r[i].name, r[j].name))
            && (forall i, j :: 0 <= i < |r| <= j < |full| ==> full[j].count <= r[i].count)
  {
    RankedOrder(repos);
    var full := RankedLanguages(repos);
    var r := ProcessLanguageData(repos);
    forall i, j | 0 <= i < |r| <= j < |full| ensures full[j].count <= r[i].count {
      assert r[i] == full[i];
    }
  }

  /**
   * Every entry `processLanguageData` returns names a distinct language, used
   * by exactly `count` repositories, and its percentage is that count's share
   * of the repositories that declare a language.
   */
  lemma ProcessLanguageDataCounts(repos: seq<GitHubRepo>)
    ensures var r := ProcessLanguageData(repos);
            var n := NumWithLanguage(repos);
            && (forall i :: 0 <= i < |r| ==>
                  && r[i].name != "" && r[i].count >= 1
                  && r[i].count == Occurrences(repos, r[i].name)
                  && n > 0 && r[i].percentage == (r[i].count as real / n as real) * 100.0
                  && r[i].color == Colors.GetLanguageColor(r[i].name))
            && (forall i, j :: 0 <= i < j < |r| ==> r[i].name != r[j].name)
  {
    RankedEntriesExact(repos);
    RankedNamesDistinct(repos);
    var full := RankedLanguages(repos);
    var r := ProcessLanguageData(repos);
    assert forall i :: 0 <= i < |r| ==> r[i] == full[i];
  }

  /** The sum of the `percentage` fields. */
  function SumPercentages(ds: seq<LanguageData>): real {
    if ds == [] then 0.0 else ds[0].percentage + SumPercentages(ds[1..])
  }

  lemma {:induction false} SumPercentagesOfCounts(counts: seq<LanguageCount>, total: nat)
    requires total > 0
    ensures SumPercentages(ToLanguageData(counts, total)) == (SumCounts(counts) as real / total as real) * 100.0
  {
    if counts != [] {
      SumPercentagesOfCounts(counts[1..], total);
      var c := counts[0].count as real;
      var rest := SumCounts(counts[1..]) as real;
      var t := total as real;
      var rows := ToLanguageData(counts, total);
      assert rows[1..] == ToLanguageData(counts[1..], total);
      assert rows[0].percentage == (c / t) * 100.0;
      AddShares(c, rest, t);
    }
  }

  lemma AddShares(c: real, rest: real, t: real)
    requires t > 0.0
    ensures (c / t) * 100.0 + (rest / t) * 100.0 == ((c + rest) / t) * 100.0
  {
  }

  lemma {:induction false} SumPercentagesInsert(x: LanguageData, t: seq<LanguageData>, cmp: (LanguageData, LanguageData) -> int)
    ensures SumPercentages(Insert(x, t, cmp)) == x.percentage + SumPercentages(t)
  {
    if t != [] && cmp(x, t[0]) > 0 {
      SumPercentagesInsert(x, t[1..], cmp);
      assert ([t[0]] + Insert(x, t[1..], cmp))[1..] == Insert(x, t[1..], cmp);
    } else if t != [] {
      assert ([x] + t)[1..] == t;
    }
  }

  lemma {:induction false} SumPercentagesSort(s: seq<LanguageData>, cmp: (LanguageData, LanguageData) -> int)
    ensures SumPercentages(SortBy(s, cmp)) == SumPercentages(s)
  {
    if s != [] {
      SumPercentagesSort(s[1..], cmp);
      SumPercentagesInsert(s[0], SortBy(s[1..], cmp), cmp);
    }
  }

  /**
   * Before the top-ten cut the percentages add up to exactly 100 (in exact
   * arithmetic) whenever some repository declares a language.
   */
  lemma WholeIsHundredPercent(total: nat)
    requires total > 0
    ensures (total as real / total as real) * 100.0 == 100.0
  {
  }

  lemma PercentagesSumTo100(repos: seq<GitHubRepo>)
    requires NumWithLanguage(repos) > 0
    ensures SumPercentages(RankedLanguages(repos)) == 100.0
  {
    var counts := Tally(repos);
    var total := SumCounts(counts);
    TotalIsReposWithLanguage(repos);
    assert Entries(repos) == ToLanguageData(counts, total);
    SumPercentagesSort(Entries(repos), ByCountDescending);
    SumPercentagesOfCounts(counts, total);
    WholeIsHundredPercent(total);
  }

  /** When no repository declares a language the summary is empty, so nothing is divided. */
  lemma NoLanguagesNoEntries(repos: seq<GitHubRepo>)
    requires NumWithLanguage(repos) == 0
    ensures Tally(repos) == [] && RankedLanguages(repos) == [] && ProcessLanguageData(repos) == []
  {
    TotalPositive(repos);
  }
}
