/**
 * The repository list (`RepositoryList`): the repositories shown for the
 * current search text, language selection and sort order, and the star and
 * fork totals of the whole list. The three controls are inputs.
 */
module RepositoryList {
  import opened Wrappers
  import opened JsStrings
  import opened GitHubTypes
  import opened ArrayOps

  /** The language selection that disables the language filter. */
  const AllLanguages: string := "all"

  /**
   * The text filter: the lowercased name contains the lowercased term, or
   * the description is present and its lowercased form contains it.
   */
  predicate MatchesSearch(repo: GitHubRepo, searchTerm: string) {
    || Includes(Lower(repo.name), Lower(searchTerm))
    || (repo.description.Some? && Includes(Lower(repo.description.value), Lower(searchTerm)))
  }

  /** The language filter: `'all'`, or the repository's language is exactly the selection. */
  predicate MatchesLanguage(repo: GitHubRepo, selectedLanguage: string) {
    selectedLanguage == AllLanguages || repo.language == Some(selectedLanguage)
  }

  function Passes(searchTerm: string, selectedLanguage: string): GitHubRepo -> bool {
    repo => MatchesSearch(repo, searchTerm) && MatchesLanguage(repo, selectedLanguage)
  }

  /** The four orders of the sort menu. */
  datatype SortKey = Updated | Stars | Forks | Name

  /** The `switch (sortBy)`: any value other than the three named ones takes the `default` (updated) branch. */
  function ParseSortKey(sortBy: string): SortKey {
    if sortBy == "stars" then Stars
    else if sortBy == "forks" then Forks
    else if sortBy == "name" then Name
    else Updated
  }

  /**
   * The sort comparator. Name order uses the platform's `localeCompare`,
   * which is a parameter of the model.
   */
  function Comparator(key: SortKey, localeCompare: (string, string) -> int): (r: (GitHubRepo, GitHubRepo) -> int)
    ensures key == Stars ==> forall a, b :: r(a, b) <= 0 <==> a.stargazers_count >= b.stargazers_count
    ensures key == Forks ==> forall a, b :: r(a, b) <= 0 <==> a.forks_count >= b.forks_count
    ensures key == Updated ==> forall a, b :: r(a, b) <= 0 <==> a.updated_at >= b.updated_at
    ensures key == Name ==> forall a, b :: r(a, b) <= 0 <==> localeCompare(a.name, b.name) <= 0
  {
    match key
    case Stars => (a: GitHubRepo, b: GitHubRepo) => b.stargazers_count - a.stargazers_count
    case Forks => (a: GitHubRepo, b: GitHubRepo) => b.forks_count - a.forks_count
    case Name => (a: GitHubRepo, b: GitHubRepo) => localeCompare(a.name, b.name)
    case Updated => (a: GitHubRepo, b: GitHubRepo) => b.updated_at - a.updated_at
  }

  /** `filteredAndSortedRepos`. */
  function FilteredAndSortedRepos(repositories: seq<GitHubRepo>, searchTerm: string, sortBy: string,
                                  selectedLanguage: string, localeCompare: (string, string) -> int)
    : seq<GitHubRepo>
  {
    SortBy(Filter(repositories, Passes(searchTerm, selectedLanguage)),
           Comparator(ParseSortKey(sortBy), localeCompare))
  }

  function StarCount(repo: GitHubRepo): int {
    repo.stargazers_count
  }

  function ForkCount(repo: GitHubRepo): int {
    repo.forks_count
  }

  /** `totalStars`, over the whole list. */
  function TotalStars(repositories: seq<GitHubRepo>): int {
    SumBy(repositories, StarCount)
  }

  /** `totalForks`, over the whole list. */
  function TotalForks(repositories: seq<GitHubRepo>): int {
    SumBy(repositories, ForkCount)
  }

  /**
   * The list shows exactly the repositories that pass both filters, each as
   * often as it occurs in the input: sorting adds and drops nothing.
   */
  lemma ShownAreThoseThatPass(repositories: seq<GitHubRepo>, searchTerm: string, sortBy: string,
                              selectedLanguage: string, localeCompare: (string, string) -> int)
    ensures var r := FilteredAndSortedRepos(repositories, searchTerm, sortBy, selectedLanguage, localeCompare);
            && (forall i :: 0 <= i < |r| ==>
                  MatchesSearch(r[i], searchTerm) && MatchesLanguage(r[i], selectedLanguage))
            && (forall x :: multiset(r)[x] ==
                  if MatchesSearch(x, searchTerm) && MatchesLanguage(x, selectedLanguage)
                  then multiset(repositories)[x] else 0)
  {
    var p := Passes(searchTerm, selectedLanguage);
    var f := Filter(repositories, p);
    FilterMultiset(repositories, p);
    var r := FilteredAndSortedRepos(repositories, searchTerm, sortBy, selectedLanguage, localeCompare);
    forall i | 0 <= i < |r| ensures p(r[i]) {
      assert r[i] in multiset(f);
      var k :| 0 <= k < |f| && f[k] == r[i];
    }
  }

  /**
   * `'all'` keeps every repository, whatever its language; any other
   * selection keeps exactly the repositories with that language, so never
   * one whose language is null.
   */
  lemma LanguageFilterSpec(repo: GitHubRepo, selectedLanguage: string)
    ensures MatchesLanguage(repo, "all")
    ensures selectedLanguage != "all" ==>
              (MatchesLanguage(repo, selectedLanguage) <==> repo.language == Some(selectedLanguage))
    ensures selectedLanguage != "all" && repo.language.None? ==> !MatchesLanguage(repo, selectedLanguage)
  {
  }

  /**
   * The text filter ignores ASCII case in the term, matches every repository
   * when the term is empty, and matches on the name alone when the
   * description is null.
   */
  lemma SearchFilterSpec(repo: GitHubRepo, searchTerm: string)
    ensures MatchesSearch(repo, "")
    ensures MatchesSearch(repo, Lower(searchTerm)) == MatchesSearch(repo, searchTerm)
    ensures repo.description.None? ==>
              (MatchesSearch(repo, searchTerm) <==> Includes(Lower(repo.name), Lower(searchTerm)))
  {
    IncludesEmpty(Lower(repo.name));
    LowerIdempotent(searchTerm);
  }

  /** Every comparator of the menu is consistent, the name order whenever `localeCompare` is. */
  lemma ComparatorConsistent(key: SortKey, localeCompare: (string, string) -> int)
    requires key == Name ==> Consistent(localeCompare)
    ensures Consistent(Comparator(key, localeCompare))
  {
    var cmp := Comparator(key, localeCompare);
    if key == Name {
      forall a, b ensures cmp(a, b) <= 0 || cmp(b, a) <= 0 {
        assert localeCompare(a.name, b.name) <= 0 || localeCompare(b.name, a.name) <= 0;
      }
      forall a, b, c ensures Chain(cmp, a, b, c) {
        assert Chain(localeCompare, a.name, b.name, c.name);
      }
    }
  }

  /**
   * The shown list is ordered by the chosen key: stars, forks and last update
   * (also the default) non-increasing, names in `localeCompare` order.
   */
  lemma ShownInSortOrder(repositories: seq<GitHubRepo>, searchTerm: string, sortBy: string,
                         selectedLanguage: string, localeCompare: (string, string) -> int)
    requires ParseSortKey(sortBy) == Name ==> Consistent(localeCompare)
    ensures var r := FilteredAndSortedRepos(repositories, searchTerm, sortBy, selectedLanguage, localeCompare);
            && (ParseSortKey(sortBy) == Stars ==>
                  forall i, j :: 0 <= i < j < |r| ==> r[i].stargazers_count >= r[j].stargazers_count)
            && (ParseSortKey(sortBy) == Forks ==>
                  forall i, j :: 0 <= i < j < |r| ==> r[i].forks_count >= r[j].forks_count)
            && (ParseSortKey(sortBy) == Name ==>
                  forall i, j :: 0 <= i < j < |r| ==> localeCompare(r[i].name, r[j].name) <= 0)
            && (ParseSortKey(sortBy) == Updated ==>
                  forall i, j :: 0 <= i < j < |r| ==> r[i].updated_at >= r[j].updated_at)
  {
    var key := ParseSortKey(sortBy);
    var cmp := Comparator(key, localeCompare);
    ComparatorConsistent(key, localeCompare);
    SortSorted(Filter(repositories, Passes(searchTerm, selectedLanguage)), cmp);
    var r := FilteredAndSortedRepos(repositories, searchTerm, sortBy, selectedLanguage, localeCompare);
    forall i, j | 0 <= i < j < |r| ensures cmp(r[i], r[j]) <= 0 {}
  }

  /**
   * Repositories with equal sort keys are shown in the order they have in
   * the input: for every repository `e`, those tied with it form the same
   * sequence before and after the sort.
   */
  lemma ShownStable(repositories: seq<GitHubRepo>, searchTerm: string, sortBy: string,
                    selectedLanguage: string, localeCompare: (string, string) -> int, e: GitHubRepo)
    requires ParseSortKey(sortBy) == Name ==> Consistent(localeCompare)
    ensures var cmp := Comparator(ParseSortKey(sortBy), localeCompare);
            var f := Filter(repositories, Passes(searchTerm, selectedLanguage));
            Ties(FilteredAndSortedRepos(repositories, searchTerm, sortBy, selectedLanguage, localeCompare), cmp, e)
            == Ties(f, cmp, e)
  {
    var key := ParseSortKey(sortBy);
    ComparatorConsistent(key, localeCompare);
    SortStable(Filter(repositories, Passes(searchTerm, selectedLanguage)), Comparator(key, localeCompare), e);
  }

  /**
   * The initial controls (empty term, `'updated'`, `'all'`) show every
   * repository, most recently updated first.
   */
  lemma InitialViewShowsAll(repositories: seq<GitHubRepo>, localeCompare: (string, string) -> int)
    ensures var r := FilteredAndSortedRepos(repositories, "", "updated", "all", localeCompare);
            && r == SortBy(repositories, Comparator(Updated, localeCompare))
            && multiset(r) == multiset(repositories)
            && forall i, j :: 0 <= i < j < |r| ==> r[i].updated_at >= r[j].updated_at
  {
    var p := Passes("", "all");
    forall i | 0 <= i < |repositories| ensures p(repositories[i]) {
      SearchFilterSpec(repositories[i], "");
    }
    FilterAllPass(repositories, p);
    ShownInSortOrder(repositories, "", "updated", "all", localeCompare);
  }

  /**
   * The totals are taken over the whole list, so they are at least the
   * totals of whatever the filters leave on screen.
   */
  lemma TotalsCoverShown(repositories: seq<GitHubRepo>, searchTerm: string, sortBy: string,
                         selectedLanguage: string, localeCompare: (string, string) -> int)
    ensures var r := FilteredAndSortedRepos(repositories, searchTerm, sortBy, selectedLanguage, localeCompare);
            TotalStars(r) <= TotalStars(repositories) && TotalForks(r) <= TotalForks(repositories)
  {
    var p := Passes(searchTerm, selectedLanguage);
    var cmp := Comparator(ParseSortKey(sortBy), localeCompare);
    SumBySort(Filter(repositories, p), cmp, StarCount);
    SumBySort(Filter(repositories, p), cmp, ForkCount);
    SumByFilter(repositories, p, StarCount);
    SumByFilter(repositories, p, ForkCount);
  }

  /** Reordering the list leaves both totals unchanged. */
  lemma TotalsIgnoreOrder(repositories: seq<GitHubRepo>, cmp: (GitHubRepo, GitHubRepo) -> int)
    ensures TotalStars(SortBy(repositories, cmp)) == TotalStars(repositories)
    ensures TotalForks(SortBy(repositories, cmp)) == TotalForks(repositories)
  {
    SumBySort(repositories, cmp, StarCount);
    SumBySort(repositories, cmp, ForkCount);
  }
}
