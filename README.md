# GitView core in Dafny

GitView is a browser application. It looks up a GitHub account, shows the
account's profile and its public repositories, and summarises the languages
those repositories use. This project models the logic behind that view and
proves properties of it:

- **App**: the search controller `handleSearch`. It clears earlier results,
  fetches the profile and the repository list together, then shows either
  both results or one error message. The state it updates is the class
  `App.AppState`.
- **LanguageStats**: `processLanguageData`. It counts the repositories per
  primary language, turns each count into a percentage of all repositories
  that have a language, attaches a colour, sorts by count (highest first) and
  keeps the first ten.
- **RepositoryList**: the repository list. It filters by text and language,
  sorts by stars, forks, name or last update, and totals stars and forks.
- **GitHubService**: the API client. It builds the request URLs, maps HTTP
  statuses to error messages and drops GitHub Pages repositories (those whose
  name contains `.github.io`).
- **Colors**: the language-to-colour table and its fallback colour.
- **SearchInput**: the search form. It trims the username before submitting
  and computes the `disabled` flags of the field and the button.
- **UserProfile**: values the profile card derives from an account. These
  are the heading (display name, else login), the `@login` handle, which
  optional lines are shown and the blog link target.

Supporting modules:

- **JsStrings** models the JavaScript string operations the code uses:
  `toLowerCase`, `includes`, `startsWith`, `trim` and number-to-text.
- **ArrayOps** models the `Array` operations: `filter`, a stable `sort` with
  a comparator, `reduce` as a sum, and `slice`.
- **GitHubTypes** holds the API records and **Wrappers** holds `Option` and
  `Result`.

Modelling choices:

- A JavaScript object used as a counting dictionary enumerates its keys in
  insertion order. It is modelled as a sequence of (name, count) pairs.
- `Array.prototype.sort` is stable. It is modelled as insertion sort, which
  keeps equal elements in input order.
- The network is a parameter. It is a function from URL to a response
  (status and decoded JSON body) or a network failure.
- `localeCompare` is a parameter.
- Which of the two parallel requests fails first is a boolean parameter.

## Model

| member | source | states |
|---|---|---|
| JsStrings.LowerChar | project/src/components/RepositoryList.tsx:18-19 | `toLowerCase` on one character maps `A`-`Z` to `a`-`z` and leaves every other character alone |
| JsStrings.Lower | project/src/components/RepositoryList.tsx:18-19 | lowercasing keeps the length and lowercases every position |
| JsStrings.LowerIdempotent | project/src/components/RepositoryList.tsx:18-19 | lowercasing twice is the same as lowercasing once |
| JsStrings.StartsWith | project/src/components/UserProfile.tsx:56 | `startsWith(p)`: the string's first `|p|` characters are `p`; used by `UserProfile.BlogHref` and the URL round trips |
| JsStrings.Includes | project/src/components/RepositoryList.tsx:18-19 | `includes(p)`, specified by `IncludesAt` (occurs at some index) and `IncludesEmpty` |
| JsStrings.IncludesAt | project/src/components/RepositoryList.tsx:18-19 | `includes(p)` holds exactly when `p` occurs in the string at some position |
| JsStrings.IncludesEmpty | project/src/components/RepositoryList.tsx:18 | every string includes the empty string |
| JsStrings.Trim | project/src/components/SearchInput.tsx:14-15 | `trim()`, specified by `TrimSpec`, `TrimEmptyIff` and `TrimIdempotent` below |
| JsStrings.TrimSpec | project/src/components/SearchInput.tsx:14-15 | `trim` returns a contiguous slice with only whitespace cut off around it, and the slice neither starts nor ends with whitespace |
| JsStrings.TrimEmptyIff | project/src/components/SearchInput.tsx:14 | the trimmed text is empty exactly when the text is all whitespace |
| JsStrings.TrimIdempotent | project/src/components/SearchInput.tsx:15 | trimming a trimmed text changes nothing |
| JsStrings.NatToString | project/src/services/github.ts:16 | the decimal text of a status in the template literal, specified by `NatToStringRoundTrip` and `NatToStringInjective` |
| JsStrings.NatToStringRoundTrip | project/src/services/github.ts:16 | the decimal text of a status is nonempty, all digits, has no leading zero unless it is `0`, and reads back as the same number |
| JsStrings.NatToStringInjective | project/src/services/github.ts:16 | distinct numbers have distinct decimal texts |
| ArrayOps.Filter | project/src/components/RepositoryList.tsx:16-22 | `filter` returns no more elements than its input, and each element it returns satisfies the predicate |
| ArrayOps.FilterMultiset | project/src/components/RepositoryList.tsx:16-22 | `filter` keeps every copy of each element that passes and no copy of any element that fails |
| ArrayOps.FilterIsSubsequence | project/src/services/github.ts:33 | `filter` keeps the input's order (the result is a subsequence) |
| ArrayOps.FilterAllPass | project/src/components/RepositoryList.tsx:16-22 | when every element passes, `filter` returns the input unchanged |
| ArrayOps.Insert | project/src/App.tsx:35 | inserting one element adds exactly that element to the multiset |
| ArrayOps.SortBy | project/src/App.tsx:35 | sorting returns a permutation of the input |
| ArrayOps.SortSorted | project/src/App.tsx:35 | with a consistent comparator, no later element compares before an earlier one |
| ArrayOps.SortStable | project/src/components/RepositoryList.tsx:23-35 | for every element `e`, the elements tied with `e` keep their input order |
| ArrayOps.SortKeepsTieOrder | project/src/App.tsx:35 | any ordering the input respects among tied elements is still respected after sorting |
| ArrayOps.PermutationKeepsDistinct | project/src/App.tsx:28-36 | a permutation of a list with distinct keys still has distinct keys |
| ArrayOps.SumBy | project/src/components/RepositoryList.tsx:37-38 | the `reduce` sum of `f` over a list; it is non-negative when every value is, and `SumByFilter` and `SumBySort` below relate it to filtering and sorting |
| ArrayOps.SumByFilter | project/src/components/RepositoryList.tsx:37-38 | with non-negative values, the sum over a filtered list is at most the sum over the whole list |
| ArrayOps.SumBySort | project/src/components/RepositoryList.tsx:37-38 | sorting does not change a sum |
| ArrayOps.Take | project/src/App.tsx:36 | `slice(0, n)` is the prefix of length `min(n, length)` |
| Colors.GetLanguageColor | project/src/utils/colors.ts:31-33 | the colour returned is always an entry of the table |
| Colors.TableColorsWellFormed | project/src/utils/colors.ts:1-29 | every colour in the table is a `#` followed by six hex digits |
| Colors.GetLanguageColorSpec | project/src/utils/colors.ts:28-33 | a listed language gets its own colour; any other language gets the default `#8b5cf6`; the result is always a hex colour |
| GitHubService.HttpErrorMessage | project/src/services/github.ts:10-16 | the message for a failing status; its cases are stated in `FetchWithErrorHandling`'s ensures, and `ErrorMessageRoundTrip` shows the status can be read back |
| GitHubService.IsOk | project/src/services/github.ts:9 | `response.ok` is a status in 200-299; `FetchWithErrorHandling` states that success happens exactly then |
| GitHubService.FetchWithErrorHandling | project/src/services/github.ts:6-20 | succeeds exactly on a status in 200-299 and then returns the body unchanged; 404 fails with "User not found"; 403 with "API rate limit exceeded"; any other failing status with "GitHub API error: " and the status; a network failure passes through with its own message |
| GitHubService.ErrorMessageRoundTrip | project/src/services/github.ts:9-16 | the error message of a failing status gives that status back |
| GitHubService.ErrorMessageDeterminesStatus | project/src/services/github.ts:9-16 | two statuses with the same error message are the same status |
| GitHubService.UserProfileUrl | project/src/services/github.ts:24 | the profile URL, specified by `ProfileUrlRoundTrip` and `UrlsInjective` |
| GitHubService.UserReposUrl | project/src/services/github.ts:30 | the repository-list URL, specified by `ReposUrlRoundTrip` and `UrlsInjective` |
| GitHubService.RepoLanguagesUrl | project/src/services/github.ts:38 | the languages URL, specified by `GetRepositoryLanguagesSpec` |
| GitHubService.GetUserProfile | project/src/services/github.ts:22-26 | `getUserProfile`: `FetchWithErrorHandling` of the profile URL's response; `App.UnknownUserFails` and `App.SearchSucceedsIffBothOk` state its outcomes |
| GitHubService.IsPagesRepo | project/src/services/github.ts:33 | a repository is a GitHub Pages one exactly when `.github.io` occurs in its name at some position |
| GitHubService.GetUserRepositories | project/src/services/github.ts:28-34 | `getUserRepositories`, specified by `GetUserRepositoriesSpec` |
| GitHubService.GetRepositoryLanguages | project/src/services/github.ts:36-40 | `getRepositoryLanguages`, specified by `GetRepositoryLanguagesSpec` |
| GitHubService.ProfileUrlRoundTrip | project/src/services/github.ts:3-24 | the profile URL starts with `https://api.github.com/users/` and names exactly the requested user |
| GitHubService.ReposUrlRoundTrip | project/src/services/github.ts:28-30 | the repository-list URL is the profile URL plus `/repos?sort=updated&per_page=100`, and names exactly the requested user |
| GitHubService.UrlsInjective | project/src/services/github.ts:22-31 | different users never share a profile URL or a repository-list URL |
| GitHubService.GetUserRepositoriesSpec | project/src/services/github.ts:28-34 | succeeds exactly when the response is ok; the result is the fetched list in order, minus exactly the repositories whose name contains `.github.io`; on failure the error is the fetch's error |
| GitHubService.GetRepositoryLanguagesSpec | project/src/services/github.ts:36-40 | the request goes to `https://api.github.com/repos/.../languages` and succeeds exactly when that response is ok |
| LanguageStats.BumpSpec | project/src/App.tsx:20-21 | counting a repository with a known language adds one to that language's entry in place; a new language is appended with count 1 |
| LanguageStats.Bump | project/src/App.tsx:21 | one step of the counting `reduce` on the insertion-ordered record: the language's count goes up by one, starting from zero, specified by `BumpSpec` |
| LanguageStats.HasLanguage | project/src/App.tsx:20 | the truthiness test `if (repo.language)`: a language that is present and non-empty; `TotalIsReposWithLanguage` and `RankedComplete` state that exactly these repositories are counted |
| LanguageStats.Tally | project/src/App.tsx:19-24 | the counting `reduce`, specified by `TallyCorrect` |
| LanguageStats.SumCounts | project/src/App.tsx:26 | `total`, specified by `TotalIsReposWithLanguage` |
| LanguageStats.Percentage | project/src/App.tsx:32 | `(count / total) * 100` over exact reals: between 0 and 100 for a count within the total, and exactly 100 for the whole |
| LanguageStats.TallyCorrect | project/src/App.tsx:19-24 | after the `reduce`, each entry's count is the number of repositories with that language; every repository's language has an entry; no language has two; entries are in order of first appearance; repositories with a null or empty language count nowhere |
| LanguageStats.TotalIsReposWithLanguage | project/src/App.tsx:26 | `total` is the number of repositories with a non-empty language |
| LanguageStats.ToLanguageData | project/src/App.tsx:28-34 | each row keeps its name and count, has percentage `count / total * 100`, and has the colour of its language |
| LanguageStats.ByCountDescending | project/src/App.tsx:35 | `b.count - a.count`: `a` may stay before `b` exactly when `a`'s count is at least `b`'s |
| LanguageStats.ByCountConsistent | project/src/App.tsx:35 | the comparator `b.count - a.count` is a consistent order |
| LanguageStats.Entries | project/src/App.tsx:26-34 | the rows before sorting, one per counting entry; specified by `EntriesExact` |
| LanguageStats.RankedLanguages | project/src/App.tsx:35 | the sorted rows are a permutation of the unsorted rows; ordered as `RankedOrder` states |
| LanguageStats.EntriesExact | project/src/App.tsx:26-34 | before sorting, each row's count, percentage and colour are exact, and the names are distinct |
| LanguageStats.RankedEntriesExact | project/src/App.tsx:28-35 | after sorting, each row's count and percentage are still exact |
| LanguageStats.RankedNamesDistinct | project/src/App.tsx:28-35 | after sorting, no language appears twice |
| LanguageStats.RankedComplete | project/src/App.tsx:19-35 | before the cut, every language of the repositories has a row |
| LanguageStats.RankedOrder | project/src/App.tsx:35 | rows are in non-increasing count; rows with equal counts are in order of each language's first appearance |
| LanguageStats.ProcessLanguageData | project/src/App.tsx:18-37 | `processLanguageData`: at most ten rows; specified fully by `ProcessLanguageDataRanked` and `ProcessLanguageDataCounts` |
| LanguageStats.ProcessLanguageDataRanked | project/src/App.tsx:35-36 | the result is the first `min(10, n)` rows of the ranked list, in non-increasing count; no row that is cut has a higher count than a kept row |
| LanguageStats.ProcessLanguageDataCounts | project/src/App.tsx:18-36 | every returned row has the exact count of its language, the exact percentage and the table colour; names are distinct |
| LanguageStats.SumPercentagesOfCounts | project/src/App.tsx:26-32 | the percentages of the rows sum to their combined count over `total`, times 100 |
| LanguageStats.SumPercentagesSort | project/src/App.tsx:35 | sorting does not change the sum of the percentages |
| LanguageStats.PercentagesSumTo100 | project/src/App.tsx:19-35 | when some repository has a language, the percentages of all rows before the cut add up to exactly 100 |
| LanguageStats.NoLanguagesNoEntries | project/src/App.tsx:18-36 | when no repository has a language, the result is empty (so no division by a zero total happens) |
| App.JoinFetches | project/src/App.tsx:47-50 | `Promise.all` yields both values exactly when both requests succeed; otherwise it rejects with the error of the request that fails first |
| App.FetchUserAndRepos | project/src/App.tsx:47-50 | the two service calls joined by `Promise.all`, specified by `UnknownUserFails` and `SearchSucceedsIffBothOk` |
| App.ErrorText | project/src/App.tsx:56 | `err instanceof Error ? err.message : 'An error occurred'`, as stated in `AppState.Settle`'s ensures |
| App.AppState.constructor | project/src/App.tsx:12-16 | the initial state has no user, no repositories, no languages, is not loading and has no error |
| App.AppState.BeginSearch | project/src/App.tsx:40-44 | the search starts loading and clears the error, the user, the repositories and the languages |
| App.AppState.Settle | project/src/App.tsx:46-59 | on success the state holds the user, the repositories and their language summary, with no error; on failure it holds the error's message (or "An error occurred" for a non-`Error` value) and no results; it is no longer loading |
| App.AppState.HandleSearch | project/src/App.tsx:39-60 | after a search the state is settled; it holds the fetched profile and repositories when both requests succeed, and the error text otherwise |
| App.UnknownUserFails | project/src/App.tsx:47-56 | a profile request answered with 404 makes the search fail with "User not found", unless the repository request has already failed |
| App.SearchSucceedsIffBothOk | project/src/App.tsx:47-54 | a search succeeds exactly when both responses are ok; then the user is the profile body and no shown repository is a Pages repository |
| RepositoryList.MatchesSearch | project/src/components/RepositoryList.tsx:18-19 | the text filter, specified by `SearchFilterSpec` |
| RepositoryList.MatchesLanguage | project/src/components/RepositoryList.tsx:20 | the language filter, specified by `LanguageFilterSpec` |
| RepositoryList.ParseSortKey | project/src/components/RepositoryList.tsx:24-33 | the `switch (sortBy)`: `stars`, `forks` and `name` pick their cases and every other value takes the `updated`/`default` case; `ShownInSortOrder` states the resulting order |
| RepositoryList.Comparator | project/src/components/RepositoryList.tsx:23-35 | for each key, `a` may stay before `b` exactly when `a` has at least as many stars, at least as many forks, a last update no earlier, or `localeCompare(a.name, b.name) <= 0` |
| RepositoryList.FilteredAndSortedRepos | project/src/components/RepositoryList.tsx:16-35 | `filteredAndSortedRepos`, specified by `ShownAreThoseThatPass`, `ShownInSortOrder`, `ShownStable` and `InitialViewShowsAll` |
| RepositoryList.TotalStars | project/src/components/RepositoryList.tsx:37 | `totalStars` over the whole list, specified by `TotalsCoverShown` and `TotalsIgnoreOrder` |
| RepositoryList.TotalForks | project/src/components/RepositoryList.tsx:38 | `totalForks` over the whole list, specified by `TotalsCoverShown` and `TotalsIgnoreOrder` |
| RepositoryList.Passes | project/src/components/RepositoryList.tsx:17-22 | the filter callback: both `matchesSearch` and `matchesLanguage`; `ShownAreThoseThatPass`, `SearchFilterSpec` and `LanguageFilterSpec` state what each part admits |
| RepositoryList.ShownAreThoseThatPass | project/src/components/RepositoryList.tsx:16-35 | the shown list holds exactly the repositories that match both the text filter and the language filter, each as many times as in the input |
| RepositoryList.LanguageFilterSpec | project/src/components/RepositoryList.tsx:20 | `all` keeps every repository; any other selection keeps exactly the repositories with that language, so never one with a null language |
| RepositoryList.SearchFilterSpec | project/src/components/RepositoryList.tsx:18-19 | the empty term matches everything; the term's letter case does not matter; with a null description only the name is searched |
| RepositoryList.ComparatorConsistent | project/src/components/RepositoryList.tsx:23-35 | the star, fork and last-update comparators are consistent orders; the name comparator is one whenever `localeCompare` is |
| RepositoryList.ShownInSortOrder | project/src/components/RepositoryList.tsx:23-35 | the shown list is in non-increasing stars, non-increasing forks, non-increasing last update (also for any unrecognised sort value) or `localeCompare` name order, according to the selection |
| RepositoryList.ShownStable | project/src/components/RepositoryList.tsx:23-35 | repositories with equal sort keys appear in the order they had after filtering |
| RepositoryList.InitialViewShowsAll | project/src/components/RepositoryList.tsx:12-35 | the initial controls (empty text, `updated`, `all`) show every repository, most recently updated first |
| RepositoryList.TotalsCoverShown | project/src/components/RepositoryList.tsx:37-38 | the star and fork totals, taken over the whole list, are at least those of the shown repositories |
| RepositoryList.TotalsIgnoreOrder | project/src/components/RepositoryList.tsx:37-38 | reordering the list does not change either total |
| SearchInput.SearchForm.constructor | project/src/components/SearchInput.tsx:10 | the field starts empty |
| SearchInput.SearchForm.OnChange | project/src/components/SearchInput.tsx:28 | the field holds the new value as typed |
| SearchInput.SearchForm.HandleSubmit | project/src/components/SearchInput.tsx:12-17 | a search is issued exactly when the field has text other than whitespace; the name searched is the trimmed text, which is nonempty and has no whitespace at either end |
| SearchInput.SearchForm.InputDisabled | project/src/components/SearchInput.tsx:31 | the field's `disabled` flag, specified by `LoadingLocksForm` |
| SearchInput.SearchForm.SubmitDisabled | project/src/components/SearchInput.tsx:35 | the button is disabled exactly while loading or when the field is all whitespace, so when it is enabled a submit searches |
| SearchInput.LoadingLocksForm | project/src/components/SearchInput.tsx:31-35 | while loading, both the field and the button are disabled; otherwise the field is enabled |
| SearchInput.ResubmitSameName | project/src/components/SearchInput.tsx:14-15 | the trimmed name still passes the guard and trims to itself, so submitting it again searches the same name |
| UserProfile.Shown | project/src/components/UserProfile.tsx:31-52 | JavaScript truthiness of an optional text: present and non-empty; `Heading`, `ShownValues`, `OptionalLines` and `BlogLink` state what the card shows in each case |
| UserProfile.Heading | project/src/components/UserProfile.tsx:31 | the heading is the display name when it is present and non-empty, otherwise the login |
| UserProfile.HeadingNeverBlank | project/src/components/UserProfile.tsx:31 | for a nonempty login, the heading is nonempty and is either the login or the display name |
| UserProfile.Handle | project/src/components/UserProfile.tsx:33 | the handle is `@` followed by the login |
| UserProfile.HandleRecoversLogin | project/src/components/UserProfile.tsx:33 | the login can be read back from the handle, so distinct logins give distinct handles |
| UserProfile.BlogHref | project/src/components/UserProfile.tsx:56 | the link target always starts with `http`; a blog that already starts with `http` is used as is; any other blog gets `https://` in front |
| UserProfile.BlogHrefSpec | project/src/components/UserProfile.tsx:56 | the blog text is always the tail of the target, and computing the target again changes nothing |
| UserProfile.BlogHrefBareHttpHost | project/src/components/UserProfile.tsx:56 | the test looks only at the four letters `http`, so `httpbin.org` becomes the target unchanged, with no scheme |
| UserProfile.BlogLink | project/src/components/UserProfile.tsx:52-56 | there is a blog link exactly when the blog is present and non-empty, and it points at the link target of the blog |
| UserProfile.ShownValues | project/src/components/UserProfile.tsx:34-52 | each shown field's text is among the lines; every line is the non-empty text of one of the fields; all fields give a line exactly when all are shown |
| UserProfile.ShownValuesCounts | project/src/components/UserProfile.tsx:34-52 | each non-empty text is among the lines exactly as many times as the fields hold it, so there is one line per shown field: none is repeated and none merged |
| UserProfile.OptionalLines | project/src/components/UserProfile.tsx:34-52 | each of bio, company, location and blog that is present and non-empty has a line holding its text; every line is the non-empty text of one of those four fields; there are four lines exactly when all four are shown |
| UserProfile.OptionalLinesCounts | project/src/components/UserProfile.tsx:34-52 | one line per shown field: each non-empty text appears exactly as often as bio, company, location and blog hold it, so two fields with the same text give two lines |

## Left out

- Rendering: the JSX layout, icons and styling are not modelled.
- Presentation values outside the core are not modelled: the "Top Languages" panel keeps only the first five rows (`languages.slice(0, 5)` in `App.tsx`), `LanguageChart` formats percentages with `toFixed(1)`, and `RepositoryCard` formats dates with `toLocaleDateString`.
- Network and JSON: `fetch` and `response.json()` become a parameter that returns a decoded body. Malformed JSON and a body that does not match the declared types are out of scope.
- Timing: `Promise.all` is modelled only by which failure comes first (`profileSettlesFirst`). A later search's results overtaking an earlier one's is not modelled, because `HandleSearch` runs as one atomic step.
- Floating point: percentages are exact real numbers, not IEEE doubles, so rounding in `(count / total) * 100` and in the chart's display formatting is not modelled.
- `localeCompare`: it is a parameter. The name order is proved sorted only under the assumption that it is a consistent order.
- RepositoryList.SearchFilterSpec: `toLowerCase` is modelled for ASCII letters only, so Unicode case mapping is not captured.
- RepositoryList.ShownInSortOrder: `updated_at` is modelled as the integer that `new Date(...).getTime()` would return. Date parsing and an unparsable date (`NaN`, which makes the comparator inconsistent) are not modelled.
- Colors.GetLanguageColorSpec: the lookup is over the table's own keys. Keys inherited from `Object.prototype` (such as `constructor`) are not modelled.
- GitHubService.ProfileUrlRoundTrip: the username is inserted without URL encoding in the source too. The model does not say what the server makes of a name that contains `/` or `?`.
- The API's page size of 100 repositories is a query parameter of the URL. Paging beyond it is not done by the source and is not modelled.
- LanguageStats.TallyCorrect: the counting record keeps keys in insertion order. JavaScript lists integer-like keys (such as `"42"`) first, and treats the key `__proto__` specially. For a key inherited from `Object.prototype` (such as `constructor`), `acc[l] || 0` reads the inherited member, so the count becomes a string. None of these cases is modelled; no GitHub language name has these forms.
- UserProfile.OptionalLines: the contract and `OptionalLinesCounts` fix which lines appear and how many times each text appears, not their order on the card; the function builds them in the card's order (bio, company, location, blog).
- `formatDate` (locale date formatting) and the follower, following and repository counters on the profile card are displayed as given and not modelled.
- `name` and `blog` are declared `string` in the record types but can be null in API data. They are modelled as optional, which covers both cases of the `||` and `&&` tests.
