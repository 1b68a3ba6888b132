/**
 * The GitHub API client: URL construction, the mapping of HTTP status codes
 * to error messages, and the removal of GitHub Pages repositories from the
 * repository list. The network itself is a parameter: `fetch` maps a URL to
 * the response it yields, with the JSON body already decoded.
 */
module GitHubService {
  import opened Wrappers
  import opened JsStrings
  import opened GitHubTypes
  import ArrayOps

  const GitHubApiBase: string := "https://api.github.com"

  /** What `fetch` settles to: a response with its status and decoded body, or a rejection with a message. */
  datatype FetchResult<T> = Response(status: nat, body: T) | NetworkFailure(message: string)

  /** `response.ok`. */
  predicate IsOk(status: nat) {
    200 <= status <= 299
  }

  const NotFoundMessage: string := "User not found"
  const RateLimitMessage: string := "API rate limit exceeded"
  const ApiErrorPrefix: string := "GitHub API error: "

  /** The message of the error thrown for a response that is not ok. */
  function HttpErrorMessage(status: nat): string {
    if status == 404 then NotFoundMessage
    else if status == 403 then RateLimitMessage
    else ApiErrorPrefix + NatToString(status)
  }

  /**
   * `fetchWithErrorHandling`: an ok response yields its body unchanged; any
   * other response throws an error whose message depends on the status; a
   * network failure propagates with its own message.
   */
  function FetchWithErrorHandling<T>(f: FetchResult<T>): (r: Result<T, string>)
    ensures r.Ok? <==> f.Response? && IsOk(f.status)
    ensures r.Ok? ==> r.value == f.body
    ensures f.Response? && f.status == 404 ==> r == Err("User not found")
    ensures f.Response? && f.status == 403 ==> r == Err("API rate limit exceeded")
    ensures f.Response? && !IsOk(f.status) && f.status != 404 && f.status != 403 ==>
              r == Err("GitHub API error: " + NatToString(f.status))
    ensures f.NetworkFailure? ==> r == Err(f.message)
  {
    match f
    case NetworkFailure(message) => Err(message)
    case Response(status, body) => if !IsOk(status) then Err(HttpErrorMessage(status)) else Ok(body)
  }

  /** Reads back the status an HTTP error message was made from. */
  function StatusOfMessage(message: string): Option<nat> {
    if message == NotFoundMessage then Some(404)
    else if message == RateLimitMessage then Some(403)
    else if StartsWith(message, ApiErrorPrefix) && AllDigits(message[|ApiErrorPrefix|..])
    then Some(ParseDigits(message[|ApiErrorPrefix|..]))
    else None
  }

  /** Every status's error message reads back as that status, so no two statuses share a message. */
  lemma ErrorMessageRoundTrip(status: nat)
    ensures StatusOfMessage(HttpErrorMessage(status)) == Some(status)
  {
    if status != 404 && status != 403 {
      var digits := NatToString(status);
      NatToStringRoundTrip(status);
      var m := ApiErrorPrefix + digits;
      assert m[|ApiErrorPrefix|..] == digits;
      assert m[..|ApiErrorPrefix|] == ApiErrorPrefix;
      assert m != NotFoundMessage by { assert m[0] != NotFoundMessage[0]; }
      assert m != RateLimitMessage by { assert m[0] != RateLimitMessage[0]; }
    }
  }

  /** Two failed responses that throw the same message had the same status. */
  lemma ErrorMessageDeterminesStatus(s1: nat, s2: nat)
    requires HttpErrorMessage(s1) == HttpErrorMessage(s2)
    ensures s1 == s2
  {
    ErrorMessageRoundTrip(s1);
    ErrorMessageRoundTrip(s2);
  }

  const UsersPath: string := "/users/"
  const ReposQuery: string := "/repos?sort=updated&per_page=100"

  /** The profile endpoint of `username`; the name is inserted as given, without escaping. */
  function UserProfileUrl(username: string): string {
    GitHubApiBase + UsersPath + username
  }

  /** The endpoint listing up to 100 repositories of `username`, most recently updated first. */
  function UserReposUrl(username: string): string {
    GitHubApiBase + UsersPath + username + ReposQuery
  }

  /** The languages endpoint of one repository. */
  function RepoLanguagesUrl(owner: string, repoName: string): string {
    GitHubApiBase + "/repos/" + owner + "/" + repoName + "/languages"
  }

  /** Recovers the user name from a profile URL. */
  function UsernameOfProfileUrl(url: string): Option<string> {
    var prefix := GitHubApiBase + UsersPath;
    if StartsWith(url, prefix) then Some(url[|prefix|..]) else None
  }

  /** Recovers the user name from a repository-list URL. */
  function UsernameOfReposUrl(url: string): Option<string> {
    var prefix := GitHubApiBase + UsersPath;
    if |prefix| + |ReposQuery| <= |url| && StartsWith(url, prefix) && url[|url| - |ReposQuery|..] == ReposQuery
    then Some(url[|prefix|..|url| - |ReposQuery|])
    else None
  }

  /** The profile URL starts with the API base and names exactly the given user. */
  lemma ProfileUrlRoundTrip(username: string)
    ensures StartsWith(UserProfileUrl(username), "https://api.github.com/users/")
    ensures UsernameOfProfileUrl(UserProfileUrl(username)) == Some(username)
  {
    var prefix := GitHubApiBase + UsersPath;
    assert UserProfileUrl(username) == prefix + username;
    assert (prefix + username)[..|prefix|] == prefix;
    assert (prefix + username)[|prefix|..] == username;
  }

  /**
   * The repository-list URL is the profile URL followed by the fixed query,
   * and names exactly the given user.
   */
  lemma ReposUrlRoundTrip(username: string)
    ensures UserReposUrl(username) == UserProfileUrl(username) + "/repos?sort=updated&per_page=100"
    ensures UsernameOfReposUrl(UserReposUrl(username)) == Some(username)
  {
    var prefix := GitHubApiBase + UsersPath;
    var url := UserReposUrl(username);
    assert url == prefix + username + ReposQuery;
    assert url[..|prefix|] == prefix;
    assert url[|url| - |ReposQuery|..] == ReposQuery;
    assert url[|prefix|..|url| - |ReposQuery|] == username;
  }

  /** Different users get different profile and repository-list URLs. */
  lemma UrlsInjective(a: string, b: string)
    requires UserProfileUrl(a) == UserProfileUrl(b) || UserReposUrl(a) == UserReposUrl(b)
    ensures a == b
  {
    ProfileUrlRoundTrip(a);
    ProfileUrlRoundTrip(b);
    ReposUrlRoundTrip(a);
    ReposUrlRoundTrip(b);
  }

  /** `getUserProfile`. */
  function GetUserProfile(username: string, fetch: string -> FetchResult<GitHubUser>): Result<GitHubUser, string> {
    FetchWithErrorHandling(fetch(UserProfileUrl(username)))
  }

  /** A GitHub Pages repository: its name contains `.github.io`. */
  predicate IsPagesRepo(repo: GitHubRepo)
    ensures IsPagesRepo(repo) <==> exists k :: 0 <= k <= |repo.name| - 10 && repo.name[k..][..10] == ".github.io"
  {
    IncludesAt(repo.name, ".github.io");
    Includes(repo.name, ".github.io")
  }

  function NotPagesRepo(repo: GitHubRepo): bool {
    !IsPagesRepo(repo)
  }

  /** `getUserRepositories`: the fetched list without GitHub Pages repositories. */
  function GetUserRepositories(username: string, fetch: string -> FetchResult<seq<GitHubRepo>>)
    : Result<seq<GitHubRepo>, string>
  {
    match FetchWithErrorHandling(fetch(UserReposUrl(username)))
    case Err(message) => Err(message)
    case Ok(repos) => Ok(ArrayOps.Filter(repos, NotPagesRepo))
  }

  /**
   * A successful repository fetch returns the fetched list in its original
   * order minus exactly the repositories whose name contains `.github.io`;
   * a failed one fails with the same message as the fetch.
   */
  lemma GetUserRepositoriesSpec(username: string, fetch: string -> FetchResult<seq<GitHubRepo>>)
    ensures var f := fetch(UserReposUrl(username));
            var r := GetUserRepositories(username, fetch);
            && (r.Ok? <==> f.Response? && IsOk(f.status))
            && (r.Err? ==> FetchWithErrorHandling(f) == Err(r.error))
            && (r.Ok? ==>
                  && ArrayOps.IsSubsequence(r.value, f.body)
                  && (forall i :: 0 <= i < |r.value| ==> !Includes(r.value[i].name, ".github.io"))
                  && (forall x :: multiset(r.value)[x] ==
                                  if Includes(x.name, ".github.io") then 0 else multiset(f.body)[x]))
  {
    var f := fetch(UserReposUrl(username));
    if f.Response? && IsOk(f.status) {
      ArrayOps.FilterIsSubsequence(f.body, NotPagesRepo);
      ArrayOps.FilterMultiset(f.body, NotPagesRepo);
    }
  }

  /** `getRepositoryLanguages` (not called by the application): bytes of code per language. */
  function GetRepositoryLanguages(owner: string, repoName: string, fetch: string -> FetchResult<map<string, nat>>)
    : Result<map<string, nat>, string>
  {
    FetchWithErrorHandling(fetch(RepoLanguagesUrl(owner, repoName)))
  }

  /**
   * The languages request goes to the repository's `/languages` endpoint
   * under the API base, and succeeds exactly when that response is ok.
   */
  lemma GetRepositoryLanguagesSpec(owner: string, repoName: string,
                                   fetch: string -> FetchResult<map<string, nat>>)
    ensures var url := RepoLanguagesUrl(owner, repoName);
            && StartsWith(url, "https://api.github.com/repos/")
            && |url| >= 10 && url[|url| - 10..] == "/languages"
            && (GetRepositoryLanguages(owner, repoName, fetch).Ok? <==>
                  fetch(url).Response? && IsOk(fetch(url).status))
  {
    var prefix := GitHubApiBase + "/repos/";
    var url := RepoLanguagesUrl(owner, repoName);
    assert url == prefix + (owner + "/" + repoName) + "/languages";
    assert url[..|prefix|] == prefix;
  }
}
