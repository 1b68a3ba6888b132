/**
 * The top-level controller (`App`): the state a search fills in, and
 * `handleSearch`, which clears it, fetches the profile and the repositories
 * together, and then shows either the results or an error.
 */
module App {
  import opened Wrappers
  import opened GitHubTypes
  import GitHubService
  import LanguageStats

  /** What a `catch` clause receives: an `Error` object with its message, or any other thrown value. */
  datatype Thrown = ErrorObject(message: string) | OtherValue

  /** How `await Promise.all([...])` settles: both values, or a rejection. */
  datatype SearchOutcome = Loaded(user: GitHubUser, repos: seq<GitHubRepo>) | Failed(reason: Thrown)

  /**
   * `Promise.all` over the two requests: both values when both succeed,
   * otherwise the first rejection to settle. The service rejects only with
   * `Error` objects.
   */
  function JoinFetches(profile: Result<GitHubUser, string>, repos: Result<seq<GitHubRepo>, string>,
                       profileSettlesFirst: bool): (r: SearchOutcome)
    ensures r.Loaded? <==> profile.Ok? && repos.Ok?
    ensures r.Loaded? ==> r.user == profile.value && r.repos == repos.value
    ensures profile.Err? && (repos.Ok? || profileSettlesFirst) ==> r == Failed(ErrorObject(profile.error))
    ensures repos.Err? && (profile.Ok? || !profileSettlesFirst) ==> r == Failed(ErrorObject(repos.error))
  {
    match (profile, repos)
    case (Ok(u), Ok(rs)) => Loaded(u, rs)
    case (Err(m), Ok(_)) => Failed(ErrorObject(m))
    case (Ok(_), Err(m)) => Failed(ErrorObject(m))
    case (Err(m1), Err(m2)) => Failed(ErrorObject(if profileSettlesFirst then m1 else m2))
  }

  /** The outcome of the two requests `handleSearch` issues for `username`. */
  function FetchUserAndRepos(username: string,
                             fetchUser: string -> GitHubService.FetchResult<GitHubUser>,
                             fetchRepos: string -> GitHubService.FetchResult<seq<GitHubRepo>>,
                             profileSettlesFirst: bool): SearchOutcome
  {
    JoinFetches(GitHubService.GetUserProfile(username, fetchUser),
                GitHubService.GetUserRepositories(username, fetchRepos),
                profileSettlesFirst)
  }

  /** `err instanceof Error ? err.message : 'An error occurred'`. */
  function ErrorText(reason: Thrown): string {
    match reason
    case ErrorObject(message) => message
    case OtherValue => "An error occurred"
  }

  /** The `useState` fields of `App`. */
  class AppState {
    var user: Option<GitHubUser>
    var repositories: seq<GitHubRepo>
    var languages: seq<LanguageData>
    var loading: bool
    var error: Option<string>

    /** Nothing searched yet: the default screen. */
    constructor ()
      ensures user == None && repositories == [] && languages == [] && !loading && error == None
    {
      user := None;
      repositories := [];
      languages := [];
      loading := false;
      error := None;
    }

    /**
     * The state once a search has finished: not loading, and either results
     * with their language summary and no error, or an error and no results.
     */
    predicate Settled()
      reads this
    {
      && !loading
      && (user.Some? <==> error.None?)
      && (user.Some? ==> languages == LanguageStats.ProcessLanguageData(repositories))
      && (error.Some? ==> repositories == [] && languages == [])
    }

    /** The synchronous start of `handleSearch`: loading, and every earlier result or error cleared. */
    method BeginSearch()
      modifies this
      ensures loading && error == None && user == None && repositories == [] && languages == []
    {
      loading := true;
      error := None;
      user := None;
      repositories := [];
      languages := [];
    }

    /** The part of `handleSearch` after the `await`: the `try`/`catch`/`finally`. */
    method Settle(outcome: SearchOutcome)
      requires error == None && user == None && repositories == [] && languages == []
      modifies this
      ensures Settled()
      ensures outcome.Loaded? ==>
                user == Some(outcome.user) && repositories == outcome.repos && error == None
      ensures outcome.Failed? ==> error == Some(ErrorText(outcome.reason)) && user == None
    {
      match outcome {
        case Loaded(u, repos) =>
          user := Some(u);
          repositories := repos;
          languages := LanguageStats.ProcessLanguageData(repos);
        case Failed(reason) =>
          error := Some(ErrorText(reason));
      }
      loading := false;
    }

    /**
     * `handleSearch(username)`: the earlier results are discarded, and the
     * search ends not loading, with the profile, the repository list and its
     * language summary on success, or only the error message on failure.
     */
    method HandleSearch(username: string,
                        fetchUser: string -> GitHubService.FetchResult<GitHubUser>,
                        fetchRepos: string -> GitHubService.FetchResult<seq<GitHubRepo>>,
                        profileSettlesFirst: bool)
      modifies this
      ensures Settled()
      ensures var outcome := FetchUserAndRepos(username, fetchUser, fetchRepos, profileSettlesFirst);
              && (outcome.Loaded? ==>
                    user == Some(outcome.user) && repositories == outcome.repos && error == None)
              && (outcome.Failed? ==> error == Some(ErrorText(outcome.reason)) && user == None)
    {
      BeginSearch();
      var outcome := FetchUserAndRepos(username, fetchUser, fetchRepos, profileSettlesFirst);
      Settle(outcome);
    }
  }

  /**
   * A search for a user the API does not know (profile status 404) fails with
   * "User not found", unless the repository request fails first.
   */
  lemma UnknownUserFails(username: string,
                         fetchUser: string -> GitHubService.FetchResult<GitHubUser>,
                         fetchRepos: string -> GitHubService.FetchResult<seq<GitHubRepo>>,
                         profileSettlesFirst: bool)
    requires fetchUser(GitHubService.UserProfileUrl(username)).Response?
    requires fetchUser(GitHubService.UserProfileUrl(username)).status == 404
    requires profileSettlesFirst || GitHubService.GetUserRepositories(username, fetchRepos).Ok?
    ensures FetchUserAndRepos(username, fetchUser, fetchRepos, profileSettlesFirst)
            == Failed(ErrorObject("User not found"))
  {
  }

  /** A search succeeds exactly when both responses are ok; its repositories exclude Pages repositories. */
  lemma SearchSucceedsIffBothOk(username: string,
                                fetchUser: string -> GitHubService.FetchResult<GitHubUser>,
                                fetchRepos: string -> GitHubService.FetchResult<seq<GitHubRepo>>,
                                profileSettlesFirst: bool)
    ensures var outcome := FetchUserAndRepos(username, fetchUser, fetchRepos, profileSettlesFirst);
            var p := fetchUser(GitHubService.UserProfileUrl(username));
            var r := fetchRepos(GitHubService.UserReposUrl(username));
            && (outcome.Loaded? <==>
                  p.Response? && GitHubService.IsOk(p.status) && r.Response? && GitHubService.IsOk(r.status))
            && (outcome.Loaded? ==>
                  && outcome.user == p.body
                  && forall i :: 0 <= i < |outcome.repos| ==> !GitHubService.IsPagesRepo(outcome.repos[i]))
  {
    GitHubService.GetUserRepositoriesSpec(username, fetchRepos);
  }
}
