/**
 * The records the GitHub REST API returns, as the application declares them.
 * Timestamps other than a repository's `updated_at` are kept as the API's
 * text; `updated_at` is the instant it denotes, in milliseconds, since the
 * repository list compares it numerically. Counters are non-negative.
 */
module GitHubTypes {
  import opened Wrappers

  /**
   * One account. `name` and `blog` are declared `string`, but the API sends
   * `null` for them when unset; both readings are covered by an Option whose
   * `Some("")` and `None` behave alike wherever the code tests them.
   */
  datatype GitHubUser = GitHubUser(
    login: string,
    id: nat,
    avatar_url: string,
    name: Option<string>,
    company: Option<string>,
    blog: Option<string>,
    location: Option<string>,
    email: Option<string>,
    bio: Option<string>,
    public_repos: nat,
    public_gists: nat,
    followers: nat,
    following: nat,
    created_at: string,
    updated_at: string)

  datatype GitHubRepo = GitHubRepo(
    id: nat,
    name: string,
    full_name: string,
    description: Option<string>,
    html_url: string,
    language: Option<string>,
    stargazers_count: nat,
    watchers_count: nat,
    forks_count: nat,
    open_issues_count: nat,
    created_at: string,
    updated_at: int,
    pushed_at: string,
    size: nat,
    topics: seq<string>)

  /** One row of the language summary: how many repositories use `name`, and their share. */
  datatype LanguageData = LanguageData(name: string, count: nat, percentage: real, color: string)
}
