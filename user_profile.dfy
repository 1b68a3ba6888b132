/**
 * The values the profile card (`UserProfile`) derives from an account: the
 * heading, the handle line, which optional fields are shown, and the blog
 * link's target. Layout, icons and date formatting are not modelled.
 */
module UserProfile {
  import opened Wrappers
  import opened JsStrings
  import opened GitHubTypes

  /** JavaScript truthiness of an optional string: present and non-empty. */
  predicate Shown(field: Option<string>) {
    field.Some? && field.value != ""
  }

  /** `user.name || user.login`. */
  function Heading(user: GitHubUser): (r: string)
    ensures Shown(user.name) ==> r == user.name.value
    ensures !Shown(user.name) ==> r == user.login
  {
    if Shown(user.name) then user.name.value else user.login
  }

  /** The heading is never empty for a nonempty login, and is the login or a non-empty display name. */
  lemma HeadingNeverBlank(user: GitHubUser)
    requires user.login != ""
    ensures Heading(user) != ""
    ensures Heading(user) == user.login || user.name == Some(Heading(user))
  {
  }

  /** `@{user.login}`. */
  function Handle(user: GitHubUser): (r: string)
    ensures |r| == |user.login| + 1 && r[0] == '@'
    ensures r[1..] == user.login
  {
    "@" + user.login
  }

  /** The handle line gives back the login, so distinct accounts show distinct handles. */
  lemma HandleRecoversLogin(u: GitHubUser, v: GitHubUser)
    ensures Handle(u)[1..] == u.login
    ensures Handle(u) == Handle(v) ==> u.login == v.login
  {
    assert Handle(u)[1..] == u.login;
    assert Handle(v)[1..] == v.login;
  }

  /** The link target: a blog that starts with `http` is used as it is, any other gets `https://` in front. */
  function BlogHref(blog: string): (r: string)
    ensures StartsWith(r, "http")
    ensures StartsWith(blog, "http") ==> r == blog
    ensures !StartsWith(blog, "http") ==> r == "https://" + blog
  {
    if StartsWith(blog, "http") then blog else "https://" + blog
  }

  /**
   * The blog text always survives as the end of the link target, and a
   * target is left alone when computed again.
   */
  lemma BlogHrefSpec(blog: string)
    ensures BlogHref(BlogHref(blog)) == BlogHref(blog)
    ensures |BlogHref(blog)| >= |blog|
    ensures BlogHref(blog)[|BlogHref(blog)| - |blog|..] == blog
  {
    if !StartsWith(blog, "http") {
      assert ("https://" + blog)[8..] == blog;
    }
  }

  /**
   * The prefix test is on the four letters `http` only, so a bare host name
   * such as `httpbin.org` is used as the target without a scheme.
   */
  lemma BlogHrefBareHttpHost()
    ensures BlogHref("httpbin.org") == "httpbin.org"
    ensures !StartsWith(BlogHref("httpbin.org"), "http://")
    ensures !StartsWith(BlogHref("httpbin.org"), "https://")
  {
    assert StartsWith("httpbin.org", "http");
    assert "httpbin.org"[4] == 'b' && "http://"[4] == ':' && "https://"[4] == 's';
  }

  /** The blog link of the card: there is one exactly when the blog is shown, and it points at `BlogHref` of it. */
  function BlogLink(user: GitHubUser): (r: Option<string>)
    ensures r.Some? <==> Shown(user.blog)
    ensures r.Some? ==> r.value == BlogHref(user.blog.value) && StartsWith(r.value, "http")
  {
    if Shown(user.blog) then Some(BlogHref(user.blog.value)) else None
  }

  /** The optional fields of the card, in the order it shows them: bio, company, location, blog. */
  function OptionalFields(user: GitHubUser): seq<Option<string>> {
    [user.bio, user.company, user.location, user.blog]
  }

  /** The values of the shown fields among `fields`, in order. */
  function ShownValues(fields: seq<Option<string>>): (r: seq<string>)
    ensures |r| <= |fields|
    ensures forall v :: v in r ==> v != "" && Some(v) in fields
    ensures forall k :: 0 <= k < |fields| && Shown(fields[k]) ==> fields[k].value in r
    ensures |r| == |fields| <==> forall k :: 0 <= k < |fields| ==> Shown(fields[k])
  {
    if fields == [] then []
    else
      var rest := ShownValues(fields[1..]);
      assert forall k :: 1 <= k < |fields| ==> fields[k] == fields[1..][k - 1];
      assert forall f :: f in fields[1..] ==> f in fields;
      if Shown(fields[0]) then [fields[0].value] + rest else rest
  }

  /** Each non-empty text is shown exactly as many times as the fields hold it: no line is repeated or merged. */
  lemma {:induction false} ShownValuesCounts(fields: seq<Option<string>>)
    ensures forall v :: v != "" ==> multiset(ShownValues(fields))[v] == multiset(fields)[Some(v)]
  {
    if fields != [] {
      ShownValuesCounts(fields[1..]);
      assert fields == [fields[0]] + fields[1..];
    }
  }

  /**
   * The optional lines of the card: one for each of bio, company, location
   * and blog that is present and non-empty, holding that field's text, and
   * nothing else.
   */
  function OptionalLines(user: GitHubUser): (r: seq<string>)
    ensures |r| <= 4
    ensures Shown(user.bio) ==> user.bio.value in r
    ensures Shown(user.company) ==> user.company.value in r
    ensures Shown(user.location) ==> user.location.value in r
    ensures Shown(user.blog) ==> user.blog.value in r
    ensures forall v :: v in r ==>
              && v != ""
              && (Some(v) == user.bio || Some(v) == user.company || Some(v) == user.location || Some(v) == user.blog)
    ensures |r| == 4 <==> Shown(user.bio) && Shown(user.company) && Shown(user.location) && Shown(user.blog)
  {
    var fields := OptionalFields(user);
    assert fields[0] == user.bio && fields[1] == user.company;
    assert fields[2] == user.location && fields[3] == user.blog;
    ShownValues(fields)
  }

  /**
   * The card shows one line per shown optional field: each non-empty text
   * appears exactly as often as bio, company, location and blog hold it.
   */
  lemma OptionalLinesCounts(user: GitHubUser)
    ensures forall v :: v != "" ==> multiset(OptionalLines(user))[v] == multiset(OptionalFields(user))[Some(v)]
  {
    ShownValuesCounts(OptionalFields(user));
  }
}
