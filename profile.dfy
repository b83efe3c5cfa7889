/** The profile bundle that `analyze_github_profile` builds from a GitHub
    profile page.

    The page is given as the results of its three DOM queries (BeautifulSoup is
    outside the model): the text of the first `span.p-name`, the text of the
    first `div.p-note`, and every `a[data-hovercard-type=repository]` in
    document order, with its text and its `href` attribute if it has one. */
module Profile {
  import opened Outcomes
  import opened PyStr

  datatype Anchor = Anchor(text: string, href: Option<string>)

  datatype ProfilePage = ProfilePage(nameElement: Option<string>, bioElement: Option<string>,
                                     repositoryAnchors: seq<Anchor>)

  datatype Repository = Repository(name: string, url: string)

  datatype ProfileBundle = ProfileBundle(name: string, bio: string, repositories: seq<Repository>)

  /** Only the first five repository links are kept (`find_all(...)[:5]`). */
  const MaxRepositories: nat := 5
  const GithubOrigin: string := "https://github.com"
  /** `str(e)` of the `KeyError` raised by `repo['href']` on a link without one. */
  const MissingHrefMessage: string := "'href'"

  function Min(a: nat, b: nat): nat
  {
    if a <= b then a else b
  }

  /** `el.text.strip() if el else ""`. */
  function TextOrEmpty(element: Option<string>): string
  {
    match element
    case None => ""
    case Some(t) => Strip(t)
  }

  /** The number of repository links `analyze_github_profile` looks at. */
  function Considered(page: ProfilePage): nat
  {
    Min(MaxRepositories, |page.repositoryAnchors|)
  }

  /** One of the considered links has no `href`, so building its URL raises. */
  predicate HrefMissing(page: ProfilePage)
  {
    exists i :: 0 <= i < Considered(page) && page.repositoryAnchors[i].href.None?
  }

  /** `repos` lists the first five repository links of the page, in document
      order, each with its trimmed text and its absolute GitHub URL. */
  predicate ListsRepositories(page: ProfilePage, repos: seq<Repository>)
  {
    |repos| == Considered(page) &&
    forall i :: 0 <= i < |repos| ==>
      page.repositoryAnchors[i].href.Some? &&
      repos[i] == Repository(Strip(page.repositoryAnchors[i].text),
                             GithubOrigin + page.repositoryAnchors[i].href.value)
  }

  /** `bundle` is what `analyze_github_profile` returns for `page`. */
  predicate IsBundleOf(page: ProfilePage, bundle: ProfileBundle)
  {
    bundle.name == TextOrEmpty(page.nameElement) &&
    bundle.bio == TextOrEmpty(page.bioElement) &&
    ListsRepositories(page, bundle.repositories)
  }

  /** A page has at most one bundle. */
  lemma BundleUnique(page: ProfilePage, b1: ProfileBundle, b2: ProfileBundle)
    requires IsBundleOf(page, b1) && IsBundleOf(page, b2)
    ensures b1 == b2
  {
  }

  /** A page whose considered links all carry an `href` has a bundle. */
  lemma BundleExists(page: ProfilePage) returns (bundle: ProfileBundle)
    requires !HrefMissing(page)
    ensures IsBundleOf(page, bundle)
  {
    var anchors := page.repositoryAnchors;
    var repos := seq(Considered(page), i requires 0 <= i < Considered(page) =>
      Repository(Strip(anchors[i].text), GithubOrigin + anchors[i].href.value));
    bundle := ProfileBundle(TextOrEmpty(page.nameElement), TextOrEmpty(page.bioElement), repos);
  }

  /** Every text field of a bundle is already trimmed, and every repository URL
      lies on GitHub. */
  lemma BundleFieldsTrimmed(page: ProfilePage, bundle: ProfileBundle)
    requires IsBundleOf(page, bundle)
    ensures Strip(bundle.name) == bundle.name && Strip(bundle.bio) == bundle.bio
    ensures forall i :: 0 <= i < |bundle.repositories| ==>
      Strip(bundle.repositories[i].name) == bundle.repositories[i].name &&
      bundle.repositories[i].url[..|GithubOrigin|] == GithubOrigin
  {
  }

  /** With fewer than five repository links all of them are listed (no
      padding); with more, exactly the first five are. */
  lemma RepositoryCount(page: ProfilePage, bundle: ProfileBundle)
    requires IsBundleOf(page, bundle)
    ensures |page.repositoryAnchors| <= MaxRepositories ==> |bundle.repositories| == |page.repositoryAnchors|
    ensures |page.repositoryAnchors| > MaxRepositories ==> |bundle.repositories| == MaxRepositories
  {
  }
}
