/** src/App.tsx: `App` dispatches on the path name. `"/"` is the home page;
    a path matching `/^\/blog\/([^/]+)\/?$/` is the post whose slug is the
    captured group; anything else is the not-found view. */
module Router {
  import opened Base
  import opened Text

  datatype View = HomeRoute | BlogPostRoute(slug: String) | NotFoundRoute

  const BlogPrefix: String := "/blog/"

  predicate NoSlash(s: String) {
    forall i :: 0 <= i < |s| ==> s[i] != '/'
  }

  /** What `[^/]+` matches. */
  predicate ValidSlug(s: String) {
    |s| > 0 && NoSlash(s)
  }

  /** The capture of `^\/blog\/([^/]+)\/?$`, if the path matches. The group
      cannot contain `/`, so it stops before the optional trailing slash. */
  function MatchBlogPath(path: String): (slug: Option<String>)
    ensures slug.Some? ==> ValidSlug(slug.value)
    ensures slug.Some? ==> path == BlogPrefix + slug.value || path == BlogPrefix + slug.value + "/"
  {
    if |path| >= |BlogPrefix| && path[..|BlogPrefix|] == BlogPrefix then
      var rest := path[|BlogPrefix|..];
      assert path == BlogPrefix + rest;
      if ValidSlug(rest) then Some(rest)
      else if |rest| >= 2 && rest[|rest| - 1] == '/' && ValidSlug(rest[..|rest| - 1]) then
        assert rest == rest[..|rest| - 1] + "/";
        Some(rest[..|rest| - 1])
      else None
    else None
  }

  /** `App()` for a given `window.location.pathname`. */
  function Route(path: String): (r: View)
    ensures r.HomeRoute? <==> path == "/"
    ensures r.BlogPostRoute? ==> ValidSlug(r.slug)
    ensures r.BlogPostRoute? ==> path == BlogPrefix + r.slug || path == BlogPrefix + r.slug + "/"
  {
    if path == "/" then HomeRoute
    else match MatchBlogPath(path)
      case Some(slug) => BlogPostRoute(slug)
      case None => NotFoundRoute
  }

  /** Both spellings of a post path route to the post exactly when the slug
      is non-empty and free of `/`. */
  lemma RouteOfBlogPaths(s: String)
    ensures Route(BlogPrefix + s) == BlogPostRoute(s) <==> ValidSlug(s)
    ensures Route(BlogPrefix + s + "/") == BlogPostRoute(s) <==> ValidSlug(s)
  {
    var p1 := BlogPrefix + s;
    var p2 := BlogPrefix + s + "/";
    assert p1[..|BlogPrefix|] == BlogPrefix && p1[|BlogPrefix|..] == s;
    assert p2[..|BlogPrefix|] == BlogPrefix && p2[|BlogPrefix|..] == s + "/";
    assert (s + "/")[..|s|] == s;
    if ValidSlug(s) {
      assert !NoSlash(s + "/") by {
        assert (s + "/")[|s|] == '/';
      }
    }
  }

  /** The link the post list and the next-post link build. */
  function PostHref(slug: String): (href: String)
    ensures |href| == |slug| + 7 && href[..|BlogPrefix|] == BlogPrefix && href[|href| - 1] == '/'
  {
    BlogPrefix + slug + "/"
  }

  /** Following a post link lands on that post. */
  lemma PostHrefRoundTrip(slug: String)
    requires ValidSlug(slug)
    ensures Route(PostHref(slug)) == BlogPostRoute(slug)
  {
    RouteOfBlogPaths(slug);
  }

  /** Paths that are not pages. */
  lemma NotFoundPaths()
    ensures Route("/blog") == NotFoundRoute
    ensures Route("/blog/") == NotFoundRoute
    ensures Route("/blog//") == NotFoundRoute
    ensures Route("/blog/a/b") == NotFoundRoute
    ensures Route("") == NotFoundRoute
  {
    assert "/blog/a/b"[..6] == BlogPrefix && "/blog/a/b"[6..] == "a/b";
    assert "/blog//"[..6] == BlogPrefix && "/blog//"[6..] == "/";
    assert "/blog/"[6..] == "";
    assert !NoSlash("/") by { assert "/"[0] == '/'; }
    assert !NoSlash("a/b") by { assert "a/b"[1] == '/'; }
    assert "a/b"[..2] == "a/" && !NoSlash("a/") by { assert "a/"[1] == '/'; }
  }
}
