/** The post lists the routes and pages compute:
    - src/routes/blog.index.tsx `loader`: every post but the drafts, newest
      first;
    - src/routes/index.tsx `Home`: the five newest posts not flagged `test`;
    - src/pages/BlogPost.tsx: the post itself, or the not-found view, and
      the post listed just before it in `getAllPosts()`. That function is
      not part of this model, so its result is a parameter;
    - src/routes/blog.$slug.tsx `loader`: the routed post page, whose
      neighbour comes from the non-test posts sorted newest first. */
module Views {
  import opened Base
  import opened Text
  import opened Dates
  import opened Sorting
  import opened Collection
  import opened Listing
  import opened Posts

  // ---------------------------------------------------------------------
  // Blog index
  // ---------------------------------------------------------------------

  /** `!post.wip`: a draft has `wip: true`; `false` or absent is listed. */
  predicate Listed(p: CollectionPost) {
    p.wip != Some(true)
  }

  /** The blog index loader's `sortedPosts`. */
  function BlogIndex(posts: seq<CollectionPost>): (r: seq<CollectionPost>)
    requires KeptDated(posts, Listed)
    ensures forall p :: p in r <==> p in posts && p.wip != Some(true)
    ensures multiset(r) == multiset(Filter(posts, Listed))
    ensures AllDated(r) && SortedDesc(r, DateKey)
  {
    NewestFirstDated(posts, Listed);
    NewestFirst(posts, Listed)
  }

  /** Posts without `wip`, or with `wip: false`, are all listed. */
  lemma BlogIndexKeepsPublished(posts: seq<CollectionPost>)
    requires KeptDated(posts, Listed)
    requires forall i :: 0 <= i < |posts| ==> posts[i].wip != Some(true)
    ensures multiset(BlogIndex(posts)) == multiset(posts)
  {
    FilterKeepsAll(posts, Listed);
  }

  /** A draft is dropped before sorting, so its date is never read: a
      draft with a malformed date next to a listed post leaves just that
      post. */
  lemma DraftDateNeverRead(draft: CollectionPost, p: CollectionPost)
    requires draft.wip == Some(true) && p.wip != Some(true)
    requires WellFormedDate(p.date)
    ensures BlogIndex([draft, p]) == [p]
  {
    DraftFiltered(draft, p);
    OnlyPermutationOfOne(BlogIndex([draft, p]), p);
  }

  lemma DraftFiltered(draft: CollectionPost, p: CollectionPost)
    requires draft.wip == Some(true) && p.wip != Some(true)
    ensures Filter([draft, p], Listed) == [p]
  {
    assert [draft, p] == [draft] + [p];
    FilterConcat([draft], [p], Listed);
  }

  /** The only permutation of a single post is that post alone. */
  lemma OnlyPermutationOfOne(r: seq<CollectionPost>, p: CollectionPost)
    requires multiset(r) == multiset([p])
    ensures r == [p]
  {
    assert |r| == |multiset(r)| == 1;
    assert r[0] in multiset(r);
  }

  // ---------------------------------------------------------------------
  // Home
  // ---------------------------------------------------------------------

  const RecentCount: nat := 5

  /** `!post.test`. */
  predicate NotTest(p: CollectionPost) {
    p.test != Some(true)
  }

  /** `Home`'s `recentPosts`. The route builds dates with `new Date(date)`,
      which reads a date-only string as UTC midnight just as `parseDate`
      does. */
  function RecentPosts(posts: seq<CollectionPost>): (r: seq<CollectionPost>)
    requires KeptDated(posts, NotTest)
    ensures |r| == Min(RecentCount, |Filter(posts, NotTest)|)
    ensures forall p :: p in r ==> p in posts && p.test != Some(true)
    ensures AllDated(r) && SortedDesc(r, DateKey)
  {
    var sorted := NewestFirst(posts, NotTest);
    NewestFirstDated(posts, NotTest);
    var n := Min(RecentCount, |sorted|);
    TakeNewest(sorted, n);
    sorted[..n]
  }

  /** The shown posts are the newest ones: together with the posts left out
      they make up the kept posts, and no post left out is newer than any
      post shown. */
  lemma RecentPostsAreNewest(posts: seq<CollectionPost>)
    requires KeptDated(posts, NotTest)
    ensures multiset(RecentPosts(posts)) <= multiset(Filter(posts, NotTest))
    ensures forall x, y ::
      (x in multiset(RecentPosts(posts)) && y in multiset(Filter(posts, NotTest)) - multiset(RecentPosts(posts))) ==>
      DateKey(x) >= DateKey(y)
  {
    var sorted := NewestFirst(posts, NotTest);
    var k := |RecentPosts(posts)|;
    assert RecentPosts(posts) == sorted[..k];
    MultisetSplit(sorted, k);
    SortedPrefixDominates(sorted, k, DateKey);
  }

  /** The collection never sets `test`, so on its posts the filter keeps
      everything and the home page shows the five newest of all of them,
      drafts included. */
  lemma RecentPostsOfCollection(posts: seq<CollectionPost>)
    requires KeptDated(posts, NotTest)
    requires forall i :: 0 <= i < |posts| ==> posts[i].test == None
    ensures |RecentPosts(posts)| == Min(RecentCount, |posts|)
  {
    FilterKeepsAll(posts, NotTest);
  }

  // ---------------------------------------------------------------------
  // Blog post page
  // ---------------------------------------------------------------------

  /** `i` is the first index of a post with the slug. */
  predicate FirstWithSlug<T>(all: seq<T>, slugOf: T -> String, slug: String, i: nat) {
    i < |all| && slugOf(all[i]) == slug && forall k :: 0 <= k < i ==> slugOf(all[k]) != slug
  }

  /** `currentPostIndex > 0 ? allPosts[currentPostIndex - 1] : null`. */
  function NextPost<T>(all: seq<T>, slugOf: T -> String, slug: String): (next: Option<T>)
    ensures next.Some? <==> (exists i :: 0 < i < |all| && slugOf(all[i]) == slug) && slugOf(all[0]) != slug
    ensures next.Some? ==> exists i :: 0 < i < |all| && FirstWithSlug(all, slugOf, slug, i) && next.value == all[i - 1]
  {
    var i := FindIndex(all, slugOf, slug);
    if i > 0 then
      assert FirstWithSlug(all, slugOf, slug, i);
      Some(all[i - 1])
    else None
  }

  /** Duplicate slugs resolve to the first: the neighbour is that of the
      first post with the slug, and a slug at the front has none. */
  lemma NextPostOfFirstMatch<T>(all: seq<T>, slugOf: T -> String, slug: String, i: nat)
    requires FirstWithSlug(all, slugOf, slug, i)
    ensures NextPost(all, slugOf, slug) == if i > 0 then Some(all[i - 1]) else None
  {
    var j := FindIndex(all, slugOf, slug);
    assert j == i;
  }

  /** On a list sorted newest first the next post is never older than the
      current one. */
  lemma NextPostIsNotOlder<T>(all: seq<T>, slugOf: T -> String, key: T -> int, slug: String, i: nat)
    requires SortedDesc(all, key)
    requires FirstWithSlug(all, slugOf, slug, i)
    requires NextPost(all, slugOf, slug).Some?
    ensures key(NextPost(all, slugOf, slug).value) >= key(all[i])
  {
    NextPostOfFirstMatch(all, slugOf, slug, i);
  }

  /** What `BlogPost` renders. A load error escapes the component. */
  datatype Page<T> = NotFoundPage | PostPage(post: Post, next: Option<T>) | PageError(err: Error)

  function BlogPostPage<T>(io: Io, all: seq<T>, slugOf: T -> String, slug: String): (page: Page<T>)
    ensures page.NotFoundPage? <==> GetPostBySlug(io, slug).Null?
    ensures page.PageError? <==> GetPostBySlug(io, slug).Thrown?
    ensures page.PostPage? ==> page.post.slug == slug && page.next == NextPost(all, slugOf, slug)
    ensures page.PostPage? ==> GetPostBySlug(io, slug) == Found(page.post)
    ensures page.PageError? ==> GetPostBySlug(io, slug) == Thrown(page.err)
  {
    var next := NextPost(all, slugOf, slug);
    match GetPostBySlug(io, slug)
    case Thrown(e) => PageError(e)
    case Null => NotFoundPage
    case Found(p) => PostPage(p, next)
  }

  /** The not-found view does not depend on the list of posts. */
  lemma NotFoundIgnoresNeighbours<T>(io: Io, all1: seq<T>, all2: seq<T>, slugOf: T -> String, slug: String)
    requires GetPostBySlug(io, slug).Null?
    ensures BlogPostPage(io, all1, slugOf, slug) == BlogPostPage(io, all2, slugOf, slug) == NotFoundPage
  {
  }

  // ---------------------------------------------------------------------
  // Routed post page
  // ---------------------------------------------------------------------

  function SlugOf(p: CollectionPost): String {
    p.slug
  }

  /** What the `/blog/$slug` loader returns, or the not-found it throws. */
  datatype SlugPage = SlugNotFound | SlugPost(post: CollectionPost, next: Option<CollectionPost>)

  /** The loader gets past both `notFound()` checks: some post has the
      slug, and in production the first one is not a `test` post. Only
      then does it sort, and so read any date. */
  predicate Shown(posts: seq<CollectionPost>, slug: String, isDevelopment: bool) {
    var i := FindIndex(posts, SlugOf, slug);
    i >= 0 && (isDevelopment || posts[i].test != Some(true))
  }

  /** src/routes/blog.$slug.tsx `loader`: the first post with the slug, or
      not found; outside development a `test` post is not found either.
      The neighbour is taken from the non-test posts sorted newest first,
      not from the collection's own order. `isDevelopment` stands for
      `import.meta.env.DEV`. */
  function SlugLoader(posts: seq<CollectionPost>, slug: String, isDevelopment: bool): (page: SlugPage)
    requires Shown(posts, slug, isDevelopment) ==> KeptDated(posts, NotTest)
    ensures page.SlugNotFound? <==>
      (forall i :: 0 <= i < |posts| ==> posts[i].slug != slug) ||
      (!isDevelopment && exists i: nat :: FirstWithSlug(posts, SlugOf, slug, i) && posts[i].test == Some(true))
    ensures page.SlugPost? ==>
      (exists i: nat :: FirstWithSlug(posts, SlugOf, slug, i) && page.post == posts[i]) &&
      page.next == NextPost(NewestFirst(posts, NotTest), SlugOf, slug)
  {
    var i := FindIndex(posts, SlugOf, slug);
    if i < 0 then SlugNotFound
    else
      assert FirstWithSlug(posts, SlugOf, slug, i);
      assert forall j: nat :: FirstWithSlug(posts, SlugOf, slug, j) ==> j == i;
      if !isDevelopment && posts[i].test == Some(true) then SlugNotFound
      else SlugPost(posts[i], NextPost(NewestFirst(posts, NotTest), SlugOf, slug))
  }

  /** `n` is dated no earlier than the first post with the slug in `sorted`. */
  predicate NotOlderThanSlug(sorted: seq<CollectionPost>, slug: String, n: CollectionPost) {
    exists j: nat :: j < |sorted| && FirstWithSlug(sorted, SlugOf, slug, j) && DateKey(n) >= DateKey(sorted[j])
  }

  /** The routed page's neighbour is a non-test post from the input, never
      older than the first non-test post with the same slug. */
  lemma SlugNextIsNewerNonTest(posts: seq<CollectionPost>, slug: String, isDevelopment: bool)
    requires Shown(posts, slug, isDevelopment) ==> KeptDated(posts, NotTest)
    ensures var page := SlugLoader(posts, slug, isDevelopment);
      page.SlugPost? && page.next.Some? ==>
        page.next.value in posts && page.next.value.test != Some(true) &&
        NotOlderThanSlug(NewestFirst(posts, NotTest), slug, page.next.value)
  {
    var page := SlugLoader(posts, slug, isDevelopment);
    if page.SlugPost? && page.next.Some? {
      var n := page.next.value;
      var sorted := NewestFirst(posts, NotTest);
      assert NextPost(sorted, SlugOf, slug) == Some(n);
      var j := FindIndex(sorted, SlugOf, slug);
      assert FirstWithSlug(sorted, SlugOf, slug, j);
      assert n == sorted[j - 1];
      assert n in sorted;
      NextPostIsNotOlder(sorted, SlugOf, DateKey, slug, j);
    }
  }

  /** In development a test post is shown, but it is absent from the sorted
      list, so unless a non-test post shares its slug it has no neighbour. */
  lemma TestPostHasNoNext(posts: seq<CollectionPost>, slug: String)
    requires Shown(posts, slug, true) ==> KeptDated(posts, NotTest)
    requires exists i :: 0 <= i < |posts| && posts[i].slug == slug
    requires forall i :: 0 <= i < |posts| && posts[i].slug == slug ==> posts[i].test == Some(true)
    ensures SlugLoader(posts, slug, true).SlugPost?
    ensures SlugLoader(posts, slug, true).next == None
  {
    var sorted := NewestFirst(posts, NotTest);
    forall k | 0 <= k < |sorted|
      ensures sorted[k].slug != slug
    {
      assert sorted[k] in sorted;
    }
  }

  /** Not found is decided before anything is sorted, so dates never
      matter to it: no post with the slug means not found, whatever the
      posts' dates. */
  lemma MissingSlugIgnoresDates(posts: seq<CollectionPost>, slug: String, isDevelopment: bool)
    requires forall i :: 0 <= i < |posts| ==> posts[i].slug != slug
    ensures SlugLoader(posts, slug, isDevelopment) == SlugNotFound
  {
    var i := FindIndex(posts, SlugOf, slug);
    assert i < 0;
  }
}
