/** src/utils/feed.ts: `generateFeed`. The feed object is modelled by the
    values handed to the `feed` library (its XML serialisation is not part
    of this model); the clock is a parameter: `nowMs` for `new Date()` and
    `year` for its `getFullYear()`. */
module Feed {
  import opened Base
  import opened Text
  import opened Dates
  import opened Sorting
  import opened Collection
  import opened Listing

  const FeedTitle: String := "Colby Leiske"
  const FeedDescription: String := "Thoughts on software development, programming, and technology"
  const FeedId: String := "https://leiske.dev/"
  const FeedLink: String := "https://leiske.dev"
  const FeedLanguage: String := "en"
  const AtomLink: String := "https://leiske.dev/atom.xml"
  const PostUrlBase: String := "https://leiske.dev/blog/"

  datatype Author = Author(name: String, email: String)

  const SiteAuthor: Author := Author("Colby Leiske", "colby.leiske@gmail.com")

  datatype Item = Item(title: String, description: String, link: String, date: int, author: seq<Author>)

  datatype Feed = Feed(
    title: String,
    description: String,
    id: String,
    link: String,
    language: String,
    copyright: String,
    atomLink: String,
    updated: int,
    items: seq<Item>)

  /** `post.test !== true`. */
  predicate Published(p: CollectionPost) {
    p.test != Some(true)
  }

  /** The argument of `feed.addItem` for one post. */
  function ItemOf(p: CollectionPost): Item {
    Item(p.title, p.description, PostUrlBase + p.slug, DateKey(p), [SiteAuthor])
  }

  /** The items `generateFeed` adds, in order: one per post not flagged
      `test`, newest first. */
  function FeedItems(posts: seq<CollectionPost>): (items: seq<Item>)
    requires KeptDated(posts, Published)
    ensures |items| == |Filter(posts, Published)|
    ensures multiset(items) == multiset(Map(Filter(posts, Published), ItemOf))
    ensures forall i, j :: 0 <= i < j < |items| ==> items[i].date >= items[j].date
    ensures forall i :: 0 <= i < |items| ==> items[i].date <= items[0].date
    ensures forall i :: 0 <= i < |items| ==>
      |items[i].link| >= |PostUrlBase| && items[i].link[..|PostUrlBase|] == PostUrlBase &&
      items[i].author == [SiteAuthor]
  {
    var kept := NewestFirst(posts, Published);
    KeptItemsPermute(posts);
    ItemsOfSorted(kept);
    Map(kept, ItemOf)
  }

  /** Sorting the kept posts before mapping them to items only reorders
      the items. */
  lemma KeptItemsPermute(posts: seq<CollectionPost>)
    ensures |Map(NewestFirst(posts, Published), ItemOf)| == |Filter(posts, Published)|
    ensures multiset(Map(NewestFirst(posts, Published), ItemOf)) == multiset(Map(Filter(posts, Published), ItemOf))
  {
    MapPermutation(NewestFirst(posts, Published), Filter(posts, Published), ItemOf);
  }

  /** `generateFeed()`. */
  function GenerateFeed(posts: seq<CollectionPost>, nowMs: int, year: nat): (f: Feed)
    requires KeptDated(posts, Published)
    ensures |f.items| == |Filter(posts, Published)|
    ensures multiset(f.items) == multiset(Map(Filter(posts, Published), ItemOf))
    ensures forall i, j :: 0 <= i < j < |f.items| ==> f.items[i].date >= f.items[j].date
    ensures forall i :: 0 <= i < |f.items| ==>
      |f.items[i].link| >= |PostUrlBase| && f.items[i].link[..|PostUrlBase|] == PostUrlBase &&
      f.items[i].author == [SiteAuthor]
    ensures |f.items| > 0 ==> f.updated == f.items[0].date
    ensures |f.items| == 0 ==> f.updated == nowMs
    ensures forall i :: 0 <= i < |f.items| ==> f.items[i].date <= f.updated
    ensures f.copyright == NatToString(year) + " Colby Leiske"
  {
    var items := FeedItems(posts);
    var updated := if |items| > 0 then items[0].date else nowMs;
    assert forall i :: 0 <= i < |items| ==> items[i].date <= updated;
    Feed(FeedTitle, FeedDescription, FeedId, FeedLink, FeedLanguage,
      NatToString(year) + " Colby Leiske", AtomLink, updated, items)
  }

  /** The items of a newest-first list are newest first, each linked under
      the blog's base URL and credited to the site author. */
  lemma ItemsOfSorted(kept: seq<CollectionPost>)
    requires SortedDesc(kept, DateKey)
    ensures forall i, j :: 0 <= i < j < |kept| ==> Map(kept, ItemOf)[i].date >= Map(kept, ItemOf)[j].date
    ensures forall i :: 0 <= i < |kept| ==> Map(kept, ItemOf)[i].date <= Map(kept, ItemOf)[0].date
    ensures forall i :: 0 <= i < |kept| ==>
      |Map(kept, ItemOf)[i].link| >= |PostUrlBase| && Map(kept, ItemOf)[i].link[..|PostUrlBase|] == PostUrlBase &&
      Map(kept, ItemOf)[i].author == [SiteAuthor]
  {
    var items := Map(kept, ItemOf);
    forall i | 0 <= i < |kept|
      ensures |items[i].link| >= |PostUrlBase| && items[i].link[..|PostUrlBase|] == PostUrlBase
    {
      assert items[i].link == PostUrlBase + kept[i].slug;
    }
    forall i | 0 < i < |kept|
      ensures items[i].date <= items[0].date
    {
      assert DateKey(kept[0]) >= DateKey(kept[i]);
    }
  }

  /** Every item is the item of a published input post, its date that
      post's `parseDate` instant; and every published post has an item. */
  lemma FeedItemsComeFromPublishedPosts(posts: seq<CollectionPost>, nowMs: int, year: nat)
    requires KeptDated(posts, Published)
    ensures forall it :: it in GenerateFeed(posts, nowMs, year).items ==>
      exists p :: p in posts && Published(p) && it == ItemOf(p) && Some(it.date) == ParseDate(p.date)
    ensures forall p :: p in posts && Published(p) ==> ItemOf(p) in GenerateFeed(posts, nowMs, year).items
  {
    var kept := NewestFirst(posts, Published);
    NewestFirstDated(posts, Published);
    assert GenerateFeed(posts, nowMs, year).items == Map(kept, ItemOf);
    ItemsComeFromKept(kept, posts);
    KeptHaveItems(kept, posts);
  }

  lemma FeedItemsOfKept(posts: seq<CollectionPost>, nowMs: int, year: nat)
    requires KeptDated(posts, Published)
    ensures GenerateFeed(posts, nowMs, year).items == Map(NewestFirst(posts, Published), ItemOf)
  {
  }

  lemma ItemsComeFromKept(kept: seq<CollectionPost>, posts: seq<CollectionPost>)
    requires AllDated(kept)
    requires forall p :: p in kept ==> p in posts && Published(p)
    ensures forall it :: it in Map(kept, ItemOf) ==>
      exists p :: p in posts && Published(p) && it == ItemOf(p) && Some(it.date) == ParseDate(p.date)
  {
    var items := Map(kept, ItemOf);
    forall it | it in items
      ensures exists p :: p in posts && Published(p) && it == ItemOf(p) && Some(it.date) == ParseDate(p.date)
    {
      var k :| 0 <= k < |items| && items[k] == it;
      var p := kept[k];
      assert p in kept;
      assert WellFormedDate(p.date);
      assert it == ItemOf(p);
    }
  }

  lemma KeptHaveItems(kept: seq<CollectionPost>, posts: seq<CollectionPost>)
    requires forall p :: p in posts && Published(p) ==> p in kept
    ensures forall p :: p in posts && Published(p) ==> ItemOf(p) in Map(kept, ItemOf)
  {
    forall p | p in posts && Published(p)
      ensures ItemOf(p) in Map(kept, ItemOf)
    {
      var k :| 0 <= k < |kept| && kept[k] == p;
      assert Map(kept, ItemOf)[k] == ItemOf(p);
    }
  }

  /** A post flagged `test: true` never produces an item unless another
      published post has the very same item. */
  lemma TestPostsExcluded(posts: seq<CollectionPost>, nowMs: int, year: nat, p: CollectionPost)
    requires KeptDated(posts, Published) && p.test == Some(true)
    requires forall q :: q in posts && Published(q) ==> ItemOf(q) != ItemOf(p)
    ensures ItemOf(p) !in GenerateFeed(posts, nowMs, year).items
  {
    FeedItemsComeFromPublishedPosts(posts, nowMs, year);
  }

  /** The collection never sets `test`, so the feed's filter keeps every
      post it produces: one item per post, drafts (`wip: true`) included. */
  lemma FeedKeepsEveryCollectionPost(posts: seq<CollectionPost>, nowMs: int, year: nat)
    requires KeptDated(posts, Published)
    requires forall i :: 0 <= i < |posts| ==> posts[i].test == None
    ensures |GenerateFeed(posts, nowMs, year).items| == |posts|
    ensures multiset(GenerateFeed(posts, nowMs, year).items) == multiset(Map(posts, ItemOf))
  {
    FilterKeepsAll(posts, Published);
  }

  /** A draft from the collection is published in the feed even though the
      blog index hides it. */
  lemma DraftReachesFeed(posts: seq<CollectionPost>, nowMs: int, year: nat, i: nat)
    requires KeptDated(posts, Published)
    requires i < |posts| && posts[i].wip == Some(true) && posts[i].test == None
    ensures ItemOf(posts[i]) in GenerateFeed(posts, nowMs, year).items
  {
    var kept := NewestFirst(posts, Published);
    FeedItemsOfKept(posts, nowMs, year);
    assert posts[i] in kept by {
      assert posts[i] in posts && Published(posts[i]);
    }
    var k :| 0 <= k < |kept| && kept[k] == posts[i];
    assert Map(kept, ItemOf)[k] == ItemOf(posts[i]);
  }
}
