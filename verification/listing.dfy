/** The pattern every list of posts follows: keep the posts a predicate
    accepts, then sort with `(a, b) => parseDate(b.date) - parseDate(a.date)`,
    newest first. The comparator only orders well-formed dates (a malformed
    one yields NaN and an implementation-defined order), so the views that
    use it require the posts they keep, and only those, to be well dated. */
module Listing {
  import opened Base
  import opened Text
  import opened Dates
  import opened Sorting
  import opened Collection

  /** `parseDate(p.date).getTime()` for a well-formed date. */
  function DateKey(p: CollectionPost): int {
    ParseDate(p.date).GetOr(0)
  }

  predicate AllDated(posts: seq<CollectionPost>) {
    forall i :: 0 <= i < |posts| ==> WellFormedDate(posts[i].date)
  }

  /** Every post the predicate keeps has a well-formed date; the others
      are never compared, so their dates do not matter. */
  predicate KeptDated(posts: seq<CollectionPost>, keep: CollectionPost -> bool) {
    forall i :: 0 <= i < |posts| && keep(posts[i]) ==> WellFormedDate(posts[i].date)
  }

  /** `posts.filter(keep).sort(byDateDesc)`. */
  function NewestFirst(posts: seq<CollectionPost>, keep: CollectionPost -> bool): (r: seq<CollectionPost>)
    ensures SortedDesc(r, DateKey)
    ensures multiset(r) == multiset(Filter(posts, keep))
    ensures |r| == |Filter(posts, keep)|
    ensures forall p :: p in r <==> p in posts && keep(p)
  {
    var r := SortDesc(Filter(posts, keep), DateKey);
    forall p
      ensures p in r <==> p in posts && keep(p)
    {
      FilterMembers(posts, keep, p);
      assert p in r <==> p in multiset(r);
    }
    r
  }

  /** When every kept post is well dated, so is the sorted list. */
  lemma NewestFirstDated(posts: seq<CollectionPost>, keep: CollectionPost -> bool)
    requires KeptDated(posts, keep)
    ensures AllDated(NewestFirst(posts, keep))
  {
    var r := NewestFirst(posts, keep);
    forall i | 0 <= i < |r|
      ensures WellFormedDate(r[i].date)
    {
      assert r[i] in r;
      var j :| 0 <= j < |posts| && posts[j] == r[i];
    }
  }

  /** A prefix of a sorted, well-dated list is sorted, well dated and drawn
      from the list. */
  lemma TakeNewest(s: seq<CollectionPost>, n: nat)
    requires AllDated(s) && SortedDesc(s, DateKey) && n <= |s|
    ensures AllDated(s[..n]) && SortedDesc(s[..n], DateKey)
    ensures forall p :: p in s[..n] ==> p in s
  {
    var t := s[..n];
    assert forall i :: 0 <= i < |t| ==> t[i] == s[i];
  }

  /** With well-formed dates, the order by key is the instant order of
      `parseDate`, which is also the string order of the dates: a later post
      never precedes an earlier one. */
  lemma SortedIsChronological(r: seq<CollectionPost>, i: nat, j: nat)
    requires AllDated(r) && SortedDesc(r, DateKey)
    requires i < j < |r|
    ensures ParseDate(r[i].date).value >= ParseDate(r[j].date).value
    ensures !LexLess(r[i].date, r[j].date)
  {
    ParseDateOrdersLikeStrings(r[i].date, r[j].date);
  }
}
