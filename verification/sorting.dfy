/** `Array.prototype.sort` with the comparator `(a, b) => key(b) - key(a)`
    used by every collection view: newest first. Modelled as an insertion
    sort on sequences; what the views rely on is only that the result is
    ordered by non-increasing key and is a permutation of the input. */
module Sorting {
  import opened Base

  predicate SortedDesc<T>(xs: seq<T>, key: T -> int) {
    forall i, j :: 0 <= i < j < |xs| ==> key(xs[i]) >= key(xs[j])
  }

  /** Place `x` in front of the first element whose key is not above its own. */
  function Insert<T>(x: T, xs: seq<T>, key: T -> int): (r: seq<T>)
    requires SortedDesc(xs, key)
    ensures |r| == |xs| + 1
    ensures r[0] == x || (|xs| > 0 && r[0] == xs[0])
    ensures SortedDesc(r, key)
    ensures multiset(r) == multiset{x} + multiset(xs)
  {
    if |xs| == 0 then [x]
    else if key(xs[0]) <= key(x) then [x] + xs
    else
      assert xs == [xs[0]] + xs[1..];
      [xs[0]] + Insert(x, xs[1..], key)
  }

  /** Newest-first sort by `key`. */
  function SortDesc<T>(xs: seq<T>, key: T -> int): (r: seq<T>)
    ensures |r| == |xs|
    ensures SortedDesc(r, key)
    ensures multiset(r) == multiset(xs)
  {
    if |xs| == 0 then []
    else
      assert xs == [xs[0]] + xs[1..];
      Insert(xs[0], SortDesc(xs[1..], key), key)
  }

  /** The sequence without its element at index `i`. */
  function RemoveAt<T>(b: seq<T>, i: nat): (b': seq<T>)
    requires i < |b|
    ensures |b'| == |b| - 1
    ensures forall k :: 0 <= k < |b'| ==> b'[k] == (if k < i then b[k] else b[k + 1])
    ensures multiset(b) == multiset(b') + multiset{b[i]}
  {
    assert b == b[..i] + [b[i]] + b[i + 1..];
    b[..i] + b[i + 1..]
  }

  lemma RemoveAtKeepsSorted<T>(b: seq<T>, i: nat, key: T -> int)
    requires i < |b| && SortedDesc(b, key)
    ensures SortedDesc(RemoveAt(b, i), key)
  {
    var b' := RemoveAt(b, i);
    forall p, q | 0 <= p < q < |b'|
      ensures key(b'[p]) >= key(b'[q])
    {
      var p' := if p < i then p else p + 1;
      var q' := if q < i then q else q + 1;
      assert b'[p] == b[p'] && b'[q] == b[q'];
    }
  }

  lemma FirstOfPermutation<T>(a: seq<T>, b: seq<T>) returns (i: nat)
    requires |a| > 0 && multiset(a) == multiset(b)
    ensures i < |b| && b[i] == a[0]
    ensures multiset(a[1..]) == multiset(RemoveAt(b, i))
  {
    assert a[0] in multiset(b);
    i :| 0 <= i < |b| && b[i] == a[0];
    assert a == [a[0]] + a[1..];
    assert multiset(a) == multiset{a[0]} + multiset(a[1..]);
    assert multiset(a[1..]) == multiset(a) - multiset{a[0]};
    var b' := RemoveAt(b, i);
    assert multiset(b') == multiset(b) - multiset{b[i]};
  }

  /** A sorted sequence that is a permutation of a sorted sequence has the
      same key at every position: the sort is determined up to ties. */
  lemma {:induction false} SortedPermutationsAgreeOnKeys<T>(a: seq<T>, b: seq<T>, key: T -> int)
    requires SortedDesc(a, key) && SortedDesc(b, key) && multiset(a) == multiset(b)
    ensures |a| == |b|
    ensures forall k :: 0 <= k < |a| ==> key(a[k]) == key(b[k])
  {
    assert |a| == |multiset(a)| == |multiset(b)| == |b|;
    if |a| > 0 {
      var i := FirstOfPermutation(a, b);
      FirstKeysAgree(a, b, key);
      var b' := RemoveAt(b, i);
      RemoveAtKeepsSorted(b, i, key);
      SortedPermutationsAgreeOnKeys(a[1..], b', key);
      ShiftedKeysAgree(a, b, i, key);
    }
  }

  /** The heads of two sorted permutations of each other carry the same key. */
  lemma FirstKeysAgree<T>(a: seq<T>, b: seq<T>, key: T -> int)
    requires |a| > 0 && SortedDesc(a, key) && SortedDesc(b, key) && multiset(a) == multiset(b)
    ensures key(a[0]) == key(b[0])
  {
    var i := FirstOfPermutation(a, b);
    var j := FirstOfPermutation(b, a);
    assert key(b[0]) >= key(b[i]);
    assert key(a[0]) >= key(a[j]);
  }

  /** Agreement after the head of `a` and its copy `b[i]` are removed
      extends to the whole sequences. */
  lemma ShiftedKeysAgree<T>(a: seq<T>, b: seq<T>, i: nat, key: T -> int)
    requires |a| == |b| && i < |b| && SortedDesc(a, key) && SortedDesc(b, key)
    requires key(a[0]) == key(b[0]) && b[i] == a[0]
    requires forall k :: 0 <= k < |a| - 1 ==> key(a[1..][k]) == key(RemoveAt(b, i)[k])
    ensures forall k :: 0 <= k < |a| ==> key(a[k]) == key(b[k])
  {
    var b' := RemoveAt(b, i);
    forall k | 0 < k < |a|
      ensures key(a[k]) == key(b[k])
    {
      assert key(a[1..][k - 1]) == key(b'[k - 1]);
      assert a[1..][k - 1] == a[k];
      if k <= i {
        assert b'[k - 1] == b[k - 1];
        assert key(b[0]) >= key(b[k - 1]) >= key(b[k]) >= key(b[i]);
      } else {
        assert b'[k - 1] == b[k];
      }
    }
  }

  /** Mapping a permutation gives a permutation of the mapped sequence. */
  lemma {:induction false} MapPermutation<T, U>(a: seq<T>, b: seq<T>, f: T -> U)
    requires multiset(a) == multiset(b)
    ensures multiset(Map(a, f)) == multiset(Map(b, f))
  {
    if |a| == 0 {
      assert |b| == |multiset(b)| == 0;
    } else {
      var i := FirstOfPermutation(a, b);
      var b' := RemoveAt(b, i);
      MapPermutation(a[1..], b', f);
      assert Map(a, f) == [f(a[0])] + Map(a[1..], f);
      MapRemoveAt(b, i, f);
    }
  }

  /** Removing then mapping is mapping then removing. */
  lemma MapRemoveAt<T, U>(b: seq<T>, i: nat, f: T -> U)
    requires i < |b|
    ensures multiset(Map(b, f)) == multiset(Map(RemoveAt(b, i), f)) + multiset{f(b[i])}
  {
    var m := Map(b, f);
    var b' := RemoveAt(b, i);
    var lhs, rhs := Map(b', f), RemoveAt(m, i);
    forall k | 0 <= k < |lhs|
      ensures lhs[k] == rhs[k]
    {
      assert lhs[k] == f(b'[k]);
    }
    assert lhs == rhs;
    assert m[i] == f(b[i]);
  }

  lemma MultisetSplit<T>(s: seq<T>, k: nat)
    requires k <= |s|
    ensures multiset(s) == multiset(s[..k]) + multiset(s[k..])
    ensures multiset(s) - multiset(s[..k]) == multiset(s[k..])
  {
    assert s == s[..k] + s[k..];
  }

  /** In a sorted sequence every element of a prefix has a key at least
      that of every element after it. */
  lemma SortedPrefixDominates<T>(s: seq<T>, k: nat, key: T -> int)
    requires SortedDesc(s, key) && k <= |s|
    ensures forall x, y :: x in multiset(s[..k]) && y in multiset(s[k..]) ==> key(x) >= key(y)
  {
    forall x, y | x in multiset(s[..k]) && y in multiset(s[k..])
      ensures key(x) >= key(y)
    {
      var a :| 0 <= a < k && s[..k][a] == x;
      var b :| 0 <= b < |s| - k && s[k..][b] == y;
      assert s[a] == x && s[k + b] == y;
    }
  }
}
