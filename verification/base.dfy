/** Small shared vocabulary: an optional value and integer helpers used by
    several pipeline stages. */
module Base {

  /** A value that may be missing (JavaScript `undefined` / `null`). */
  datatype Option<+T> = None | Some(value: T) {
    function GetOr(default: T): T {
      match this
      case Some(v) => v
      case None => default
    }
  }

  function Max(a: int, b: int): int {
    if a >= b then a else b
  }

  function Min(a: int, b: int): int {
    if a <= b then a else b
  }

  /** `Math.ceil(n / d)` for a natural numerator: exact, because the source
      divides an integer count by an integer constant. */
  function CeilDiv(n: nat, d: nat): (q: nat)
    requires d > 0
    ensures q * d >= n
    ensures q == 0 || (q - 1) * d < n
  {
    (n + d - 1) / d
  }

  /** `Array.prototype.filter`. */
  function Filter<T>(xs: seq<T>, keep: T -> bool): (r: seq<T>)
    ensures |r| <= |xs|
  {
    if |xs| == 0 then []
    else
      assert xs == [xs[0]] + xs[1..];
      (if keep(xs[0]) then [xs[0]] else []) + Filter(xs[1..], keep)
  }

  /** `Array.prototype.map`. */
  function Map<T, U>(xs: seq<T>, f: T -> U): (r: seq<U>)
    ensures |r| == |xs|
    ensures forall i :: 0 <= i < |xs| ==> r[i] == f(xs[i])
  {
    if |xs| == 0 then [] else [f(xs[0])] + Map(xs[1..], f)
  }

  lemma {:induction false} FilterConcat<T>(a: seq<T>, b: seq<T>, keep: T -> bool)
    ensures Filter(a + b, keep) == Filter(a, keep) + Filter(b, keep)
  {
    if |a| == 0 {
      assert a + b == b;
    } else {
      var ab := a + b;
      assert ab[0] == a[0] && ab[1..] == a[1..] + b;
      FilterConcat(a[1..], b, keep);
      assert Filter(ab, keep) == (if keep(a[0]) then [a[0]] else []) + Filter(a[1..] + b, keep);
    }
  }

  /** `Array.prototype.findIndex` with the test `keyOf(x) === key`: the
      first index whose element has the key, or -1. */
  function FindIndex<T, K(==)>(xs: seq<T>, keyOf: T -> K, key: K): (i: int)
    ensures -1 <= i < |xs|
    ensures i >= 0 ==> keyOf(xs[i]) == key
    ensures forall k :: 0 <= k < |xs| && (i == -1 || k < i) ==> keyOf(xs[k]) != key
  {
    if |xs| == 0 then -1
    else if keyOf(xs[0]) == key then 0
    else
      var j := FindIndex(xs[1..], keyOf, key);
      if j == -1 then -1 else j + 1
  }

  lemma MapConcat<T, U>(a: seq<T>, b: seq<T>, f: T -> U)
    ensures Map(a + b, f) == Map(a, f) + Map(b, f)
  {
    assert |Map(a + b, f)| == |Map(a, f) + Map(b, f)|;
  }

  /** What `filter` keeps: exactly the elements that pass the test. */
  lemma {:induction false} FilterMembers<T>(xs: seq<T>, keep: T -> bool, x: T)
    ensures x in Filter(xs, keep) <==> x in xs && keep(x)
  {
    if |xs| > 0 {
      FilterMembers(xs[1..], keep, x);
      assert xs == [xs[0]] + xs[1..];
    }
  }

  /** A filter that every element passes changes nothing. */
  lemma {:induction false} FilterKeepsAll<T>(xs: seq<T>, keep: T -> bool)
    requires forall i :: 0 <= i < |xs| ==> keep(xs[i])
    ensures Filter(xs, keep) == xs
  {
    if |xs| > 0 {
      FilterKeepsAll(xs[1..], keep);
      assert xs == [xs[0]] + xs[1..];
    }
  }
}
