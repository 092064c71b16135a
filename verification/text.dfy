/** String primitives the pipeline relies on: the ASCII whitespace class of
    JavaScript's `\s`, `String.prototype.trim`, `split(/\s+/)`, and a
    reference notion of "word" (a maximal run of non-whitespace). */
module Text {
  import opened Base

  type String = seq<char>

  /** ASCII part of JavaScript's `\s`: space, tab, line feed, carriage
      return, vertical tab and form feed. */
  predicate IsWs(c: char) {
    c == ' ' || c == '\t' || c == '\n' || c == '\r' || c == '\U{000B}' || c == '\U{000C}'
  }

  predicate NotWs(c: char) {
    !IsWs(c)
  }

  predicate NoWs(s: String) {
    forall i :: 0 <= i < |s| ==> !IsWs(s[i])
  }

  predicate AllWs(s: String) {
    forall i :: 0 <= i < |s| ==> IsWs(s[i])
  }

  predicate NonEmpty(s: String) {
    |s| > 0
  }

  function B(b: bool): nat {
    if b then 1 else 0
  }

  // ---------------------------------------------------------------------
  // Words: the reference definition
  // ---------------------------------------------------------------------

  /** Number of maximal non-whitespace runs, counted at the position where
      each run ends. */
  function Words(s: String): nat {
    if |s| == 0 then 0
    else B(!IsWs(s[0]) && (|s| == 1 || IsWs(s[1]))) + Words(s[1..])
  }

  lemma {:induction false} WordsOfNoWs(s: String)
    requires NoWs(s)
    ensures Words(s) == B(|s| > 0)
  {
    if |s| > 1 {
      WordsOfNoWs(s[1..]);
    }
  }

  lemma {:induction false} WordsOfAllWs(s: String)
    requires AllWs(s)
    ensures Words(s) == 0
  {
    if |s| > 0 {
      WordsOfAllWs(s[1..]);
    }
  }

  /** Gluing two strings adds their word counts whenever the seam is
      whitespace (so no word straddles it). */
  lemma {:induction false} WordsConcat(a: String, b: String)
    requires |a| == 0 || |b| == 0 || IsWs(a[|a| - 1]) || IsWs(b[0])
    ensures Words(a + b) == Words(a) + Words(b)
  {
    if |a| == 0 {
      assert a + b == b;
    } else if |b| == 0 {
      assert a + b == a;
    } else {
      assert (a + b)[1..] == a[1..] + b;
      if |a| > 1 {
        WordsConcat(a[1..], b);
      } else {
        assert a[1..] + b == b;
      }
    }
  }

  // ---------------------------------------------------------------------
  // trim()
  // ---------------------------------------------------------------------

  /** Length of the leading whitespace run. */
  function LeadingWs(s: String): (n: nat)
    ensures n <= |s|
    ensures AllWs(s[..n])
    ensures n < |s| ==> !IsWs(s[n])
  {
    if |s| == 0 || !IsWs(s[0]) then 0 else 1 + LeadingWs(s[1..])
  }

  /** Length of the trailing whitespace run. */
  function TrailingWs(s: String): (n: nat)
    ensures n <= |s|
    ensures AllWs(s[|s| - n..])
    ensures n < |s| ==> !IsWs(s[|s| - n - 1])
  {
    if |s| == 0 || !IsWs(s[|s| - 1]) then 0 else 1 + TrailingWs(s[..|s| - 1])
  }

  /** `String.prototype.trim` restricted to ASCII whitespace. */
  function Trim(s: String): (t: String)
    ensures |t| == 0 || (!IsWs(t[0]) && !IsWs(t[|t| - 1]))
  {
    var u := s[LeadingWs(s)..];
    u[..|u| - TrailingWs(u)]
  }

  /** Trimming removes whitespace only: the input is the trimmed string
      wrapped in two whitespace runs. */
  lemma TrimDecomposes(s: String)
    ensures exists l, r :: AllWs(l) && AllWs(r) && s == l + Trim(s) + r
  {
    var l, r := TrimParts(s);
  }

  /** The two whitespace runs `trim` removes. */
  lemma TrimParts(s: String) returns (l: String, r: String)
    ensures AllWs(l) && AllWs(r) && s == l + Trim(s) + r
  {
    var n := LeadingWs(s);
    var u := s[n..];
    var m := TrailingWs(u);
    var k := n + (|u| - m);
    SuffixSlices(s, n, k);
    assert Trim(s) == u[..k - n];
    l, r := s[..n], s[k..];
    SliceSplit3(s, n, k);
  }

  /** Slicing a suffix `s[i..]` at `j - i` slices `s` at `j`. */
  lemma SuffixSlices(s: String, i: nat, j: nat)
    requires i <= j <= |s|
    ensures s[i..][..j - i] == s[i..j]
    ensures s[i..][j - i..] == s[j..]
  {
  }

  lemma SliceSplit3(s: String, i: nat, j: nat)
    requires i <= j <= |s|
    ensures s == s[..i] + s[i..j] + s[j..]
  {
  }

  /** Surrounding whitespace never changes the word count. */
  lemma {:induction false} WordsIgnoresPadding(l: String, t: String, r: String)
    requires AllWs(l) && AllWs(r)
    ensures Words(l + t + r) == Words(t)
  {
    WordsOfAllWs(l);
    WordsOfAllWs(r);
    WordsConcat(l, t);
    WordsConcat(l + t, r);
  }

  lemma WordsOfTrim(s: String)
    ensures Words(Trim(s)) == Words(s)
  {
    TrimDecomposes(s);
    var l, r :| AllWs(l) && AllWs(r) && s == l + Trim(s) + r;
    WordsIgnoresPadding(l, Trim(s), r);
  }

  // ---------------------------------------------------------------------
  // split(/\s+/)
  // ---------------------------------------------------------------------

  /** Index of the first whitespace character, or |s| when there is none. */
  function FirstWs(s: String): (k: nat)
    ensures k <= |s|
    ensures NoWs(s[..k])
    ensures k < |s| ==> IsWs(s[k])
  {
    if |s| == 0 || IsWs(s[0]) then 0 else 1 + FirstWs(s[1..])
  }

  function Flatten(pieces: seq<String>): String {
    if |pieces| == 0 then [] else pieces[0] + Flatten(pieces[1..])
  }

  /** End of the whitespace run that starts at index `k`. */
  function WsRunEnd(s: String, k: nat): (j: nat)
    requires k < |s| && IsWs(s[k])
    ensures k < j <= |s|
    ensures AllWs(s[k..j])
    ensures j < |s| ==> !IsWs(s[j])
  {
    var n := LeadingWs(s[k..]);
    assert s[k..k + n] == s[k..][..n];
    k + n
  }

  /** JavaScript's `s.split(/\s+/)`: the pieces between maximal whitespace
      runs. The greedy `\s+` always consumes a whole run, so only the first
      piece (input starts with whitespace, or is empty) and the last piece
      (input ends with whitespace) can be empty. */
  function Split(s: String): (pieces: seq<String>)
    ensures |pieces| >= 1
    ensures forall i :: 0 <= i < |pieces| ==> NoWs(pieces[i])
    ensures forall i :: 0 < i < |pieces| - 1 ==> |pieces[i]| > 0
    ensures |pieces[0]| == 0 <==> |s| == 0 || IsWs(s[0])
    decreases |s|
  {
    var k := FirstWs(s);
    if k == |s| then
      assert s[..k] == s;
      [s]
    else
      var j := WsRunEnd(s, k);
      var tail := Split(s[j..]);
      assert |s[j..]| > 0 ==> !IsWs(s[j..][0]);
      [s[..k]] + tail
  }

  /** One step of `Split` on an input that contains whitespace: the first
      piece, then the split of whatever follows the first whitespace run. */
  lemma SplitStep(s: String) returns (k: nat, j: nat)
    requires FirstWs(s) < |s|
    ensures k == FirstWs(s) && k < j <= |s|
    ensures NoWs(s[..k]) && AllWs(s[k..j]) && (j < |s| ==> !IsWs(s[j]))
    ensures s == s[..k] + s[k..j] + s[j..]
    ensures Split(s) == [s[..k]] + Split(s[j..])
    ensures Split(s)[1..] == Split(s[j..])
  {
    k := FirstWs(s);
    j := WsRunEnd(s, k);
    assert s == s[..k] + s[k..j] + s[j..];
  }

  /** `split` loses exactly the whitespace: gluing the pieces back together
      gives the input with every whitespace character removed. */
  lemma {:induction false} SplitKeepsNonWhitespace(s: String)
    ensures Flatten(Split(s)) == Filter(s, NotWs)
    decreases |s|
  {
    if FirstWs(s) == |s| {
      assert s[..|s|] == s;
      FilterAllKept(s);
      assert Flatten([s]) == s + Flatten([]);
    } else {
      var k, j := SplitStep(s);
      var rest := s[j..];
      SplitKeepsNonWhitespace(rest);
      FlattenCons(s[..k], Split(rest));
      FilterAround(s[..k], s[k..j], rest);
    }
  }

  lemma FlattenCons(p: String, ps: seq<String>)
    ensures Flatten([p] + ps) == p + Flatten(ps)
  {
    assert ([p] + ps)[1..] == ps;
  }

  /** Filtering out whitespace across a word and a whitespace run. */
  lemma FilterAround(a: String, w: String, rest: String)
    requires NoWs(a) && AllWs(w)
    ensures Filter(a + w + rest, NotWs) == a + Filter(rest, NotWs)
  {
    assert Filter(a + w, NotWs) == a by {
      FilterConcat(a, w, NotWs);
      FilterAllKept(a);
      FilterNoneKept(w);
      assert a + [] == a;
    }
    FilterConcat(a + w, rest, NotWs);
  }

  lemma FilterAllKept(s: String)
    requires NoWs(s)
    ensures Filter(s, NotWs) == s
  {
    if |s| > 0 {
      FilterAllKept(s[1..]);
      assert s == [s[0]] + s[1..];
    }
  }

  lemma FilterNoneKept(s: String)
    requires AllWs(s)
    ensures Filter(s, NotWs) == []
  {
  }

  /** The pieces `filter(Boolean)` keeps are exactly the words. */
  lemma {:induction false} SplitNonEmptyPiecesAreWords(s: String)
    ensures |Filter(Split(s), NonEmpty)| == Words(s)
    decreases |s|
  {
    if FirstWs(s) == |s| {
      assert s[..|s|] == s;
      WordsOfNoWs(s);
    } else {
      var k, j := SplitStep(s);
      var rest := s[j..];
      SplitNonEmptyPiecesAreWords(rest);
      WordsOfNoWs(s[..k]);
      WordsOfAllWs(s[k..j]);
      WordsConcat(s[..k], s[k..j]);
      WordsConcat(s[..k] + s[k..j], rest);
    }
  }

  /** The raw piece count of a non-empty string is its word count plus one
      empty piece for leading whitespace and one for trailing whitespace. */
  lemma {:induction false} SplitPieceCount(s: String)
    ensures |s| == 0 ==> |Split(s)| == 1
    ensures |s| > 0 ==> |Split(s)| == Words(s) + B(IsWs(s[0])) + B(IsWs(s[|s| - 1]))
    decreases |s|
  {
    if |s| == 0 {
    } else if FirstWs(s) == |s| {
      assert s[..|s|] == s;
      WordsOfNoWs(s);
    } else {
      var k, j := SplitStep(s);
      var rest := s[j..];
      WordsOfNoWs(s[..k]);
      WordsOfAllWs(s[k..j]);
      WordsConcat(s[..k], s[k..j]);
      WordsConcat(s[..k] + s[k..j], rest);
      if |rest| == 0 {
        assert Split(rest) == [rest];
        assert IsWs(s[|s| - 1]);
      } else {
        SplitPieceCount(rest);
        assert rest[|rest| - 1] == s[|s| - 1];
      }
    }
  }

  /** A string with at least one non-whitespace character has a word. */
  lemma {:induction false} WordsPositive(s: String, i: nat)
    requires i < |s| && !IsWs(s[i])
    ensures Words(s) >= 1
  {
    if i > 0 {
      WordsPositive(s[1..], i - 1);
    } else if |s| > 1 && !IsWs(s[1]) {
      WordsPositive(s[1..], 0);
    }
  }

  lemma FirstWsOfJoin(a: String, w: String, b: String)
    requires NoWs(a) && |w| > 0 && IsWs(w[0])
    ensures FirstWs(a + w + b) == |a|
  {
    var s := a + w + b;
    var k := FirstWs(s);
    assert s[|a|] == w[0];
  }

  lemma RunEndOfJoin(a: String, w: String, b: String)
    requires |w| > 0 && AllWs(w) && (|b| == 0 || !IsWs(b[0]))
    ensures WsRunEnd(a + w + b, |a|) == |a| + |w|
  {
    var s := a + w + b;
    assert s[|a|] == w[0];
    var j := WsRunEnd(s, |a|);
    var e := |a| + |w|;
    assert forall i :: |a| <= i < e ==> s[i] == w[i - |a|];
    assert e < |s| ==> s[e] == b[0];
  }

  /** Splitting a whitespace-free piece, a whitespace run and a rest that
      does not start with whitespace yields the piece followed by the split
      of the rest. */
  lemma SplitAround(a: String, w: String, b: String)
    requires NoWs(a) && |w| > 0 && AllWs(w) && (|b| == 0 || !IsWs(b[0]))
    ensures Split(a + w + b) == [a] + Split(b)
  {
    var s := a + w + b;
    FirstWsOfJoin(a, w, b);
    RunEndOfJoin(a, w, b);
    var k, j := SplitStep(s);
    assert s[..k] == a;
    assert s[j..] == b;
  }

  /** Text without whitespace is a single piece, itself; in particular
      `"".split(/\s+/)` is `[""]`. */
  lemma SplitNoWs(s: String)
    requires NoWs(s)
    ensures Split(s) == [s]
  {
    assert s[..|s|] == s;
  }

  /** `JoinWith(ps, sep)` is `ps.join(sep)`. */
  function JoinWith(ps: seq<String>, sep: String): String {
    if |ps| == 0 then []
    else if |ps| == 1 then ps[0]
    else ps[0] + sep + JoinWith(ps[1..], sep)
  }

  /** Round trip: joining pieces of the shape `split` produces with a
      whitespace separator and splitting again gives the pieces back. */
  lemma {:induction false} SplitJoinRoundTrip(ps: seq<String>, sep: String)
    requires |ps| >= 1 && |sep| > 0 && AllWs(sep)
    requires forall i :: 0 <= i < |ps| ==> NoWs(ps[i])
    requires forall i :: 0 < i < |ps| - 1 ==> |ps[i]| > 0
    ensures Split(JoinWith(ps, sep)) == ps
  {
    if |ps| == 1 {
      assert JoinWith(ps, sep) == ps[0];
      SplitNoWs(ps[0]);
    } else {
      var tail := PiecesTail(ps);
      SplitJoinRoundTrip(tail, sep);
      var rest := JoinWith(tail, sep);
      JoinStart(tail, sep);
      SplitAround(ps[0], sep, rest);
      JoinCons(ps, sep);
    }
  }

  /** The pieces after the first keep the shape `split` produces. */
  lemma PiecesTail(ps: seq<String>) returns (tail: seq<String>)
    requires |ps| >= 2
    requires forall i :: 0 <= i < |ps| ==> NoWs(ps[i])
    requires forall i :: 0 < i < |ps| - 1 ==> |ps[i]| > 0
    ensures tail == ps[1..] && |tail| >= 1
    ensures forall i :: 0 <= i < |tail| ==> NoWs(tail[i])
    ensures forall i :: 0 < i < |tail| - 1 ==> |tail[i]| > 0
    ensures |tail| > 1 ==> |tail[0]| > 0
  {
    tail := ps[1..];
    assert forall i :: 0 <= i < |tail| ==> tail[i] == ps[i + 1];
  }

  /** A join whose first piece is non-empty or stands alone does not start
      with whitespace. */
  lemma JoinStart(ps: seq<String>, sep: String)
    requires |ps| >= 1 && NoWs(ps[0]) && (|ps| > 1 ==> |ps[0]| > 0)
    ensures |JoinWith(ps, sep)| == 0 || !IsWs(JoinWith(ps, sep)[0])
  {
    if |ps| > 1 {
      assert JoinWith(ps, sep) == ps[0] + (sep + JoinWith(ps[1..], sep));
      assert JoinWith(ps, sep)[0] == ps[0][0];
    }
  }

  /** Unfolding the join at its first piece, and splitting that equation
      back into the pieces. */
  lemma JoinCons(ps: seq<String>, sep: String)
    requires |ps| >= 2
    ensures JoinWith(ps, sep) == ps[0] + sep + JoinWith(ps[1..], sep)
    ensures ps == [ps[0]] + ps[1..]
  {
  }

  // ---------------------------------------------------------------------
  // Decimal digits and string order
  // ---------------------------------------------------------------------

  predicate IsDigit(c: char) {
    '0' <= c <= '9'
  }

  predicate AllDigits(s: String) {
    forall i :: 0 <= i < |s| ==> IsDigit(s[i])
  }

  function DigitValue(c: char): nat
    requires IsDigit(c)
  {
    (c as int) - ('0' as int)
  }

  function DigitChar(d: nat): (c: char)
    requires d < 10
    ensures IsDigit(c) && DigitValue(c) == d
  {
    (('0' as int) + d) as char
  }

  function Pow10(n: nat): (p: nat)
    ensures p >= 1
  {
    if n == 0 then 1 else 10 * Pow10(n - 1)
  }

  /** The number a string of decimal digits denotes (leading zeros allowed). */
  function DigitsValue(s: String): nat
    requires AllDigits(s)
  {
    if |s| == 0 then 0 else DigitValue(s[0]) * Pow10(|s| - 1) + DigitsValue(s[1..])
  }

  lemma {:induction false} DigitsValueBound(s: String)
    requires AllDigits(s)
    ensures DigitsValue(s) < Pow10(|s|)
  {
    if |s| > 0 {
      DigitsValueBound(s[1..]);
      var p := Pow10(|s| - 1);
      var d := DigitValue(s[0]);
      ScaledDigitBound(d, p, DigitsValue(s[1..]));
      assert Pow10(|s|) == 10 * p;
    }
  }

  lemma ScaledDigitBound(d: nat, p: nat, rest: nat)
    requires d <= 9 && rest < p
    ensures d * p + rest < 10 * p
  {
    assert d * p <= 9 * p;
  }

  lemma {:induction false} DigitsValueSnoc(s: String, c: char)
    requires AllDigits(s) && IsDigit(c)
    ensures AllDigits(s + [c])
    ensures DigitsValue(s + [c]) == 10 * DigitsValue(s) + DigitValue(c)
  {
    var t := s + [c];
    assert AllDigits(t);
    if |s| > 0 {
      assert t[1..] == s[1..] + [c];
      DigitsValueSnoc(s[1..], c);
      var d := DigitValue(s[0]);
      var p := Pow10(|s| - 1);
      var rest := DigitsValue(s[1..]);
      assert DigitsValue(t) == d * Pow10(|t| - 1) + DigitsValue(t[1..]);
      assert Pow10(|t| - 1) == 10 * p;
      assert DigitsValue(t[1..]) == 10 * rest + DigitValue(c);
      assert DigitsValue(s) == d * p + rest;
      MulAssoc10(d, p);
    } else {
      assert t == [c];
    }
  }

  lemma MulAssoc10(d: nat, p: nat)
    ensures d * (10 * p) == 10 * (d * p)
  {
  }

  /** `String(n)` for a natural number: shortest decimal numeral. */
  function NatToString(n: nat): (r: String)
    ensures |r| >= 1 && AllDigits(r)
    ensures DigitsValue(r) == n
    ensures n > 0 ==> r[0] != '0'
  {
    var last := DigitChar(n % 10);
    if n < 10 then
      DigitsValueSnoc([], last);
      [last]
    else
      var prefix := NatToString(n / 10);
      DigitsValueSnoc(prefix, last);
      prefix + [last]
  }

  /** JavaScript's `<` on strings: lexicographic by character code, a proper
      prefix before its extensions. */
  predicate LexLess(a: String, b: String) {
    if |a| == 0 then |b| > 0
    else |b| > 0 && (a[0] < b[0] || (a[0] == b[0] && LexLess(a[1..], b[1..])))
  }

  lemma LeadingDigitDominates(a: String, b: String)
    requires AllDigits(a) && AllDigits(b) && |a| == |b| > 0
    requires DigitValue(a[0]) < DigitValue(b[0])
    ensures DigitsValue(a) < DigitsValue(b)
  {
    DigitsValueBound(a[1..]);
    ScaledDigitDominates(DigitValue(a[0]), DigitValue(b[0]), Pow10(|a| - 1), DigitsValue(a[1..]), DigitsValue(b[1..]));
  }

  lemma {:induction false} ScaledDigitDominates(da: nat, db: nat, p: nat, ra: nat, rb: nat)
    requires da < db && ra < p
    ensures da * p + ra < db * p + rb
    decreases db - da
  {
    assert (da + 1) * p == da * p + p;
    if da + 1 < db {
      ScaledDigitDominates(da + 1, db, p, 0, rb);
    }
  }

  /** On digit strings of one length, string order is numeric order and
      string equality is numeric equality. */
  lemma {:induction false} DigitsLexOrder(a: String, b: String)
    requires AllDigits(a) && AllDigits(b) && |a| == |b|
    ensures LexLess(a, b) <==> DigitsValue(a) < DigitsValue(b)
    ensures a == b <==> DigitsValue(a) == DigitsValue(b)
  {
    if |a| > 0 {
      var da, db := DigitValue(a[0]), DigitValue(b[0]);
      if da < db {
        LeadingDigitDominates(a, b);
      } else if db < da {
        LeadingDigitDominates(b, a);
      } else {
        DigitsLexOrder(a[1..], b[1..]);
        assert a[0] == b[0];
        assert a == [a[0]] + a[1..] && b == [b[0]] + b[1..];
      }
    }
  }

  /** Comparing two concatenations whose first parts have equal length. */
  lemma {:induction false} LexConcat(x1: String, y1: String, x2: String, y2: String)
    requires |x1| == |x2|
    ensures LexLess(x1 + y1, x2 + y2) <==> LexLess(x1, x2) || (x1 == x2 && LexLess(y1, y2))
  {
    if |x1| == 0 {
      assert x1 + y1 == y1 && x2 + y2 == y2;
    } else {
      assert (x1 + y1)[1..] == x1[1..] + y1;
      assert (x2 + y2)[1..] == x2[1..] + y2;
      LexConcat(x1[1..], y1, x2[1..], y2);
      assert x1 == x2 <==> x1[0] == x2[0] && x1[1..] == x2[1..] by {
        assert x1 == [x1[0]] + x1[1..] && x2 == [x2[0]] + x2[1..];
      }
    }
  }
}
