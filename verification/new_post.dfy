/** scripts/new-post.mjs: the pure parts of the new-post script, namely
    the slug generator, the date stamp, the title guard, the file name and
    the file template. The prompt, the clock and the shell call that writes
    the file are left to the caller: the title and today's calendar fields
    are parameters. */
module NewPost {
  import opened Base
  import opened Text
  import opened Dates
  import Posts

  // ---------------------------------------------------------------------
  // Character classes (ASCII)
  // ---------------------------------------------------------------------

  predicate IsUpper(c: char) {
    'A' <= c <= 'Z'
  }

  /** `toLowerCase` on ASCII; every other character is left as it is. */
  function ToLower(c: char): (l: char)
    ensures IsUpper(c) ==> 'a' <= l <= 'z' && (l as int) == (c as int) + 32
    ensures !IsUpper(c) ==> l == c
  {
    if IsUpper(c) then ((c as int) + 32) as char else c
  }

  /** `[a-z0-9]`. */
  predicate IsLowerAlnum(c: char) {
    ('a' <= c <= 'z') || IsDigit(c)
  }

  /** An ASCII letter or digit of either case. */
  predicate IsAsciiAlnum(c: char) {
    IsUpper(c) || IsLowerAlnum(c)
  }

  /** What `/[^a-z0-9\s-]/g` spares. */
  predicate Allowed(c: char) {
    IsLowerAlnum(c) || IsWs(c) || c == '-'
  }

  predicate IsDash(c: char) {
    c == '-'
  }

  predicate SlugChar(c: char) {
    IsLowerAlnum(c) || c == '-'
  }

  predicate AllSlugChars(s: String) {
    forall i :: 0 <= i < |s| ==> SlugChar(s[i])
  }

  predicate NoDoubleDash(s: String) {
    forall i :: 0 <= i < |s| - 1 ==> !(s[i] == '-' && s[i + 1] == '-')
  }

  predicate NoEdgeDash(s: String) {
    |s| == 0 || (s[0] != '-' && s[|s| - 1] != '-')
  }

  /** The shape of every generated slug. */
  predicate IsSlug(s: String) {
    AllSlugChars(s) && NoDoubleDash(s) && NoEdgeDash(s)
  }

  // ---------------------------------------------------------------------
  // The five steps of generateSlug
  // ---------------------------------------------------------------------

  /** `.toLowerCase()`. */
  function Lower(s: String): (r: String)
    ensures |r| == |s| && forall i :: 0 <= i < |s| ==> r[i] == ToLower(s[i])
  {
    Map(s, ToLower)
  }

  /** `.replace(/[^a-z0-9\s-]/g, '')`. */
  function Strip(s: String): (r: String)
    ensures |r| <= |s|
  {
    Filter(s, Allowed)
  }

  /** `.replace(/X+/g, c)` where X is the class `inRun`: each maximal run
      of class characters becomes one `c`, emitted at the run's last
      character. */
  function ReplaceRuns(s: String, inRun: char -> bool, c: char): (r: String)
    ensures |r| <= |s|
  {
    if |s| == 0 then []
    else
      (if inRun(s[0]) then (if |s| > 1 && inRun(s[1]) then [] else [c]) else [s[0]])
      + ReplaceRuns(s[1..], inRun, c)
  }

  /** `.replace(/\s+/g, '-')`. */
  function DashWhitespace(s: String): (r: String)
    ensures |r| <= |s|
  {
    ReplaceRuns(s, IsWs, '-')
  }

  /** `.replace(/-+/g, '-')`. */
  function CollapseDashes(s: String): (r: String)
    ensures |r| <= |s|
  {
    ReplaceRuns(s, IsDash, '-')
  }

  /** `.replace(/^-|-$/g, '')`: one leading and one trailing dash go. */
  function TrimDashes(s: String): (r: String)
    ensures |r| <= |s|
  {
    var t := if |s| > 0 && s[0] == '-' then s[1..] else s;
    if |t| > 0 && t[|t| - 1] == '-' then t[..|t| - 1] else t
  }

  /** `generateSlug(title)`. */
  function GenerateSlug(title: String): (slug: String)
    ensures IsSlug(slug)
  {
    var s1 := Lower(title);
    var s2 := Strip(s1);
    var s3 := DashWhitespace(s2);
    var s4 := CollapseDashes(s3);
    StripKeepsAllowed(s1);
    DashWhitespaceChars(s2);
    CollapseDashesShape(s3);
    TrimDashesShape(s4);
    TrimDashes(s4)
  }

  // ---------------------------------------------------------------------
  // Shape of the result
  // ---------------------------------------------------------------------

  lemma StripKeepsAllowed(s: String)
    ensures forall i :: 0 <= i < |Strip(s)| ==> Allowed(Strip(s)[i])
  {
    var r := Strip(s);
    forall i | 0 <= i < |r|
      ensures Allowed(r[i])
    {
      assert r[i] in r;
      FilterMembers(s, Allowed, r[i]);
    }
  }

  /** Every output character of `ReplaceRuns` is `c` or an input
      character outside the class. */
  lemma {:induction false} ReplaceRunsChars(s: String, inRun: char -> bool, c: char)
    ensures forall i :: 0 <= i < |ReplaceRuns(s, inRun, c)| ==>
      ReplaceRuns(s, inRun, c)[i] == c || (ReplaceRuns(s, inRun, c)[i] in s && !inRun(ReplaceRuns(s, inRun, c)[i]))
  {
    if |s| > 0 {
      ReplaceRunsChars(s[1..], inRun, c);
      var head := if inRun(s[0]) then (if |s| > 1 && inRun(s[1]) then [] else [c]) else [s[0]];
      var r := ReplaceRuns(s, inRun, c);
      assert r == head + ReplaceRuns(s[1..], inRun, c);
      forall i | 0 <= i < |r|
        ensures r[i] == c || (r[i] in s && !inRun(r[i]))
      {
        if i >= |head| {
          assert r[i] == ReplaceRuns(s[1..], inRun, c)[i - |head|];
          assert forall x :: x in s[1..] ==> x in s;
        }
      }
    }
  }

  lemma DashWhitespaceChars(s: String)
    requires forall i :: 0 <= i < |s| ==> Allowed(s[i])
    ensures AllSlugChars(DashWhitespace(s))
  {
    ReplaceRunsChars(s, IsWs, '-');
  }

  /** The first character `ReplaceRuns` emits for a string that starts
      outside the class is that character. */
  lemma ReplaceRunsHead(s: String, inRun: char -> bool, c: char)
    requires |s| > 0 && !inRun(s[0])
    ensures |ReplaceRuns(s, inRun, c)| > 0 && ReplaceRuns(s, inRun, c)[0] == s[0]
  {
  }

  /** Collapsing leaves no two dashes side by side. */
  lemma {:induction false} CollapseNoDoubleDash(s: String)
    ensures NoDoubleDash(CollapseDashes(s))
  {
    if |s| > 0 {
      CollapseNoDoubleDash(s[1..]);
      var tail := CollapseDashes(s[1..]);
      var r := CollapseDashes(s);
      if s[0] == '-' && !(|s| > 1 && s[1] == '-') {
        assert r == ['-'] + tail;
        if |s| > 1 {
          ReplaceRunsHead(s[1..], IsDash, '-');
          assert tail[0] == s[1];
        }
      } else {
        assert r == [] + tail || r == [s[0]] + tail;
        assert r == tail || (r == [s[0]] + tail && s[0] != '-');
      }
    }
  }

  lemma CollapseDashesShape(s: String)
    requires AllSlugChars(s)
    ensures AllSlugChars(CollapseDashes(s)) && NoDoubleDash(CollapseDashes(s))
  {
    ReplaceRunsChars(s, IsDash, '-');
    CollapseNoDoubleDash(s);
  }

  lemma TrimDashesShape(s: String)
    requires AllSlugChars(s) && NoDoubleDash(s)
    ensures IsSlug(TrimDashes(s))
  {
    var t := if |s| > 0 && s[0] == '-' then s[1..] else s;
    assert AllSlugChars(t) && NoDoubleDash(t);
    if |s| > 1 && s[0] == '-' {
      assert !(s[0] == '-' && s[1] == '-');
    }
    var r := TrimDashes(s);
    if |t| > 0 && t[|t| - 1] == '-' {
      assert r == t[..|t| - 1];
      if |r| > 0 {
        assert r[|r| - 1] == t[|t| - 2];
      }
    }
  }

  // ---------------------------------------------------------------------
  // Idempotence
  // ---------------------------------------------------------------------

  /** `ReplaceRuns` leaves a string alone when the class does not occur in
      it, or occurs only as lone `c` characters. */
  lemma {:induction false} ReplaceRunsIdentity(s: String, inRun: char -> bool, c: char)
    requires forall i :: 0 <= i < |s| ==> inRun(s[i]) ==> s[i] == c
    requires forall i :: 0 <= i < |s| - 1 ==> !(inRun(s[i]) && inRun(s[i + 1]))
    ensures ReplaceRuns(s, inRun, c) == s
  {
    if |s| > 0 {
      ReplaceRunsIdentity(s[1..], inRun, c);
      assert s == [s[0]] + s[1..];
    }
  }

  lemma GenerateSlugOfSlug(u: String)
    requires IsSlug(u)
    ensures GenerateSlug(u) == u
  {
    assert Lower(u) == u;
    FilterKeepsAll(u, Allowed);
    ReplaceRunsIdentity(u, IsWs, '-');
    ReplaceRunsIdentity(u, IsDash, '-');
  }

  /** `generateSlug` is idempotent. */
  lemma GenerateSlugIdempotent(title: String)
    ensures GenerateSlug(GenerateSlug(title)) == GenerateSlug(title)
  {
    GenerateSlugOfSlug(GenerateSlug(title));
  }

  // ---------------------------------------------------------------------
  // Letters and digits survive
  // ---------------------------------------------------------------------

  lemma {:induction false} FilterOfFilter(s: String, keep: char -> bool, q: char -> bool)
    requires forall x :: q(x) ==> keep(x)
    ensures Filter(Filter(s, keep), q) == Filter(s, q)
  {
    if |s| > 0 {
      FilterOfFilter(s[1..], keep, q);
      var head := if keep(s[0]) then [s[0]] else [];
      FilterConcat(head, Filter(s[1..], keep), q);
    }
  }

  /** The letters and digits of the input come out of `ReplaceRuns` in
      order when neither the class nor `c` is one of them. */
  lemma {:induction false} ReplaceRunsKeepsAlnum(s: String, inRun: char -> bool, c: char)
    requires forall x :: inRun(x) ==> !IsLowerAlnum(x)
    requires !IsLowerAlnum(c)
    ensures Filter(ReplaceRuns(s, inRun, c), IsLowerAlnum) == Filter(s, IsLowerAlnum)
  {
    if |s| > 0 {
      ReplaceRunsKeepsAlnum(s[1..], inRun, c);
      var head := if inRun(s[0]) then (if |s| > 1 && inRun(s[1]) then [] else [c]) else [s[0]];
      FilterConcat(head, ReplaceRuns(s[1..], inRun, c), IsLowerAlnum);
      assert s == [s[0]] + s[1..];
      FilterConcat([s[0]], s[1..], IsLowerAlnum);
    }
  }

  lemma TrimDashesKeepsAlnum(s: String)
    ensures Filter(TrimDashes(s), IsLowerAlnum) == Filter(s, IsLowerAlnum)
  {
    var t := if |s| > 0 && s[0] == '-' then s[1..] else s;
    if |s| > 0 && s[0] == '-' {
      assert s == ['-'] + t;
      FilterConcat(['-'], t, IsLowerAlnum);
    }
    if |t| > 0 && t[|t| - 1] == '-' {
      assert t == t[..|t| - 1] + ['-'];
      FilterConcat(t[..|t| - 1], ['-'], IsLowerAlnum);
    }
  }

  /** The slug holds exactly the title's letters and digits, lower-cased,
      in order. */
  lemma GenerateSlugKeepsAlnum(title: String)
    ensures Filter(GenerateSlug(title), IsLowerAlnum) == Filter(Lower(title), IsLowerAlnum)
  {
    var s1 := Lower(title);
    var s2 := Strip(s1);
    var s3 := DashWhitespace(s2);
    var s4 := CollapseDashes(s3);
    FilterOfFilter(s1, Allowed, IsLowerAlnum);
    ReplaceRunsKeepsAlnum(s2, IsWs, '-');
    ReplaceRunsKeepsAlnum(s3, IsDash, '-');
    TrimDashesKeepsAlnum(s4);
  }

  lemma FilterEmpty(s: String, q: char -> bool)
    ensures Filter(s, q) == [] <==> forall i :: 0 <= i < |s| ==> !q(s[i])
  {
    if Filter(s, q) != [] {
      var x := Filter(s, q)[0];
      FilterMembers(s, q, x);
    } else {
      forall i | 0 <= i < |s|
        ensures !q(s[i])
      {
        FilterMembers(s, q, s[i]);
      }
    }
  }

  /** The slug is empty exactly when the title has no ASCII letter or
      digit. */
  lemma GenerateSlugEmpty(title: String)
    ensures GenerateSlug(title) == [] <==> forall i :: 0 <= i < |title| ==> !IsAsciiAlnum(title[i])
  {
    var slug := GenerateSlug(title);
    GenerateSlugKeepsAlnum(title);
    FilterEmpty(slug, IsLowerAlnum);
    FilterEmpty(Lower(title), IsLowerAlnum);
    if slug != [] {
      assert IsLowerAlnum(slug[0]);
    }
  }

  // ---------------------------------------------------------------------
  // The date stamp
  // ---------------------------------------------------------------------

  /** `String(n).padStart(2, '0')`. */
  function Pad2(n: nat): (r: String)
    ensures AllDigits(r) && DigitsValue(r) == n
    ensures n < 100 ==> |r| == 2
  {
    var s := NatToString(n);
    if n < 10 then
      NatToStringLength(n, 1);
      assert DigitsValue("0" + s) == DigitsValue(s) by {
        assert ("0" + s)[1..] == s;
      }
      "0" + s
    else if n < 100 then
      NatToStringLength(n, 2);
      s
    else s
  }

  lemma {:induction false} NatToStringLength(n: nat, k: nat)
    requires k >= 1 && (k == 1 || Pow10(k - 1) <= n) && n < Pow10(k)
    ensures |NatToString(n)| == k
  {
    if k > 1 {
      var p := Pow10(k - 2);
      assert Pow10(k - 1) == 10 * p && Pow10(k) == 10 * Pow10(k - 1);
      assert n / 10 < Pow10(k - 1);
      assert k - 1 == 1 || Pow10(k - 2) <= n / 10;
      NatToStringLength(n / 10, k - 1);
    }
  }

  /** `getTodayDate()` from the clock's local calendar fields:
      `getFullYear()`, `getMonth()` (0-based) and `getDate()`. */
  function TodayDate(year: nat, monthIndex: nat, day: nat): (date: String)
    ensures |date| >= 7
    ensures monthIndex < 99 && day < 100 ==> |date| == |NatToString(year)| + 6
  {
    NatToString(year) + "-" + Pad2(monthIndex + 1) + "-" + Pad2(day)
  }

  /** For a four-digit year the stamp is a well-formed date that
      `parseDate` reads back as the same calendar day. */
  lemma TodayDateRoundTrip(year: nat, monthIndex: nat, day: nat)
    requires 1000 <= year <= 9999 && ValidCivil(year, monthIndex + 1, day)
    ensures WellFormedDate(TodayDate(year, monthIndex, day))
    ensures YearOf(TodayDate(year, monthIndex, day)) == year
    ensures MonthOf(TodayDate(year, monthIndex, day)) == monthIndex + 1
    ensures DayOf(TodayDate(year, monthIndex, day)) == day
    ensures ParseDate(TodayDate(year, monthIndex, day)) == Some(EpochMs(year, monthIndex + 1, day))
  {
    var y := NatToString(year);
    var m := Pad2(monthIndex + 1);
    var d := Pad2(day);
    NatToStringLength(year, 4);
    var s := TodayDate(year, monthIndex, day);
    assert s == y + "-" + m + "-" + d;
    assert s[..4] == y && s[4] == '-' && s[5..7] == m && s[7] == '-' && s[8..] == d;
  }

  // ---------------------------------------------------------------------
  // The script
  // ---------------------------------------------------------------------

  /** What the script does with a title: it refuses a blank one, and
      otherwise writes the template to `posts/<slug>.md`. */
  datatype Outcome = TitleRequired | Created(filename: String, content: String)

  /** The file written for a new post. The title is used as typed, while
      the slug comes from the trimmed title. */
  function Template(date: String, title: String, slug: String): (content: String)
    ensures |content| > 10 + |date| && content[..10] == "---\ndate: " && content[10..10 + |date|] == date
    ensures content[10 + |date|] == '\n'
  {
    "---\ndate: " + date + "\ntitle: " + title + "\nslug: " + slug +
    "\ndescription: \nwip: true\n# tags:\n#   - tag1\n#   - tag2\n---\n\n"
  }

  function NewPost(title: String, year: nat, monthIndex: nat, day: nat): (r: Outcome)
    ensures r == TitleRequired <==> AllWs(title)
    ensures r.Created? ==> r.filename == Posts.PostPath(GenerateSlug(Trim(title)))
  {
    if |Trim(title)| == 0 then
      TrimOfBlank(title);
      TitleRequired
    else
      var slug := GenerateSlug(Trim(title));
      assert !AllWs(title) by {
        if AllWs(title) {
          TrimOfBlank(title);
        }
      }
      Created("posts/" + slug + ".md", Template(TodayDate(year, monthIndex, day), title, slug))
  }

  /** `title.trim()` is empty exactly for an all-whitespace title. */
  lemma TrimOfBlank(s: String)
    ensures |Trim(s)| == 0 <==> AllWs(s)
  {
    var l, r := TrimParts(s);
    if |Trim(s)| == 0 {
      assert s == l + r;
      forall i | 0 <= i < |s|
        ensures IsWs(s[i])
      {
        if i < |l| { assert s[i] == l[i]; } else { assert s[i] == r[i - |l|]; }
      }
    } else {
      assert s[|l|] == Trim(s)[0];
    }
  }

  /** The file the script creates is the one the post loader reads for the
      same slug, and for a four-digit year its first frontmatter line holds
      a date the post lists can order: `parseDate` reads it as the day the
      script ran. */
  lemma NewPostIsLoadable(title: String, year: nat, monthIndex: nat, day: nat)
    requires !AllWs(title)
    requires 1000 <= year <= 9999 && ValidCivil(year, monthIndex + 1, day)
    ensures NewPost(title, year, monthIndex, day).Created?
    ensures NewPost(title, year, monthIndex, day).filename == Posts.PostPath(GenerateSlug(Trim(title)))
    ensures var c := NewPost(title, year, monthIndex, day).content;
      |c| > 20 && c[..10] == "---\ndate: " && c[20] == '\n' &&
      ParseDate(c[10..20]) == Some(EpochMs(year, monthIndex + 1, day))
  {
    TodayDateRoundTrip(year, monthIndex, day);
  }

  /** A title with no letter or digit passes the guard yet yields an empty
      slug, so the script writes the hidden file `posts/.md`. */
  lemma NoAlnumTitleGivesEmptySlug(title: String, year: nat, monthIndex: nat, day: nat)
    requires !AllWs(title)
    requires forall i :: 0 <= i < |title| ==> !IsAsciiAlnum(title[i])
    ensures NewPost(title, year, monthIndex, day).Created?
    ensures NewPost(title, year, monthIndex, day).filename == "posts/.md"
  {
    var t := Trim(title);
    TrimNoAlnum(title);
    GenerateSlugEmpty(t);
    TrimOfBlank(title);
    assert Posts.PostPath([]) == "posts/.md";
  }

  lemma TrimNoAlnum(title: String)
    requires forall i :: 0 <= i < |title| ==> !IsAsciiAlnum(title[i])
    ensures forall i :: 0 <= i < |Trim(title)| ==> !IsAsciiAlnum(Trim(title)[i])
  {
    var l, r := TrimParts(title);
    var t := Trim(title);
    forall i | 0 <= i < |t|
      ensures !IsAsciiAlnum(t[i])
    {
      assert t[i] == title[|l| + i];
    }
  }
}
