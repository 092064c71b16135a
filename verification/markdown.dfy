/** src/utils/markdown.ts and src/components/Markdown.tsx: what the code
    does with the HTML tree the markdown pipeline produces. Parsing,
    heading ids and serialisation belong to libraries; the model starts
    from an abstract element tree:
    - the heading collector that `renderMarkdown` and `renderMarkdownSync`
      both install (the two are the same visitor, so one function models
      both);
    - the `a` and `img` components of `renderMarkdownToReact`;
    - the `replace` callback `Markdown` passes to html-react-parser. */
module Markdown {
  import opened Base
  import opened Text

  /** An HTML node: an element with its attributes (an absent key is an
      absent attribute) and children, or a text node. */
  datatype Node =
    | Element(tag: String, attrs: map<String, String>, children: seq<Node>)
    | TextNode(text: String)

  // ---------------------------------------------------------------------
  // Heading collector
  // ---------------------------------------------------------------------

  datatype Heading = Heading(id: String, text: String, level: nat)

  /** `/^h[1-6]$/`. */
  predicate IsHeadingTag(tag: String) {
    |tag| == 2 && tag[0] == 'h' && '1' <= tag[1] <= '6'
  }

  /** `String(element.properties?.id || '')`. */
  function IdOf(attrs: map<String, String>): String {
    if "id" in attrs then attrs["id"] else ""
  }

  /** `hast-util-to-string`: the text of every descendant text node, in
      document order. */
  function TextContent(ns: seq<Node>): String
    decreases ns
  {
    if |ns| == 0 then ""
    else
      (match ns[0]
       case TextNode(t) => t
       case Element(_, _, kids) => TextContent(kids))
      + TextContent(ns[1..])
  }

  /** A heading element the collector records: its tag is `h1`..`h6` and
      its id is non-empty. */
  predicate Recorded(n: Node) {
    n.Element? && IsHeadingTag(n.tag) && |IdOf(n.attrs)| > 0
  }

  /** The record pushed for a heading element; `level` is
      `parseInt(tagName.charAt(1), 10)`. */
  function HeadingOf(n: Node): (h: Heading)
    requires Recorded(n)
    ensures 1 <= h.level <= 6 && |h.id| > 0
    ensures n.tag == ['h', DigitChar(h.level)]
    ensures h.id == IdOf(n.attrs) && h.text == TextContent(n.children)
  {
    var level := DigitValue(n.tag[1]);
    assert n.tag == ['h', DigitChar(level)];
    Heading(IdOf(n.attrs), TextContent(n.children), level)
  }

  /** `#`, `##` and `###` headings, rendered as `h1`, `h2` and `h3` with an
      id, are recorded at levels 1, 2 and 3. */
  lemma HeadingLevels(attrs: map<String, String>, kids: seq<Node>)
    requires "id" in attrs && |attrs["id"]| > 0
    ensures HeadingOf(Element("h1", attrs, kids)).level == 1
    ensures HeadingOf(Element("h2", attrs, kids)).level == 2
    ensures HeadingOf(Element("h3", attrs, kids)).level == 3
  {
    assert DigitChar(1) == '1' && DigitChar(2) == '2' && DigitChar(3) == '3';
  }

  /** `visit(tree, 'element', visitor)` over the children of the root: the
      visitor sees every element in pre-order and pushes one heading per
      recorded element. */
  function CollectHeadings(ns: seq<Node>): (hs: seq<Heading>)
    ensures forall h :: h in hs ==> 1 <= h.level <= 6 && |h.id| > 0
    decreases ns
  {
    if |ns| == 0 then []
    else
      var n := ns[0];
      var here := if Recorded(n) then [HeadingOf(n)] else [];
      var below := if n.Element? then CollectHeadings(n.children) else [];
      var rest := CollectHeadings(ns[1..]);
      assert forall h :: h in here + below + rest ==> h in here || h in below || h in rest;
      here + below + rest
  }

  /** Reference order: every element of the forest, each before its
      descendants and after its earlier siblings' subtrees. */
  function PreOrder(ns: seq<Node>): (es: seq<Node>)
    ensures forall i :: 0 <= i < |es| ==> es[i].Element?
    decreases ns
  {
    if |ns| == 0 then []
    else
      var n := ns[0];
      (if n.Element? then [n] + PreOrder(n.children) else []) + PreOrder(ns[1..])
  }

  /** The collected headings are exactly the recorded elements, in
      pre-order, each turned into its record. */
  lemma {:induction false} CollectHeadingsIsPreOrder(ns: seq<Node>)
    ensures CollectHeadings(ns) == Map(Filter(PreOrder(ns), Recorded), AsHeading)
    decreases ns
  {
    if |ns| > 0 {
      var n := ns[0];
      CollectHeadingsIsPreOrder(ns[1..]);
      if n.Element? {
        CollectHeadingsIsPreOrder(n.children);
        var sub := [n] + PreOrder(n.children);
        FilterConcat(sub, PreOrder(ns[1..]), Recorded);
        FilterConcat([n], PreOrder(n.children), Recorded);
        MapConcat(Filter(sub, Recorded), Filter(PreOrder(ns[1..]), Recorded), AsHeading);
        MapConcat(Filter([n], Recorded), Filter(PreOrder(n.children), Recorded), AsHeading);
        assert Filter([n], Recorded) == if Recorded(n) then [n] else [];
      } else {
        assert PreOrder(ns) == PreOrder(ns[1..]);
      }
    }
  }

  /** `HeadingOf` extended to every node, for use as a map function. */
  function AsHeading(n: Node): Heading {
    if Recorded(n) then HeadingOf(n) else Heading("", "", 0)
  }

  // ---------------------------------------------------------------------
  // React elements
  // ---------------------------------------------------------------------

  /** What the components hand to React. */
  datatype Rendered =
    | RouterLink(to: String, className: Option<String>, children: seq<Node>)
    | Anchor(href: Option<String>, className: Option<String>, children: seq<Node>)
    | LazyImg(src: Option<String>, alt: String, className: Option<String>)

  /** `href && href.startsWith('/')`. */
  predicate IsInternalHref(href: Option<String>) {
    href.Some? && |href.value| > 0 && href.value[0] == '/'
  }

  /** `CustomLink`: an internal href becomes a router link to the same
      path; any other href, absent included, stays a plain anchor. */
  function CustomLink(href: Option<String>, className: Option<String>, children: seq<Node>): (r: Rendered)
    ensures r.RouterLink? <==> IsInternalHref(href)
    ensures r.RouterLink? ==> Some(r.to) == href
    ensures r.Anchor? ==> r.href == href
    ensures !r.LazyImg? && r.className == className && r.children == children
  {
    if IsInternalHref(href) then RouterLink(href.value, className, children)
    else Anchor(href, className, children)
  }

  /** `CustomImg`: always lazy, `alt` defaulting to `''`. */
  function CustomImg(src: Option<String>, alt: Option<String>, className: Option<String>): (r: Rendered)
    ensures r.LazyImg? && r.src == src && r.className == className
    ensures alt.None? ==> r.alt == ""
    ensures alt.Some? ==> r.alt == alt.value
  {
    LazyImg(src, alt.GetOr(""), className)
  }

  // ---------------------------------------------------------------------
  // Markdown component
  // ---------------------------------------------------------------------

  function Attr(attrs: map<String, String>, key: String): Option<String> {
    if key in attrs then Some(attrs[key]) else None
  }

  /** An `a` element with a truthy href starting with `/`. */
  predicate IsInternalLink(n: Node) {
    n.Element? && n.tag == "a" && IsInternalHref(Attr(n.attrs, "href"))
  }

  /** An `img` element with a truthy `src`. */
  predicate IsSourcedImg(n: Node) {
    n.Element? && n.tag == "img" && "src" in n.attrs && |n.attrs["src"]| > 0
  }

  /** The `replace` callback: a replacement, or `None` for `undefined`,
      which leaves the node to the parser's default rendering. */
  function Replace(n: Node): (r: Option<Rendered>)
    ensures r.Some? <==> IsInternalLink(n) || IsSourcedImg(n)
    ensures r.Some? && IsInternalLink(n) ==>
      r.value == RouterLink(n.attrs["href"], Attr(n.attrs, "class"), n.children)
    ensures r.Some? && IsSourcedImg(n) ==>
      r.value.LazyImg? && r.value.src == Some(n.attrs["src"]) && r.value.className == Attr(n.attrs, "class")
  {
    if n.Element? && n.tag == "a" && "href" in n.attrs && |n.attrs["href"]| > 0 && n.attrs["href"][0] == '/' then
      Some(RouterLink(n.attrs["href"], Attr(n.attrs, "class"), n.children))
    else if n.Element? && n.tag == "img" && "src" in n.attrs && |n.attrs["src"]| > 0 then
      var alt := if "alt" in n.attrs && |n.attrs["alt"]| > 0 then n.attrs["alt"] else "";
      Some(LazyImg(Some(n.attrs["src"]), alt, Attr(n.attrs, "class")))
    else None
  }

  /** On an internal link `replace` builds what `CustomLink` builds. */
  lemma ReplaceAgreesWithCustomLink(n: Node)
    requires IsInternalLink(n)
    ensures Replace(n) == Some(CustomLink(Attr(n.attrs, "href"), Attr(n.attrs, "class"), n.children))
  {
  }

  /** On an image with a source `replace` builds what `CustomImg` builds:
      `alt || ''` and a default of `''` agree on every string. */
  lemma ReplaceAgreesWithCustomImg(n: Node)
    requires IsSourcedImg(n)
    ensures Replace(n) == Some(CustomImg(Attr(n.attrs, "src"), Attr(n.attrs, "alt"), Attr(n.attrs, "class")))
  {
  }

  /** Where the two renderers part: an `img` without `src` is left alone by
      `replace` but still made lazy by `CustomImg`. */
  lemma SourcelessImgDiffers(attrs: map<String, String>)
    requires "src" !in attrs
    ensures Replace(Element("img", attrs, [])) == None
    ensures CustomImg(None, Attr(attrs, "alt"), Attr(attrs, "class")).LazyImg?
  {
  }

  /** An anchor whose href is absent, empty or external is left alone by
      `replace` and stays a plain anchor with the same href under
      `CustomLink`. */
  lemma ExternalLinkUntouched(attrs: map<String, String>, children: seq<Node>)
    requires !IsInternalHref(Attr(attrs, "href"))
    ensures Replace(Element("a", attrs, children)) == None
    ensures CustomLink(Attr(attrs, "href"), Attr(attrs, "class"), children) ==
      Anchor(Attr(attrs, "href"), Attr(attrs, "class"), children)
  {
  }
}
