/** validate_feeds.py: `validate_xml(content, feed_type)`. XML parsing is
    ElementTree's; the model receives its outcome, the root element or
    `None` for a parse error. The messages the function prints are left
    out except the warnings about the first item or entry, which the
    verdict carries so that it can be shown that they never fail it. */
module FeedValidator {
  import opened Base
  import opened Text

  /** An XML element: its tag (namespaced tags in ElementTree's
      `{uri}local` form), attributes and child elements. */
  datatype Xml = Xml(tag: String, attrs: map<String, String>, children: seq<Xml>)

  /** The boolean `validate_xml` returns, and the names it warned about. */
  datatype Verdict = Verdict(valid: bool, warnings: seq<String>)

  const AtomNs: String := "{http://www.w3.org/2005/Atom}"

  /** RSS 2.0 "Required channel elements", checked in this order. */
  const ChannelRequired: seq<String> := ["title", "link", "description"]
  const ItemRequired: seq<String> := ["title", "link", "description"]

  /** RFC 4287 section 4.1.1 (feed) and section 4.1.2 (entry) elements the
      script looks for. */
  const FeedRequired: seq<String> := ["id", "title", "updated"]
  const EntryRequired: seq<String> := ["title", "id", "updated"]

  function TagOf(e: Xml): String {
    e.tag
  }

  predicate HasChild(e: Xml, tag: String) {
    exists i :: 0 <= i < |e.children| && e.children[i].tag == tag
  }

  /** `e.find(tag)` for a plain tag: the first child element with that tag. */
  function Find(e: Xml, tag: String): (r: Option<Xml>)
    ensures r.Some? <==> HasChild(e, tag)
    ensures r.Some? ==> r.value in e.children && r.value.tag == tag
    ensures r.Some? ==>
      exists i :: 0 <= i < |e.children| && r.value == e.children[i] &&
        forall k :: 0 <= k < i ==> e.children[k].tag != tag
  {
    var i := FindIndex(e.children, TagOf, tag);
    if i >= 0 then
      assert e.children[i].tag == tag;
      assert forall k :: 0 <= k < i ==> TagOf(e.children[k]) != tag;
      Some(e.children[i])
    else None
  }

  /** The names in `names` with no child `prefix + name`, in order. */
  function Missing(e: Xml, prefix: String, names: seq<String>): (ms: seq<String>)
    ensures |ms| <= |names|
    ensures forall n :: n in ms <==> n in names && !HasChild(e, prefix + n)
  {
    if |names| == 0 then []
    else
      (if Find(e, prefix + names[0]).None? then [names[0]] else [])
      + Missing(e, prefix, names[1..])
  }

  /** The loop `for elem in required: if x.find(elem) is None: return False`. */
  function AllFound(e: Xml, prefix: String, names: seq<String>): (ok: bool)
    ensures ok <==> forall i :: 0 <= i < |names| ==> HasChild(e, prefix + names[i])
  {
    if |names| == 0 then true
    else if Find(e, prefix + names[0]).None? then false
    else AllFound(e, prefix, names[1..])
  }

  lemma AllFoundThree(e: Xml, prefix: String, a: String, b: String, c: String)
    ensures AllFound(e, prefix, [a, b, c]) <==>
      HasChild(e, prefix + a) && HasChild(e, prefix + b) && HasChild(e, prefix + c)
  {
    var names := [a, b, c];
    assert names[0] == a && names[1] == b && names[2] == c;
    if HasChild(e, prefix + a) && HasChild(e, prefix + b) && HasChild(e, prefix + c) {
      assert forall i :: 0 <= i < |names| ==> HasChild(e, prefix + names[i]);
    }
  }

  /** The warnings for the first child `itemTag`, if there is one. */
  function FirstWarnings(parent: Xml, prefix: String, itemTag: String, required: seq<String>): (ws: seq<String>)
    ensures !HasChild(parent, itemTag) ==> ws == []
  {
    match Find(parent, itemTag)
    case None => []
    case Some(first) => Missing(first, prefix, required)
  }

  function ValidateRss(root: Xml): (v: Verdict)
    ensures v.valid <==> RssConforms(root)
    ensures !v.valid ==> v.warnings == []
  {
    if root.tag != "rss" then Verdict(false, [])
    else if Attr(root, "version") != Some("2.0") then Verdict(false, [])
    else match Find(root, "channel")
      case None => Verdict(false, [])
      case Some(channel) =>
        AllFoundThree(channel, "", "title", "link", "description");
        assert "" + "title" == "title" && "" + "link" == "link" && "" + "description" == "description";
        if !AllFound(channel, "", ChannelRequired) then Verdict(false, [])
        else Verdict(true, FirstWarnings(channel, "", "item", ItemRequired))
  }

  function ValidateAtom(root: Xml): (v: Verdict)
    ensures v.valid <==> AtomConforms(root)
    ensures !v.valid ==> v.warnings == []
  {
    AllFoundThree(root, AtomNs, "id", "title", "updated");
    if root.tag != AtomNs + "feed" then Verdict(false, [])
    else if !AllFound(root, AtomNs, FeedRequired) then Verdict(false, [])
    else Verdict(true, FirstWarnings(root, AtomNs, AtomNs + "entry", EntryRequired))
  }

  /** `root.get(name)`. */
  function Attr(e: Xml, name: String): Option<String> {
    if name in e.attrs then Some(e.attrs[name]) else None
  }

  /** A well-formed RSS 2.0 document as the script accepts it. */
  predicate RssConforms(root: Xml) {
    && root.tag == "rss"
    && "version" in root.attrs && root.attrs["version"] == "2.0"
    && HasChild(root, "channel")
    && HasChild(Find(root, "channel").value, "title")
    && HasChild(Find(root, "channel").value, "link")
    && HasChild(Find(root, "channel").value, "description")
  }

  /** A well-formed Atom document as the script accepts it. */
  predicate AtomConforms(root: Xml) {
    && root.tag == AtomNs + "feed"
    && HasChild(root, AtomNs + "id")
    && HasChild(root, AtomNs + "title")
    && HasChild(root, AtomNs + "updated")
  }

  /** `validate_xml(content, feed_type)` given the parse outcome. */
  function ValidateXml(parsed: Option<Xml>, feedType: String): (v: Verdict)
    ensures parsed.None? ==> !v.valid
    ensures parsed.Some? && feedType == "RSS" ==> (v.valid <==> RssConforms(parsed.value))
    ensures parsed.Some? && feedType == "Atom" ==> (v.valid <==> AtomConforms(parsed.value))
    ensures parsed.Some? && feedType != "RSS" && feedType != "Atom" ==> v.valid
    ensures !v.valid ==> v.warnings == []
  {
    match parsed
    case None => Verdict(false, [])
    case Some(root) =>
      if feedType == "RSS" then ValidateRss(root)
      else if feedType == "Atom" then ValidateAtom(root)
      else Verdict(true, [])
  }

  /** A first item missing fields only draws warnings: the feed stays
      valid, and the warnings name exactly the missing fields. */
  lemma ItemWarningsNeverInvalidate(root: Xml)
    requires RssConforms(root)
    ensures ValidateXml(Some(root), "RSS").valid
    ensures var channel := Find(root, "channel").value;
      HasChild(channel, "item") ==>
        forall n :: n in ValidateXml(Some(root), "RSS").warnings <==>
          n in ItemRequired && !HasChild(Find(channel, "item").value, n)
  {
    assert "" + "title" == "title" && "" + "link" == "link" && "" + "description" == "description";
  }

  lemma EntryWarningsNeverInvalidate(root: Xml)
    requires AtomConforms(root)
    ensures ValidateXml(Some(root), "Atom").valid
    ensures HasChild(root, AtomNs + "entry") ==>
      forall n :: n in ValidateXml(Some(root), "Atom").warnings <==>
        n in EntryRequired && !HasChild(Find(root, AtomNs + "entry").value, AtomNs + n)
  {
  }

  /** Presence is all that is checked: a channel whose required children
      are empty elements passes. */
  lemma EmptyChannelFieldsPass()
    ensures ValidateXml(Some(Xml("rss", map["version" := "2.0"], [
      Xml("channel", map[], [Xml("title", map[], []), Xml("link", map[], []), Xml("description", map[], [])])])),
      "RSS").valid
  {
    var channel := Xml("channel", map[], [Xml("title", map[], []), Xml("link", map[], []), Xml("description", map[], [])]);
    var root := Xml("rss", map["version" := "2.0"], [channel]);
    assert root.children[0].tag == "channel";
    assert channel.children[0].tag == "title";
    assert channel.children[1].tag == "link";
    assert channel.children[2].tag == "description";
  }

  /** An RSS document of another version is rejected. */
  lemma WrongRssVersionFails(root: Xml)
    requires root.tag == "rss" && "version" in root.attrs && root.attrs["version"] == "0.91"
    ensures !ValidateXml(Some(root), "RSS").valid
  {
  }
}
