/** content-collections.ts: the `posts` collection. A document is accepted
    when its fields fit the schema; the transform then builds the record
    every view reads. The frontmatter split (gray-matter) is a parameter. */
module Collection {
  import opened Base
  import opened Text
  import opened ReadingTime
  import opened Posts

  /** The fields the schema declares; zod drops every other key. */
  const SchemaKeys: set<String> := {"title", "date", "description", "slug", "tags", "wip", "content"}

  predicate IsString(v: FmValue) {
    v.FmString?
  }

  predicate IsStringList(v: FmValue) {
    v.FmList? && forall i :: 0 <= i < |v.items| ==> v.items[i].FmString?
  }

  /** `z.object({...})`: the four strings, a string list of tags, an
      optional boolean `wip` and the string `content`. */
  predicate Accepted(fields: Frontmatter) {
    && "title" in fields && IsString(fields["title"])
    && "date" in fields && IsString(fields["date"])
    && "description" in fields && IsString(fields["description"])
    && "slug" in fields && IsString(fields["slug"])
    && "tags" in fields && IsStringList(fields["tags"])
    && ("wip" in fields ==> fields["wip"].FmBool?)
    && "content" in fields && IsString(fields["content"])
  }

  /** A document that passed the schema. */
  datatype Document = Document(
    title: String,
    date: String,
    description: String,
    slug: String,
    tags: seq<String>,
    wip: Option<bool>,
    content: String)

  function Strings(vs: seq<FmValue>): (ss: seq<String>)
    requires forall i :: 0 <= i < |vs| ==> vs[i].FmString?
    ensures |ss| == |vs| && forall i :: 0 <= i < |vs| ==> vs[i] == FmString(ss[i])
  {
    if |vs| == 0 then [] else [vs[0].s] + Strings(vs[1..])
  }

  function StringValues(ss: seq<String>): (vs: seq<FmValue>)
    ensures |vs| == |ss| && forall i :: 0 <= i < |ss| ==> vs[i] == FmString(ss[i])
  {
    if |ss| == 0 then [] else [FmString(ss[0])] + StringValues(ss[1..])
  }

  /** Schema validation: a typed document, or `None` when zod rejects. */
  function Validate(fields: Frontmatter): (r: Option<Document>)
    ensures r.Some? <==> Accepted(fields)
    ensures r.Some? ==> fields["title"] == FmString(r.value.title) && fields["slug"] == FmString(r.value.slug)
    ensures r.Some? ==> (r.value.wip.Some? <==> "wip" in fields)
  {
    if Accepted(fields) then
      Some(Document(
        fields["title"].s, fields["date"].s, fields["description"].s, fields["slug"].s,
        Strings(fields["tags"].items),
        if "wip" in fields then Some(fields["wip"].b) else None,
        fields["content"].s))
    else None
  }

  /** The fields a document is read back from. */
  function Encode(d: Document): (fields: Frontmatter)
    ensures fields.Keys <= SchemaKeys
  {
    var base := map[
      "title" := FmString(d.title), "date" := FmString(d.date),
      "description" := FmString(d.description), "slug" := FmString(d.slug),
      "tags" := FmList(StringValues(d.tags)), "content" := FmString(d.content)];
    if d.wip.Some? then base["wip" := FmBool(d.wip.value)] else base
  }

  lemma {:induction false} StringsOfValues(ss: seq<String>)
    ensures Strings(StringValues(ss)) == ss
  {
    if |ss| > 0 {
      assert StringValues(ss)[1..] == StringValues(ss[1..]);
      StringsOfValues(ss[1..]);
    }
  }

  lemma {:induction false} ValuesOfStrings(vs: seq<FmValue>)
    requires forall i :: 0 <= i < |vs| ==> vs[i].FmString?
    ensures StringValues(Strings(vs)) == vs
  {
    if |vs| > 0 {
      ValuesOfStrings(vs[1..]);
      assert Strings(vs)[1..] == Strings(vs[1..]);
    }
  }

  /** Every document is accepted in its own encoding and read back as it
      was. */
  lemma ValidateEncode(d: Document)
    ensures Validate(Encode(d)) == Some(d)
  {
    EncodeFields(d);
    StringsOfValues(d.tags);
  }

  /** What each schema key of an encoding holds. */
  lemma EncodeFields(d: Document)
    ensures var f := Encode(d);
      && "title" in f && f["title"] == FmString(d.title)
      && "date" in f && f["date"] == FmString(d.date)
      && "description" in f && f["description"] == FmString(d.description)
      && "slug" in f && f["slug"] == FmString(d.slug)
      && "tags" in f && f["tags"] == FmList(StringValues(d.tags))
      && "content" in f && f["content"] == FmString(d.content)
      && ("wip" in f <==> d.wip.Some?)
      && (d.wip.Some? ==> f["wip"] == FmBool(d.wip.value))
  {
  }

  /** Conversely, an accepted field map is, after zod drops the keys the
      schema does not name, the encoding of what it validates to. */
  lemma EncodeValidate(fields: Frontmatter)
    requires Accepted(fields)
    ensures Encode(Validate(fields).value) == map k | k in fields && k in SchemaKeys :: fields[k]
  {
    ValuesOfStrings(fields["tags"].items);
  }

  /** The record the collection exports. `test` is the property the feed
      and the home route read; the transform never sets it. */
  datatype CollectionPost = CollectionPost(
    title: String,
    date: String,
    description: String,
    slug: String,
    tags: seq<String>,
    wip: Option<bool>,
    test: Option<bool>,
    content: String,
    readingTime: nat)

  /** The naive reading time of the transform, inlined in the source. */
  function PieceReadingTime(body: String): (minutes: nat)
    ensures minutes >= 1
  {
    CeilDiv(|Split(body)|, 200)
  }

  /** `transform(document)`, where `metaPath` is `document._meta.path`, the
      file name without its extension. */
  function Transform(d: Document, metaPath: String, matter: String -> Step<Matter>): (r: Step<CollectionPost>)
    ensures r.Done? <==> matter(d.content).Done?
    ensures r.Raised? ==> r.err == matter(d.content).err
    ensures r.Done? ==> r.value.slug == metaPath && r.value.test == None
    ensures r.Done? ==> r.value.content == matter(d.content).value.content
    ensures r.Done? ==> r.value.readingTime >= 1
  {
    match matter(d.content)
    case Raised(e) => Raised(e)
    case Done(m) =>
      Done(CollectionPost(d.title, d.date, d.description, metaPath, d.tags, d.wip, None,
        m.content, PieceReadingTime(m.content)))
  }

  /** The transform's reading time is the loader's `calculateReadingTime`
      of the same body. */
  lemma TransformReadingTimeIsNaive(d: Document, metaPath: String, matter: String -> Step<Matter>)
    requires matter(d.content).Done?
    ensures Transform(d, metaPath, matter).value.readingTime ==
      CalculateReadingTime(matter(d.content).value.content)
  {
  }

  /** The slug comes from the file name, never from the `slug` field, and
      the other fields pass through unchanged. */
  lemma TransformFields(d: Document, metaPath: String, matter: String -> Step<Matter>)
    requires matter(d.content).Done?
    ensures var p := Transform(d, metaPath, matter).value;
      p.title == d.title && p.date == d.date && p.description == d.description &&
      p.tags == d.tags && p.wip == d.wip && p.slug == metaPath
    ensures forall other: String :: Transform(d.(slug := other), metaPath, matter) == Transform(d, metaPath, matter)
  {
  }
}
