/** src/lib/posts.ts: `getPostBySlug`. Reading the file, splitting off
    the frontmatter (gray-matter) and rendering the body (marked) are
    library or system calls; the model receives them as an `Io` record of
    functions, each of which either returns a value or raises an error. */
module Posts {
  import opened Base
  import opened Text
  import opened ReadingTime

  /** A frontmatter value as gray-matter's YAML loader produces it. Dates
      written as bare `YYYY-MM-DD` load as Date objects. */
  datatype FmValue =
    | FmString(s: String)
    | FmBool(b: bool)
    | FmNumber(n: int)
    | FmDate(ms: int)
    | FmList(items: seq<FmValue>)
    | FmNull

  /** JavaScript truthiness: the empty string, `false`, `0` and `null` are
      falsy; every object (a Date or an array, even an empty one) is truthy. */
  predicate Truthy(v: FmValue) {
    match v
    case FmString(s) => |s| > 0
    case FmBool(b) => b
    case FmNumber(n) => n != 0
    case FmDate(_) => true
    case FmList(_) => true
    case FmNull => false
  }

  /** A frontmatter object: only the keys present in the file. */
  type Frontmatter = map<String, FmValue>

  /** `data.key || fallback`: an absent key reads as `undefined`. */
  function OrDefault(data: Frontmatter, key: String, fallback: FmValue): (v: FmValue)
    ensures key in data && Truthy(data[key]) ==> v == data[key]
    ensures !(key in data && Truthy(data[key])) ==> v == fallback
  {
    if key in data && Truthy(data[key]) then data[key] else fallback
  }

  /** A thrown error, with Node's `code` property when it has one. */
  datatype Error = Error(code: Option<String>, message: String)

  const ENOENT: String := "ENOENT"

  predicate IsNotFound(e: Error) {
    e.code == Some(ENOENT)
  }

  /** The outcome of a call that may throw. */
  datatype Step<T> = Done(value: T) | Raised(err: Error)

  /** gray-matter's result: the parsed frontmatter and the body after it. */
  datatype Matter = Matter(data: Frontmatter, content: String)

  /** The calls `getPostBySlug` makes into code outside the model. */
  datatype Io = Io(
    read: String -> Step<String>,
    matter: String -> Step<Matter>,
    marked: String -> Step<String>)

  /** `join(process.cwd(), 'posts', slug + '.md')`, relative to the working
      directory. */
  function PostPath(slug: String): (path: String)
    ensures |path| == |slug| + 9
    ensures path[..6] == "posts/" && path[6..|path| - 3] == slug && path[|path| - 3..] == ".md"
  {
    "posts/" + slug + ".md"
  }

  /** A post as `getPostBySlug` returns it. The frontmatter fields keep
      whatever value the YAML gave them once it is truthy. */
  datatype Post = Post(
    slug: String,
    title: FmValue,
    date: FmValue,
    description: FmValue,
    tags: FmValue,
    content: String,
    readingTime: nat)

  /** `Post | null`, or the error the call throws. */
  datatype LoadResult = Found(post: Post) | Null | Thrown(err: Error)

  /** The post record built once every step has succeeded. */
  function BuildPost(slug: String, m: Matter, html: String): (p: Post)
    ensures p.slug == slug && p.content == html
    ensures p.readingTime == CalculateReadingTime(m.content)
    ensures p.title == OrDefault(m.data, "title", FmString(""))
    ensures p.date == OrDefault(m.data, "date", FmString(""))
    ensures p.description == OrDefault(m.data, "description", FmString(""))
    ensures p.tags == OrDefault(m.data, "tags", FmList([]))
  {
    Post(slug,
      OrDefault(m.data, "title", FmString("")),
      OrDefault(m.data, "date", FmString("")),
      OrDefault(m.data, "description", FmString("")),
      OrDefault(m.data, "tags", FmList([])),
      html,
      CalculateReadingTime(m.content))
  }

  /** The `catch` clause: ENOENT becomes `null`, anything else propagates. */
  function Catch(e: Error): (r: LoadResult)
    ensures r.Null? <==> IsNotFound(e)
    ensures r.Thrown? <==> !IsNotFound(e)
    ensures r.Thrown? ==> r.err == e
  {
    if IsNotFound(e) then Null else Thrown(e)
  }

  /** `getPostBySlug(slug)`. */
  function GetPostBySlug(io: Io, slug: String): (r: LoadResult)
    ensures r.Found? ==> r.post.slug == slug && r.post.readingTime >= 1
  {
    match io.read(PostPath(slug))
    case Raised(e) => Catch(e)
    case Done(file) =>
      match io.matter(file)
      case Raised(e) => Catch(e)
      case Done(m) =>
        match io.marked(m.content)
        case Raised(e) => Catch(e)
        case Done(html) => Found(BuildPost(slug, m, html))
  }

  /** The first error among the three steps, if any. */
  function FirstFailure(io: Io, slug: String): Option<Error> {
    match io.read(PostPath(slug))
    case Raised(e) => Some(e)
    case Done(file) =>
      match io.matter(file)
      case Raised(e) => Some(e)
      case Done(m) =>
        match io.marked(m.content)
        case Raised(e) => Some(e)
        case Done(_) => None
  }

  /** Error classification: a post is returned exactly when no step fails;
      `null` exactly when the first failure is ENOENT; and any other first
      failure is rethrown unchanged. */
  lemma LoadOutcomes(io: Io, slug: String)
    ensures GetPostBySlug(io, slug).Found? <==> FirstFailure(io, slug).None?
    ensures GetPostBySlug(io, slug).Null? <==>
      FirstFailure(io, slug).Some? && IsNotFound(FirstFailure(io, slug).value)
    ensures GetPostBySlug(io, slug).Thrown? <==>
      FirstFailure(io, slug).Some? && !IsNotFound(FirstFailure(io, slug).value)
    ensures GetPostBySlug(io, slug).Thrown? ==>
      GetPostBySlug(io, slug).err == FirstFailure(io, slug).value
  {
  }

  /** The file read is `posts/<slug>.md`: two loaders whose readers agree on
      that one path give the same result, whatever they do elsewhere. */
  lemma ReadsOnlyPostPath(io1: Io, io2: Io, slug: String)
    requires io1.read(PostPath(slug)) == io2.read(PostPath(slug))
    requires io1.matter == io2.matter && io1.marked == io2.marked
    ensures GetPostBySlug(io1, slug) == GetPostBySlug(io2, slug)
  {
  }

  /** The returned slug is the requested one, whatever the frontmatter's
      own `slug` field says; the fields default as `||` does. */
  lemma FoundPostFields(io: Io, slug: String, file: String, m: Matter, html: String)
    requires io.read(PostPath(slug)) == Done(file)
    requires io.matter(file) == Done(m)
    requires io.marked(m.content) == Done(html)
    ensures GetPostBySlug(io, slug).Found?
    ensures GetPostBySlug(io, slug).post.slug == slug
    ensures GetPostBySlug(io, slug).post.content == html
    ensures !("title" in m.data && Truthy(m.data["title"])) ==> GetPostBySlug(io, slug).post.title == FmString("")
    ensures !("date" in m.data && Truthy(m.data["date"])) ==> GetPostBySlug(io, slug).post.date == FmString("")
    ensures !("description" in m.data && Truthy(m.data["description"])) ==> GetPostBySlug(io, slug).post.description == FmString("")
    ensures "tags" !in m.data ==> GetPostBySlug(io, slug).post.tags == FmList([])
    ensures "title" in m.data && Truthy(m.data["title"]) ==> GetPostBySlug(io, slug).post.title == m.data["title"]
    ensures "date" in m.data && Truthy(m.data["date"]) ==> GetPostBySlug(io, slug).post.date == m.data["date"]
    ensures "description" in m.data && Truthy(m.data["description"]) ==>
      GetPostBySlug(io, slug).post.description == m.data["description"]
    ensures "tags" in m.data && Truthy(m.data["tags"]) ==> GetPostBySlug(io, slug).post.tags == m.data["tags"]
    ensures "tags" in m.data && !Truthy(m.data["tags"]) ==> GetPostBySlug(io, slug).post.tags == FmList([])
  {
  }

  /** The reading time is that of the raw body after the frontmatter,
      never of the rendered HTML: renderers that produce different markup
      give the same reading time. */
  lemma ReadingTimeIgnoresRendering(io1: Io, io2: Io, slug: String, file: String, m: Matter)
    requires io1.read == io2.read && io1.matter == io2.matter
    requires io1.read(PostPath(slug)) == Done(file) && io1.matter(file) == Done(m)
    requires GetPostBySlug(io1, slug).Found? && GetPostBySlug(io2, slug).Found?
    ensures GetPostBySlug(io1, slug).post.readingTime == CalculateReadingTime(m.content)
    ensures GetPostBySlug(io1, slug).post.readingTime == GetPostBySlug(io2, slug).post.readingTime
  {
  }

  /** A render failure is not turned into `null`: unless the renderer's
      error carries the ENOENT code, it escapes the call. */
  lemma RenderFailureIsRethrown(io: Io, slug: String, file: String, m: Matter, e: Error)
    requires io.read(PostPath(slug)) == Done(file)
    requires io.matter(file) == Done(m)
    requires io.marked(m.content) == Raised(e)
    requires !IsNotFound(e)
    ensures GetPostBySlug(io, slug) == Thrown(e)
  {
  }

  /** A missing file is `null`. */
  lemma MissingFileIsNull(io: Io, slug: String, e: Error)
    requires io.read(PostPath(slug)) == Raised(e) && IsNotFound(e)
    ensures GetPostBySlug(io, slug) == Null
  {
  }
}
