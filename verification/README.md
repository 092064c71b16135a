# leiske.dev content pipeline, modelled in Dafny

This project models the content core of the leiske.dev blog and proves
properties of it. The blog is a TanStack/React site whose posts are markdown
files with frontmatter. The model covers:

- **reading time**: the clamped `estimateReadingTime`, and the raw
  `split(/\s+/)` count that `calculateReadingTime` and the content-collection
  transform both use;
- **dates**: `parseDate` (`YYYY-MM-DD` read as UTC midnight) and `formatDate`;
- **post loading**: `getPostBySlug`, with its `||` defaults and its error
  path (ENOENT becomes `null`, every other error is rethrown);
- **the content collection**: the zod schema and the `transform`;
- **post lists**: the blog index (drafts hidden), the home page (five newest
  posts not flagged `test`), and the "next post" neighbour of a post page;
- **the feed**: `generateFeed` with its filter, its newest-first order,
  `updated`, links and authors;
- **routing**: the path dispatch in `App`;
- **the new-post script**: `generateSlug`, `getTodayDate` and the title
  guard;
- **markdown post-processing**: the heading collector, `CustomLink` and
  `CustomImg`, and the `replace` callback of the `Markdown` component;
- **the feed validator**: `validate_xml`.

Each area is one module, in files named after it:

| module | file |
|---|---|
| `Base` | base.dfy |
| `Text` | text.dfy |
| `ReadingTime` | reading_time.dfy |
| `Dates` | dates.dfy |
| `Sorting` | sorting.dfy |
| `Posts` | posts.dfy |
| `Collection` | collection.dfy |
| `Listing` | listing.dfy |
| `Feed` | feed.dfy |
| `Views` | views.dfy |
| `Router` | router.dfy |
| `NewPost` | new_post.dfy |
| `Markdown` | markdown.dfy |
| `FeedValidator` | feed_validator.dfy |

Libraries, the file system, the clock and the network do not appear in the
model. Their results are parameters:

- the file reader, gray-matter and marked form a record of functions that
  either return a value or raise an error;
- "now" is a millisecond count and a calendar date;
- `getAllPosts()` is a sequence;
- the XML parser's outcome is an optional element tree.

Strings are `seq<char>`. Whitespace is the ASCII set: space, `\t`, `\n`,
`\r`, `\v` and `\f`.

### Where the code and its documentation disagree

The model follows the code in each of these cases.

- A markdown render failure inside `getPostBySlug` is rethrown, not turned
  into `null`. Only an error whose `code` is `ENOENT` becomes `null`, at any
  of the three steps. See `Posts.LoadOutcomes` and
  `Posts.RenderFailureIsRethrown`.
- The content collection never sets a `test` property. So the `test` filters
  of the feed and of the home page remove nothing, and drafts
  (`wip: true`) reach the feed and the home page. Only the blog index hides
  them. See `Feed.FeedKeepsEveryCollectionPost`, `Feed.DraftReachesFeed` and
  `Views.RecentPostsOfCollection`. The checked-in generated files under
  `.content-collections/` (the cached config and `allPosts.js`) are stale
  on this point: they still declare `test` and carry `"test": true` on
  test-post-1 to test-post-6.
- The loader and the collection count reading time as
  `ceil(split(/\s+/).length / 200)`, with no clamp. That value is never 0,
  because the split always yields at least one piece. It can be one minute
  more than the documented `max(1, ceil(words / 200))`, for example 200
  words followed by a final newline. See `ReadingTime.NaiveWithinOneMinute`
  and `ReadingTime.NaiveCountsTrailingNewline`.
- The two post pages pick the next post differently. The page component
  in src/pages/BlogPost.tsx uses the order of `getAllPosts()`, whatever
  that order is, and the first post with the slug; it does not filter or
  sort. The routed loader in src/routes/blog.$slug.tsx drops `test` posts,
  sorts the rest newest first and takes the post before the slug there.
  See `Views.BlogPostPage` and `Views.SlugLoader`.
- A title made only of punctuation passes the script's guard, but it
  produces an empty slug and the file `posts/.md`. See
  `NewPost.NoAlnumTitleGivesEmptySlug`.
- The `replace` callback leaves an `img` without `src` to the default
  renderer, while `CustomImg` makes every image lazy. See
  `Markdown.SourcelessImgDiffers`.

The routed loader (`src/routes/blog.$slug.tsx`, lines 9-31) is modelled
by four members. They are described here rather than in the table,
because the `$` in that file name does not fit the table's source-cell
form:
- `Views.SlugLoader` (lines 9-31): the page is not found exactly when no
  post has the slug, or, outside development, when the first post with it
  is a `test` post. Otherwise it shows that first post, and the neighbour
  comes from the non-test posts sorted newest first. Only when the post is
  shown must the non-test posts have well-formed dates.
- `Views.SlugNextIsNewerNonTest` (lines 24-29): the neighbour is an input
  post without `test: true`. It is dated no earlier than the first sorted
  post with the slug.
- `Views.TestPostHasNoNext` (lines 18-29): in development a `test` post is
  shown. When no other post shares its slug, it has no neighbour.
- `Views.MissingSlugIgnoresDates` (lines 12-16): when no post has the
  slug, the page is not found, whatever the posts' dates.

## Model

| member | source | states |
|---|---|---|
| Text.Split | src/lib/posts.ts:8 | `split(/\s+/)`: at least one piece; no piece holds whitespace; only the first and last pieces can be empty; the first is empty exactly when the text is empty or starts with whitespace |
| Text.SplitNoWs | src/lib/posts.ts:8 | text without whitespace, the empty text included, splits into the one piece that is the text itself |
| Text.SplitPieceCount | src/lib/posts.ts:8 | the piece count is 1 for the empty string, and otherwise the word count plus one for leading and one for trailing whitespace |
| Text.SplitJoinRoundTrip | src/lib/posts.ts:8 | splitting pieces joined by a whitespace separator gives the pieces back (the inverse of `split`) |
| Text.SplitNonEmptyPiecesAreWords | src/utils/reading-time.ts:3 | `split(/\s+/).filter(Boolean).length` is the number of maximal non-whitespace runs |
| Text.SplitKeepsNonWhitespace | src/lib/posts.ts:8 | the pieces, concatenated, are the text with its whitespace removed |
| Text.Trim | src/utils/reading-time.ts:3 | `trim()`: the result neither starts nor ends with whitespace |
| Text.TrimDecomposes | src/utils/reading-time.ts:3 | the text is whitespace, then the trimmed text, then whitespace |
| Text.WordsIgnoresPadding | src/utils/reading-time.ts:3 | surrounding whitespace does not change the word count |
| Text.NatToString | scripts/new-post.mjs:24-27 | the decimal form of a number: digits only, value equal to the number, no leading zero |
| Base.FindIndex | src/pages/BlogPost.tsx:11 | `findIndex`: -1 when no element has the key, otherwise the first index that has it |
| Base.FilterMembers | src/routes/blog.index.tsx:11 | `filter` keeps an element exactly when it was in the input and the predicate accepts it |
| ReadingTime.EstimateReadingTime | src/utils/reading-time.ts:1-5 | at least one minute; equal to `max(1, ceil(words / 200))` |
| ReadingTime.EstimateIgnoresPadding | src/utils/reading-time.ts:3 | leading and trailing whitespace never change the estimate |
| ReadingTime.EstimateThresholds | src/utils/reading-time.ts:2-4 | 1 to 200 words is one minute, 201 words is two, and more words never read faster |
| ReadingTime.CalculateReadingTime | src/lib/posts.ts:7-11 | at least one minute, even for the empty string; equal to the ceiling of (words plus one per whitespace edge) / 200 |
| ReadingTime.NaiveWithinOneMinute | src/lib/posts.ts:7-11 | the raw count is never below the clamped estimate and at most one minute above it |
| ReadingTime.NaiveAgreesOnTrimmedText | src/lib/posts.ts:7-11 | on text without surrounding whitespace the two estimators agree |
| ReadingTime.NaiveCountsTrailingNewline | src/lib/posts.ts:8 | 200 words and a final newline: two minutes for the raw count, one for the estimate |
| Dates.ParseDate | src/utils/date.ts:6-8 | defined exactly on well-formed `YYYY-MM-DD` calendar dates; the instant is a UTC midnight |
| Dates.DayNumberOrder | src/utils/date.ts:6-8 | day numbers are ordered and equal exactly as (year, month, day) triples are |
| Dates.EpochAnchors | src/utils/date.ts:7 | 1970-01-01 is instant 0; 2000-03-01 is 951868800000 ms |
| Dates.ParseDateOrdersLikeStrings | src/utils/date.ts:6-8 | for well-formed dates, instants compare as the date strings do, and equal instants mean equal strings |
| Dates.FormatDate | src/utils/date.ts:1-4 | an invalid date exactly when `parseDate` fails; otherwise the local rendering of the same instant |
| Sorting.SortDesc | src/utils/feed.ts:30 | the result is sorted newest first by the key and is a permutation of the input |
| Sorting.SortedPermutationsAgreeOnKeys | src/utils/feed.ts:30 | any two newest-first permutations of the same posts have the same key at every position, so an unstable sort changes nothing that the key sees |
| Sorting.SortedPrefixDominates | src/routes/index.tsx:25-26 | in a newest-first list, every element of a prefix has a key at least that of every later element |
| Posts.PostPath | src/lib/posts.ts:14 | the path is `posts/`, then the slug, then `.md` |
| Posts.Catch | src/lib/posts.ts:32-37 | `null` exactly for ENOENT; any other error is rethrown unchanged |
| Posts.GetPostBySlug | src/lib/posts.ts:13-38 | a returned post has the requested slug and a reading time of at least one minute |
| Posts.LoadOutcomes | src/lib/posts.ts:16-37 | a post exactly when no step fails; `null` exactly when the first failure is ENOENT; otherwise that first error is thrown |
| Posts.ReadsOnlyPostPath | src/lib/posts.ts:14-17 | the result depends on the reader only through the file `posts/<slug>.md` |
| Posts.FoundPostFields | src/lib/posts.ts:23-31 | the slug is the requested one and the content is the rendered HTML; a truthy title, date, description or tags value is carried over; falsy title, date and description become `''`, and absent or falsy tags become `[]` |
| Posts.ReadingTimeIgnoresRendering | src/lib/posts.ts:20-21 | the reading time is that of the raw body, whatever the renderer produces |
| Posts.RenderFailureIsRethrown | src/lib/posts.ts:20 | a render error without the ENOENT code escapes the loader |
| Posts.MissingFileIsNull | src/lib/posts.ts:33-35 | a missing file yields `null` |
| Collection.Validate | content-collections.ts:9-17 | accepted exactly when the fields fit the schema (strings, a string list, an optional boolean); the values carry over |
| Collection.ValidateEncode | content-collections.ts:9-17 | every document validates from its own encoding back to itself |
| Collection.EncodeValidate | content-collections.ts:9-17 | an accepted field map, minus the keys the schema does not name, is the encoding of its validated document |
| Collection.Transform | content-collections.ts:18-33 | succeeds exactly when the frontmatter split does; slug from the file path; `test` unset; content is the body; reading time at least one |
| Collection.TransformReadingTimeIsNaive | content-collections.ts:20-21 | the transform's reading time equals the loader's `calculateReadingTime` of the body |
| Collection.TransformFields | content-collections.ts:23-32 | title, date, description, tags and wip pass through unchanged; the document's own `slug` field never matters |
| Listing.NewestFirst | src/routes/blog.index.tsx:10-12 | sorted newest first; a permutation of the kept posts; contains exactly the input posts the predicate accepts |
| Listing.SortedIsChronological | src/routes/blog.index.tsx:12 | in a sorted list of well-dated posts, no later position holds a later date, either as an instant or as a string |
| Feed.FeedItems | src/utils/feed.ts:28-58 | one item per post not flagged `test`, as a permutation of their items; dates non-increasing, so the first is the newest; each linked under `https://leiske.dev/blog/` and credited to the site author |
| Feed.GenerateFeed | src/utils/feed.ts:27-61 | one item per non-test post, as a permutation of their items; dates non-increasing; links under `https://leiske.dev/blog/`; the site author on every item; `updated` is the newest date, or now when empty, and no item is newer; copyright is year plus name |
| Feed.FeedItemsComeFromPublishedPosts | src/utils/feed.ts:29-58 | every item is the item of a non-test post, dated with that post's `parseDate`; every non-test post has its item |
| Feed.TestPostsExcluded | src/utils/feed.ts:29 | a `test: true` post contributes no item |
| Feed.FeedKeepsEveryCollectionPost | src/utils/feed.ts:29 | on collection posts (which never set `test`) the feed has exactly one item per post |
| Feed.DraftReachesFeed | src/utils/feed.ts:29 | a `wip: true` collection post is in the feed |
| Views.BlogIndex | src/routes/blog.index.tsx:8-14 | exactly the non-draft posts, as a permutation, sorted newest first; only the non-draft posts need well-formed dates |
| Views.DraftDateNeverRead | src/routes/blog.index.tsx:11-12 | a draft is filtered out before sorting, so a draft with any date beside a listed post leaves just that post |
| Views.BlogIndexKeepsPublished | src/routes/blog.index.tsx:11 | with no drafts, the index is a permutation of every post |
| Views.RecentPosts | src/routes/index.tsx:22-26 | the first min(5, kept) of the non-test posts, sorted newest first; only the non-test posts need well-formed dates |
| Views.RecentPostsAreNewest | src/routes/index.tsx:23-26 | the shown posts are a sub-multiset of the kept posts, and none of the kept posts left out is newer than a shown one |
| Views.RecentPostsOfCollection | src/routes/index.tsx:24 | on collection posts, the home page shows min(5, all) posts, drafts included |
| Views.NextPost | src/pages/BlogPost.tsx:11-12 | a neighbour exactly when the slug occurs after position 0 and the first post lacks it; the neighbour precedes the first post with the slug |
| Views.NextPostOfFirstMatch | src/pages/BlogPost.tsx:11-12 | with duplicate slugs the first post wins; a slug at the front has no neighbour |
| Views.NextPostIsNotOlder | src/pages/BlogPost.tsx:12 | on a newest-first list the next post is never older than the current one |
| Views.BlogPostPage | src/pages/BlogPost.tsx:8-30 | not-found exactly when the loader returns `null`; an error page exactly when it throws, carrying the loader's error; otherwise the very post the loader returned, with its neighbour |
| Views.NotFoundIgnoresNeighbours | src/pages/BlogPost.tsx:14-23 | the not-found view does not depend on the list of posts |
| Router.MatchBlogPath | src/App.tsx:11 | a match only for `/blog/<slug>` or `/blog/<slug>/`, with a non-empty slug free of `/` |
| Router.Route | src/App.tsx:4-24 | home exactly for `/`; a post view only for a matching blog path |
| Router.RouteOfBlogPaths | src/App.tsx:11-14 | both spellings route to the post exactly when the slug is non-empty and has no `/` |
| Router.PostHrefRoundTrip | src/components/PostList.tsx:17 | following `/blog/<slug>/` routes back to the same slug |
| Router.NotFoundPaths | src/App.tsx:11-23 | `/blog`, `/blog/`, `/blog//`, `/blog/a/b` and the empty path are not found |
| NewPost.GenerateSlug | scripts/new-post.mjs:13-20 | the slug holds only `a-z`, `0-9` and `-`, has no double dash and no dash at either end |
| NewPost.GenerateSlugOfSlug | scripts/new-post.mjs:13-20 | a slug is its own slug |
| NewPost.GenerateSlugIdempotent | scripts/new-post.mjs:13-20 | slugging twice is slugging once |
| NewPost.GenerateSlugKeepsAlnum | scripts/new-post.mjs:15-16 | the slug's letters and digits are exactly those of the lowercased title, in order |
| NewPost.GenerateSlugEmpty | scripts/new-post.mjs:13-20 | the slug is empty exactly when the title has no ASCII letter or digit |
| NewPost.CollapseNoDoubleDash | scripts/new-post.mjs:18 | after `/-+/g` to `-` no two dashes are adjacent |
| NewPost.TrimDashesShape | scripts/new-post.mjs:19 | removing one edge dash from a string without double dashes leaves no edge dash |
| NewPost.Pad2 | scripts/new-post.mjs:25-26 | `padStart(2, '0')`: digits whose value is the number, two of them below 100 |
| NewPost.TodayDateRoundTrip | scripts/new-post.mjs:22-28 | for a four-digit year the stamp is a well-formed date that `parseDate` reads as that calendar day |
| NewPost.NewPost | scripts/new-post.mjs:40-48 | refused exactly for a blank title; otherwise the file is `posts/` plus the slug of the trimmed title plus `.md` |
| NewPost.Template | scripts/new-post.mjs:50-61 | the file starts with `---`, then a `date:` line holding the stamp |
| NewPost.NewPostIsLoadable | scripts/new-post.mjs:46-61 | the file written is the one the loader reads for that slug, and its date line parses to the day the script ran |
| NewPost.NoAlnumTitleGivesEmptySlug | scripts/new-post.mjs:41-48 | a non-blank title with no letter or digit is written to `posts/.md` |
| NewPost.TrimOfBlank | scripts/new-post.mjs:41 | `title.trim()` is empty exactly when the title is all whitespace |
| Markdown.HeadingOf | src/utils/markdown.ts:46-53 | a recorded heading has level 1 to 6, the digit its `hN` tag spells; its id is the element's non-empty id and its text the element's flattened text |
| Markdown.HeadingLevels | src/utils/markdown.ts:49 | `h1`, `h2` and `h3` elements with an id are recorded at levels 1, 2 and 3 |
| Markdown.CollectHeadings | src/utils/markdown.ts:43-56 | every collected heading has level 1 to 6 and a non-empty id |
| Markdown.CollectHeadingsIsPreOrder | src/utils/markdown.ts:78-91 | the headings are exactly the `h1`–`h6` elements with an id, in document pre-order |
| Markdown.CustomLink | src/utils/markdown.ts:100-105 | a router link exactly for an href starting with `/`, to that href; otherwise an anchor with the same href; class and children kept |
| Markdown.CustomImg | src/utils/markdown.ts:107-109 | always lazy, with the same src and class; `alt` defaults to `''` |
| Markdown.Replace | src/components/Markdown.tsx:14-36 | a replacement exactly for an `a` with an internal href or an `img` with a non-empty src; the link keeps href and class and carries the anchor's children (the intended rendering, see "Left out"); the image keeps src and class |
| Markdown.ReplaceAgreesWithCustomLink | src/components/Markdown.tsx:15-23 | on an internal link, `replace` builds what `CustomLink` builds |
| Markdown.ReplaceAgreesWithCustomImg | src/components/Markdown.tsx:26-35 | on an image with a source, `replace` builds what `CustomImg` builds |
| Markdown.SourcelessImgDiffers | src/components/Markdown.tsx:26 | an `img` without `src` is left to the default renderer by `replace`, but `CustomImg` makes it lazy |
| Markdown.ExternalLinkUntouched | src/components/Markdown.tsx:15-17 | an absent, empty or external href is left alone by `replace` and stays a plain anchor under `CustomLink` |
| FeedValidator.Find | validate_feeds.py:29 | ElementTree `find`: present exactly when some child has the tag, and then the first child with that tag |
| FeedValidator.Missing | validate_feeds.py:46-55 | the names warned about are exactly the required names with no such child |
| FeedValidator.AllFound | validate_feeds.py:34-38 | the loop passes exactly when every required child is present |
| FeedValidator.ValidateXml | validate_feeds.py:8-88 | parse errors fail; RSS is valid exactly for an `rss` root at version 2.0 with a channel holding title, link and description; Atom is valid exactly for an Atom `feed` root with id, title and updated; any other feed type passes; a failure carries no warnings |
| FeedValidator.ItemWarningsNeverInvalidate | validate_feeds.py:46-54 | a conforming RSS feed stays valid, and the warnings name exactly the first item's missing fields |
| FeedValidator.EntryWarningsNeverInvalidate | validate_feeds.py:77-86 | a conforming Atom feed stays valid, and the warnings name exactly the first entry's missing fields |
| FeedValidator.EmptyChannelFieldsPass | validate_feeds.py:34-38 | only presence is checked: empty title, link and description elements pass |
| FeedValidator.WrongRssVersionFails | validate_feeds.py:22-25 | an RSS root of another version is rejected |

## Left out

- File reading, gray-matter (which parses the YAML frontmatter) and marked are parameters. So is the `path.join` of `process.cwd()`; zod only validates the object gray-matter produces, and that check is `Collection.Validate`. The model fixes the path as the relative `posts/<slug>.md`, with no normalisation of `..` or `/` inside a slug.
- `getAllPosts` is not part of this model. Its result is a parameter of the post page.
- The routed post page's `head` (its meta and link tags) and the rendering of `PostContent` are not modelled. `throw notFound()` is modelled as the `SlugNotFound` outcome, and `import.meta.env.DEV` as a parameter.
- The unified/remark/rehype pipeline is not modelled: parsing, GFM, raw HTML, `rehype-slug` ids, autolink wrapping and serialisation. The model starts from the element tree it produces. `renderMarkdown` and `renderMarkdownSync` install the same visitor, so one function models both.
- React rendering, html-react-parser's conversion of `children`, and the `loading="lazy"` attribute are not modelled. A rendered image is always lazy.
- Markdown.Replace: models the link's children as the anchor's own child nodes, which is what the JSX intends. As written, Markdown.tsx:20 hands `domNode.children`, an array of DOM nodes cast to `string`, to html-react-parser's `parse`. That library rejects non-string input with a `TypeError`, so an internal link most likely makes the whole `Markdown` render throw. The library is not part of this model, so the model does not claim that outcome.
- `Date` covers only strict `YYYY-MM-DD` strings with a calendar-valid day and years 0 to 9999. The reduced ISO forms (`YYYY`, `YYYY-MM`), expanded years and V8's other accepted inputs become "invalid". In particular, V8 accepts any day from 01 to 31 in any month and rolls it over: `2025-02-30` becomes 2 March. `Dates.ParseDate` returns `None` for such a day. `toLocaleDateString` is reduced to "the same instant" because its output depends on the locale and time zone.
- Sorting requires every post that survives the filter to have a well-formed date: `KeptDated` on `Feed.GenerateFeed`, `Views.BlogIndex` and `Views.RecentPosts`, and on `Views.SlugLoader` only when the post is shown (`Views.Shown`), since its `notFound()` checks run before anything is sorted. Posts the filter drops (drafts on the blog index, `test` posts in the feed and on the home page) may carry any date, because they are removed before `.sort` compares anything. With a malformed date among the kept posts, the comparator returns NaN and the order is up to the engine.
- Sorting.SortDesc: the contracts do not fix the order among posts with equal dates. The insertion sort happens to be stable, as V8's `Array.prototype.sort` is, but no ensures says so; `Sorting.SortedPermutationsAgreeOnKeys` only proves that any two sorted orders agree on the dates. So which post `Views.RecentPosts` keeps at a tie across the fifth place, and which neighbour `Views.NextPost` and `Views.SlugLoader` pick among equal dates, are left unstated.
- Views.RecentPosts: the home route builds dates with `new Date(date)` rather than `parseDate`. The two read date-only strings identically, so one key serves both.
- NewPost.TodayDateRoundTrip: covers four-digit years only, because `getFullYear()` below 1000 is not zero-padded and yields a string `parseDate` rejects.
- Unicode lowercasing and Unicode whitespace are not modelled. `toLowerCase` maps `A`–`Z` only, and `\s` is the ASCII whitespace set.
- The new-post script's prompt, its shell here-document write and its process exits are not modelled. The outcome is the file name and content, or a refusal.
- The feed library's XML serialisation (`rss2()`, `atom1()`) and the feed routes are not modelled. `Feed.GenerateFeed` returns the configuration that `new Feed` and `addItem` receive. The current time and year are parameters.
- The validator's `main` is not modelled: port probing, HTTP fetching and console output. Its messages are left out, except the first-item warnings that the verdict carries. `main` ignores the value `validate_xml` returns, so an invalid feed does not stop the success message.
- Sitemap generation, the static build script and the page layout components are not part of this model.
