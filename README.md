# Content loading and blog conversion of the Megan Shih, LCSW site

The site is static. Its pages are filled in the browser by `content-loader.js`,
which reads JSON page documents. Blog posts are generated offline from Word
documents by `blog/convert_blog.py`. This project models both cores in Dafny.

From `content-loader.js`:

- The `ContentLoader` object. Its page-document cache is a `map` field that
  `LoadContent` updates in place. A ghost log of fetch attempts states what
  the cache holds.
- The choice of page from the location path, and how a post id is read out of
  a blog path.
- The markup fragments built with `.map(...).join('')`: wrapped paragraphs
  and list items, the service cards with their `Modalities` class rule, and
  the blog post items.
- `posts.find` and the filling of a post page's elements.
- The policy text grouper. It wraps runs of lines starting with `-` in
  `<ul>`, and it is modelled as the single-pass method it is.

From `blog/convert_blog.py`:

- `clean_filename`, with its two regular-expression substitutions.
- `convert_paragraph_to_html`, including the `ValueError` raised by `int()`.
- The body loop of `create_blog_post`. It is a single pass that wraps runs of
  `List` paragraphs in `<ul>`.
- The splice of `update_blog_index`.

The two single-pass groupers and the `\s+` collapse share one shape. Each
wraps every maximal run of elements with some property in one pair of
markers. Module `ListGrouping` defines that shape once, by runs. Its `Group`
is the reference definition:

- The two loops are proved to compute its rendering.
- Its properties are proved once:
  - the elements are kept in order;
  - the markup is well-formed;
  - there is one list per maximal run.

Modules:

- `Wrappers`: `Option` and `Result`.
- `Text`: the string operations of both languages on `seq<char>`. These are
  `find`/`indexOf`, `replace` of the first occurrence, `split('/').pop()`,
  JavaScript's `trim` and Python's `strip` with their own whitespace classes,
  and `map(f).join('')`.
- `ListGrouping`: the run grouping, its single-pass invariant and its
  properties.
- `ContentLoading`: `content-loader.js`.
- `ConvertBlog`: `blog/convert_blog.py`.

## Model

| member | source | states |
|---|---|---|
| ContentLoading.ContentLoader.constructor | content-loader.js:5-7 | the loader starts with an empty cache, no banner shown and no fetch made |
| ContentLoading.ContentLoader.LoadContent | content-loader.js:9-37 | a successful fetch stores the document under the page name, returns it and keeps the cache invariant; a failed one shows one banner, returns `null` and leaves the cache unchanged; afterwards the cache holds, for every name, the document of its latest successful fetch |
| ContentLoading.ContentLoader.OnDomContentLoaded | content-loader.js:589-616 | the page's document is loaded under the name the path selects; a failed fetch shows exactly one banner, for that name, and a successful one shows none; when the load fails or gives a falsy document nothing is populated, otherwise the page chosen is populated, and a blog page is populated with the post whose id is read from the path |
| ContentLoading.PageName | content-loader.js:589-616 | the three cache names are `contact-page`, `blog-posts`, `main-page` |
| ContentLoading.RoutePage | content-loader.js:589-616 | contact page exactly when the path contains `contact.html`; blog post exactly when it does not but contains both `blog/` and `.html`; the main page otherwise |
| ContentLoading.PostIdFromPath | content-loader.js:602 | the extracted post id never contains `/` |
| ContentLoading.PostIdRoundTrip | content-loader.js:602 | for an id without `/` and `.`, the path `<dir>/<id>.html` yields the id back |
| ContentLoading.HtmlSuffixRemoved | content-loader.js:602 | removing the first `.html` from `<id>.html`, for an id without `.`, leaves the id |
| ContentLoading.LastSegmentAfterSlash | content-loader.js:602 | the last `/`-segment of `<dir>/<segment>` is the segment when it has no `/` |
| ContentLoading.WrapEachAppend | content-loader.js:122-124 | the wrapped fragments of `a + b` are those of `a` followed by those of `b`: one fragment per text, in order |
| ContentLoading.WrapEachLength | content-loader.js:168-170 | the length of the markup is the total length of the texts plus, per text, the length of one opening and one closing tag; since escaping only lengthens a text, this rules out escaping, but not a swap of texts of equal length; order and multiplicity are `WrapEachAppend`'s |
| ContentLoading.ServiceCardClass | content-loader.js:143-145 | a card gets `service-card modalities-card` exactly when its title is `Modalities`, and plain `service-card` otherwise |
| ContentLoading.ServicesGridAppend | content-loader.js:142-150 | the grid of `a + b` is the grid of `a` followed by that of `b`: one card per service, in order |
| ContentLoading.PolicyPass | content-loader.js:251-264 | one iteration of the grouper keeps its invariant: the markup is the rendering of the grouping of the lines read (less the closing `</ul>` of an open list), and a dash line adds `<ul>` only when no list is open, a plain line adds `</ul>` only when one is |
| ContentLoading.GroupPolicyLines | content-loader.js:249-271 | the single pass with the `inList` flag computes exactly the rendering of the run grouping of the lines |
| ContentLoading.PolicyStructure | content-loader.js:249-271 | the policy markup has one fragment per line in input order; dash lines are exactly the list items; lists never nest, are never empty and are all closed; there is one `<ul>` and one `</ul>` per maximal run of dash lines |
| ContentLoading.Wrapper | content-loader.js:122-124 | defines the `.map` callback `text => <tag>${text}</tag>` |
| ContentLoading.WrapEach | content-loader.js:168-170 | defines `.map(text => <tag>${text}</tag>).join('')` for the therapy paragraphs, the education list and the policy paragraphs |
| ContentLoading.ServiceCard | content-loader.js:143-149 | defines one card of the services grid, with the template's line breaks and indentation and the class `ServiceCardClass` gives |
| ContentLoading.ServicesGrid | content-loader.js:142-150 | defines the grid as the cards of the services joined in order |
| ContentLoading.IsDashLine | content-loader.js:253 | defines `item.startsWith('-')` |
| ContentLoading.PolicyToken | content-loader.js:254-263 | defines the markup of one grouped token: `<ul>`, `</ul>`, a dash line as `<li>` of its trimmed rest, any other line as `<p>` verbatim |
| ContentLoading.PolicyHtml | content-loader.js:249-271 | defines the reference policy markup: the rendering of the run grouping of the lines by `IsDashLine` |
| ContentLoading.RenderItem | content-loader.js:536-545 | defines one blog item as its `ItemTag` element around its unescaped text |
| ContentLoading.RenderPostContent | content-loader.js:535-546 | defines the post content as the items rendered and joined in order |
| ContentLoading.ItemTag | content-loader.js:535-546 | `heading` renders as `h2`, `subheading` as `h3`, and every other type (`paragraph` and unknown ones) as `p` |
| ContentLoading.RenderPostContentAppend | content-loader.js:535-546 | post content renders item by item, in order, and one item renders as its element around its unescaped text |
| ContentLoading.FindPost | content-loader.js:508 | the index found is the first post with the id; nothing is found exactly when no post has the id |
| ContentLoading.ShowPost | content-loader.js:514-546 | every element present on the page gets its field of the post (the title with the site suffix, title, date, category, rendered content); absent elements stay absent |
| ContentLoading.PopulateBlogPost | content-loader.js:500-548 | nothing is written without a truthy `blog-posts` document, when the document has no `posts`, or when no post has the id; a post is shown exactly when some post has the id, and then it is the first such post |
| ConvertBlog.Lower | blog/convert_blog.py:13 | defines `title.lower()` on ASCII letters |
| ConvertBlog.RemoveSpecial | blog/convert_blog.py:15 | defines `re.sub(r'[^a-z0-9\s-]', '', s)`: only `a-z`, `0-9`, `-` and whitespace are kept, in order |
| ConvertBlog.CollapseWhitespace | blog/convert_blog.py:17 | defines `re.sub(r'\s+', '-', s)`: each maximal run of whitespace becomes one `-` |
| ConvertBlog.Filtered | blog/convert_blog.py:13-15 | defines the text after lower-casing and removing the special characters |
| ConvertBlog.OutputPath | blog/convert_blog.py:49 | defines `blog/posts/{filename}.html` |
| ConvertBlog.CleanFilename | blog/convert_blog.py:10-18 | the slug holds only `a-z`, `0-9` and `-`, and no whitespace |
| ConvertBlog.SlugDashes | blog/convert_blog.py:15-17 | the slug's hyphens are the hyphens of the filtered title plus one per maximal run of whitespace |
| ConvertBlog.SlugKeepsAlnum | blog/convert_blog.py:13-17 | the letters and digits of the slug are those of the lower-cased title, in order |
| ConvertBlog.SlugIdempotent | blog/convert_blog.py:10-18 | cleaning a slug again gives the same slug |
| ConvertBlog.CollapseAlphabet | blog/convert_blog.py:17 | the whitespace collapse of text without special characters holds only slug characters |
| ConvertBlog.CollapseDashes | blog/convert_blog.py:17 | the collapse adds exactly one `-` per whitespace run |
| ConvertBlog.CollapseKeepsAlnum | blog/convert_blog.py:17 | the collapse keeps the letters and digits, in order |
| ConvertBlog.RenderEntriesCollapse | blog/convert_blog.py:17 | text without whitespace passes the collapse unchanged |
| ConvertBlog.SlugIsPostId | blog/convert_blog.py:48-49 | read by the path rules of `content-loader.js` (its `PostIdFromPath`), the path `<site>/blog/posts/<slug>.html` of a generated post gives the slug back as the post id, and it is routed to the blog-post page unless the path contains `contact.html`; this relates the two naming schemes only, since the generated page template loads no script |
| ConvertBlog.PostPathRoute | blog/convert_blog.py:49 | a post path holds `blog/` and `.html`, so it is routed to the blog-post page exactly unless it contains `contact.html` |
| ConvertBlog.ContactSlugRoutesToContact | blog/convert_blog.py:49 | a slug ending in `contact` (from a title such as "Making Contact") gives a post path that `content-loader.js` routes to the contact page, so no post id is read from it |
| ConvertBlog.StyleTag | blog/convert_blog.py:27-36 | a `Heading` style gives `h<d>` when its last character is a digit `d` and no tag otherwise; else a `List` style gives `li`, any other style `p` |
| ConvertBlog.ConvertParagraph | blog/convert_blog.py:20-36 | text that strips to nothing gives `""` whatever the style; the conversion raises exactly for a non-empty heading without a level digit; otherwise it is the stripped text wrapped in the style's tag |
| ConvertBlog.ListParagraphConverts | blog/convert_blog.py:32-33 | a `List` paragraph never raises and gives a list item of its stripped text, or nothing |
| ConvertBlog.FirstWhere | blog/convert_blog.py:96 | the index found is the first with the property, and nothing is found exactly when none has it |
| ConvertBlog.IsListStyle | blog/convert_blog.py:97 | defines `paragraph.style.name.startswith('List')` |
| ConvertBlog.BodyToken | blog/convert_blog.py:99-110 | defines the markup of one grouped body token: `<ul>\n`, `</ul>\n`, or the paragraph's markup and `\n` |
| ConvertBlog.BlogBody | blog/convert_blog.py:95-110 | defines the reference body: the error of the first paragraph that raises, or else the rendering of the run grouping of the converted paragraphs by list style |
| ConvertBlog.BodyStep | blog/convert_blog.py:97-106 | one iteration of the body loop keeps its invariant and adds `<ul>\n` before the first list paragraph of a run, `</ul>\n` before the first other paragraph after a run, then the markup and a newline |
| ConvertBlog.ConvertBody | blog/convert_blog.py:95-110 | the loop computes exactly the reference body (the rendering of the run grouping of the converted paragraphs), or stops with the error of the first paragraph that raises |
| ConvertBlog.CreateBlogPost | blog/convert_blog.py:38-150 | the page is the head template, the body and the foot template; it fails exactly when some paragraph cannot be converted |
| ConvertBlog.BodyLinesSnoc | blog/convert_blog.py:97-106 | a converted paragraph adds its list flag and its markup to the lines before it |
| ConvertBlog.StopsAt | blog/convert_blog.py:96-106 | the conversion stops with the error of the first paragraph that raises |
| ConvertBlog.BodyDone | blog/convert_blog.py:108-110 | when no paragraph raises, the body is the rendering of the grouped lines |
| ConvertBlog.FirstFailureAt | blog/convert_blog.py:96-106 | a paragraph that raises with none raising before it is the first failure |
| ConvertBlog.BodyStructure | blog/convert_blog.py:95-110 | one fragment per paragraph in order; lists never nest and are all closed; list paragraphs are exactly the list items; one `<ul>` and one `</ul>` per maximal run of list paragraphs |
| ConvertBlog.ListLinesAlike | blog/convert_blog.py:97 | a body line is a list line exactly when its paragraph's style starts with `List` |
| ConvertBlog.BodyFails | blog/convert_blog.py:95-110 | the body fails exactly when some paragraph cannot be converted |
| ConvertBlog.InsertionPoint | blog/convert_blog.py:177-179 | there is no insertion point exactly when the page has no blog-posts marker |
| ConvertBlog.UpdateBlogIndex | blog/convert_blog.py:177-187 | the index is rewritten exactly when the page has the marker |
| ConvertBlog.IndexBounds | blog/convert_blog.py:179-180 | the insertion point lies inside the page, at 5 or after |
| ConvertBlog.SpliceKeepsPage | blog/convert_blog.py:177-180 | with a `</div>` after the marker, the page up to and including the first such `</div>` and everything after it are kept, with a newline and the card between them |
| ConvertBlog.SpliceWithoutDivEnd | blog/convert_blog.py:179 | without a `</div>` after the marker, `find` returns -1 and the card goes in at index 5 |
| ConvertBlog.CheckedInsertionPoint | blog/convert_blog.py:177-179 | the corrected insertion point, when there is one, falls right after a `</div>` |
| ConvertBlog.CheckedUpdateBlogIndex | blog/convert_blog.py:177-187 | the corrected update writes exactly when there is a corrected insertion point, and then splices a newline and the card in there |
| ConvertBlog.CheckedSpliceAfterDivEnd | blog/convert_blog.py:177-180 | the corrected update writes exactly when the original does and a `</div>` follows the marker; it then writes the same page as the original, with the card right after a `</div>` that follows the marker and the rest of the page kept |
| Text.Find | blog/convert_blog.py:177 | the index is the first occurrence at or after the start, and -1 means there is none |
| Text.Contains | content-loader.js:589-597 | `includes` holds exactly when the text occurs somewhere |
| Text.ReplaceFirst | content-loader.js:602 | only the first occurrence is replaced, and without an occurrence the text is unchanged |
| Text.ReplaceFirstAvoids | content-loader.js:602 | replacing brings in no character that neither the text nor the replacement holds |
| Text.LastSegment | content-loader.js:602 | the result is a `/`-free suffix of the path that is all of it or follows a `/` |
| Text.TrimStartDrops | content-loader.js:258 | trimming at the start drops only whitespace |
| Text.TrimEndDrops | content-loader.js:258 | trimming at the end drops only whitespace |
| Text.TrimPadded | content-loader.js:258 | trimming removes exactly the whitespace padding around a text whose ends are not whitespace |
| Text.Trim | blog/convert_blog.py:22 | the trimmed text neither starts nor ends with whitespace |
| Text.StartsWith | blog/convert_blog.py:27 | defines Python's `startswith` and JavaScript's `startsWith`: the prefix is the text's first characters |
| Text.JsTrim | content-loader.js:258 | defines JavaScript's `trim()`: `Trim` over the ECMAScript whitespace and line terminators |
| Text.PyStrip | blog/convert_blog.py:22 | defines Python's `strip()`: `Trim` over the `str.isspace` characters |
| Text.KeepNarrower | blog/convert_blog.py:15 | filtering by a wider class first does not change what a narrower filter keeps |
| ListGrouping.GroupKeepsElements | content-loader.js:251-264 | the grouping carries the input elements, in order |
| ListGrouping.GroupWellFormed | content-loader.js:249-271 | the grouping is well-formed list markup: no nesting, no empty list, all lists closed, and an element is inside a list exactly when it is a member |
| ListGrouping.GroupCountsRuns | content-loader.js:249-271 | the grouping opens and closes one list per maximal run of members |
| ListGrouping.GroupSnoc | content-loader.js:251-264 | the grouping of a longer input extends the grouping of the shorter one by one element |
| ListGrouping.PassStep | content-loader.js:251-264 | the tokens a single pass has emitted are the grouping of the elements read, less the final close while a list is open |
| ListGrouping.SwitchRender | content-loader.js:253-263 | one element adds the opening marker before the first member of a run, the closing marker before the first non-member after a run, then itself |
| ListGrouping.PassRender | blog/convert_blog.py:97-106 | one iteration of a single pass keeps the pass invariant and grows the text by the marker and the element |
| ListGrouping.RunStartsAlike | blog/convert_blog.py:97 | run starts depend only on which positions hold members |
| ListGrouping.GroupWithoutMembers | blog/convert_blog.py:17 | without members, grouping changes nothing |

## Left out

- Fetching, `response.ok`, `response.json()` and the `Date` cache-buster
  (content-loader.js:13-18) are outside the model. A fetch comes in as a
  `FetchOutcome`, either a parsed document or a failure.
- The banner of `showContentLoadingError` and its timeout are left out. The
  loader only records the page name of each banner shown.
- Console logging is left out everywhere.
- The DOM is reduced to optional text slots of the post page.
  `populateMainPage`, `populateContactPage`, `populateFooter` and the contact
  form builder are not modelled beyond the fragments above. They write text,
  or markup built from document fields: the contact-preview cards and the FAQ
  grid built with `.map(...).join('')`, the `mailto:` links of the email
  section and the footer, and the elements of the contact form.
  `OnDomContentLoaded` reports that they ran, not what they wrote.
- The JSON page documents are opaque text, apart from the blog document's
  `posts`. A document JavaScript treats as falsy is `Falsy`.
- The fee, insurance and cancellation paragraphs (content-loader.js:228-242)
  are `WrapEach("p", …)`, the same shape as the therapy paragraphs. They
  have no members of their own.
- script.js is not part of this model.
- `ContentLoading.ContentLoader.OnDomContentLoaded` awaits the load before
  populating. The model runs the two steps in sequence and does not model
  interleaving with other handlers.
- `CleanFilename`: `str.lower()` is modelled for the ASCII letters only.
  Unicode case mapping is not modelled. A non-ASCII letter the real
  `lower()` would turn into `a-z` is dropped by the model.
- `StyleTag`: `int()` is modelled as accepting an ASCII digit only. Python's
  `int()` also accepts other Unicode decimal digits, which the model reports
  as a `ValueError`.
- Python's `re.sub` also treats `\s` as Unicode whitespace. The model uses
  the `str.isspace` class for it.
- Reading the Word document with python-docx is left out. A document is a
  sequence of `(style name, text)` paragraphs.
- The existence check on the input path, file reads and writes,
  `sys.argv`, `main`, `datetime.now()` and the printed messages are left out
  of `create_blog_post`, `update_blog_index` and `main`.
- The fixed HTML templates around the post body and the blog card markup are
  parameters, not string constants.
- The page template of `create_blog_post` (blog/convert_blog.py:56-143)
  loads no script, so `content-loader.js` never runs on a generated post.
  `SlugIsPostId` relates the two naming schemes, not a page that loads
  both. A slug ending in `contact` would also be routed to the contact page
  (`ContactSlugRoutesToContact`).
- `ConvertBlog.SpliceKeepsPage`: the first `</div>` after the marker may
  close an element inside an existing card rather than the blog-posts
  container. The model says where the card goes, not whether that spot is
  inside the container.

## Findings

| source | as written | input that shows it | evidently intended | confidence | as-written member | corrected member |
|---|---|---|---|---|---|---|
| blog/convert_blog.py:179 | when no `</div>` follows the blog-posts marker, `find` returns -1 and the card is spliced in at index -1 + 6 = 5, inside the page's first characters | an index page `<div class="blog-posts">` with no `</div>` after the marker (for example a page cut short) | write nothing, as when the marker is missing, or insert only right after a `</div>` that follows the marker | medium; not executed | ConvertBlog.SpliceWithoutDivEnd | ConvertBlog.CheckedSpliceAfterDivEnd |
