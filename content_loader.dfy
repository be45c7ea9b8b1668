/** Model of content-loader.js: the page-document cache of `ContentLoader`,
    the markup built from page documents (paragraph and list fragments, the
    service cards, the policy text grouper, blog post items), the lookup of a
    blog post by id, and the choice of page from the location's path.

    Fetching, JSON parsing, the DOM and the console are outside the model: a
    fetch arrives as a `FetchOutcome`, and a DOM element the loader writes is
    an optional slot (`None` when `querySelector` finds nothing, in which case
    that one field is skipped). */
module ContentLoading {
  import opened Wrappers
  import opened Text
  import opened ListGrouping

  // ---------------------------------------------------------------------------
  // Page documents

  /** One block of a blog post: its `type` and its `text`. */
  datatype ContentItem = ContentItem(kind: string, text: string)

  datatype Post = Post(id: string, title: string, date: string, category: string, content: seq<ContentItem>)

  /** A parsed page document. `Falsy` is a document JavaScript treats as
      false (`null`, `false`, `0`, `""`); the blog document carries its
      `posts`; every other page document is kept as opaque JSON text. */
  datatype Content =
    | Falsy
    | BlogPosts(posts: seq<Post>)
    | PageDocument(json: string)

  /** What `fetch` followed by `response.json()` produced: a document, or a
      failure (network error, a status that is not ok, malformed JSON). */
  datatype FetchOutcome = Fetched(document: Content) | FetchFailed

  /** The page document most recently fetched successfully under `name`, in a
      log of fetch attempts, oldest first. */
  ghost function LatestDocument(log: seq<(string, FetchOutcome)>, name: string): Option<Content>
  {
    if |log| == 0 then None
    else if log[|log| - 1].0 == name && log[|log| - 1].1.Fetched? then Some(log[|log| - 1].1.document)
    else LatestDocument(log[..|log| - 1], name)
  }

  // ---------------------------------------------------------------------------
  // Choosing the page (the DOMContentLoaded handler)

  datatype PageKey = ContactPage | BlogPostsPage | MainPage

  /** The name under which a page's document is fetched and cached. */
  function PageName(key: PageKey): (name: string)
    ensures name in {"contact-page", "blog-posts", "main-page"}
  {
    match key
    case ContactPage => "contact-page"
    case BlogPostsPage => "blog-posts"
    case MainPage => "main-page"
  }

  /** The page a location path shows; the tests are made in this order. */
  function RoutePage(path: string): (key: PageKey)
    ensures key == ContactPage <==> Contains(path, "contact.html")
    ensures key == BlogPostsPage <==> !Contains(path, "contact.html") && Contains(path, "blog/") && Contains(path, ".html")
    ensures key == MainPage <==> !Contains(path, "contact.html") && !(Contains(path, "blog/") && Contains(path, ".html"))
  {
    if Contains(path, "contact.html") then ContactPage
    else if Contains(path, "blog/") && Contains(path, ".html") then BlogPostsPage
    else MainPage
  }

  /** The post id of a blog path: its last `/`-segment with the first
      `.html` in it removed. */
  function PostIdFromPath(path: string): (id: string)
    ensures '/' !in id
  {
    var segment := LastSegment(path);
    ReplaceFirstAvoids(segment, ".html", "", '/');
    ReplaceFirst(segment, ".html", "")
  }

  /** The post links of the site name a post `<directory>/<id>.html`; for an
      id without `/` and `.` the id comes back out of that path. */
  lemma PostIdRoundTrip(directory: string, id: string)
    requires '/' !in id && '.' !in id
    ensures PostIdFromPath(directory + "/" + id + ".html") == id
  {
    var segment := id + ".html";
    assert '/' !in segment;
    LastSegmentAfterSlash(directory, segment);
    assert directory + "/" + id + ".html" == directory + "/" + segment;
    HtmlSuffixRemoved(id);
  }

  /** Removing the first `.html` from `<id>.html` gives back an id without `.`. */
  lemma HtmlSuffixRemoved(id: string)
    requires '.' !in id
    ensures ReplaceFirst(id + ".html", ".html", "") == id
  {
    var segment := id + ".html";
    assert OccursAt(segment, ".html", |id|);
    forall j | 0 <= j < |id|
      ensures !OccursAt(segment, ".html", j)
    {
      assert segment[j] == id[j];
      assert segment[j] != '.';
    }
    assert segment[..|id|] == id;
    assert segment[|id| + 5..] == [];
  }

  lemma {:induction false} LastSegmentAfterSlash(directory: string, segment: string)
    requires '/' !in segment
    ensures LastSegment(directory + "/" + segment) == segment
    decreases |segment|
  {
    var s := directory + "/" + segment;
    if |segment| == 0 {
      assert s[|s| - 1] == '/';
    } else {
      var init := segment[..|segment| - 1];
      assert s[..|s| - 1] == directory + "/" + init;
      assert s[|s| - 1] == segment[|segment| - 1];
      assert '/' !in init by {
        assert forall c :: c in init ==> c in segment;
      }
      LastSegmentAfterSlash(directory, init);
      assert segment == init + [segment[|segment| - 1]];
    }
  }

  // ---------------------------------------------------------------------------
  // Fragments built with `.map(...).join('')`

  /** Every text wrapped in `<tag>`…`</tag>`, in order: the therapy
      paragraphs (`p`), the education list (`li`) and the policy paragraphs
      (`p`). */
  function WrapEach(tag: string, texts: seq<string>): string
  {
    JoinMap(texts, Wrapper(tag))
  }

  /** `text => `<tag>${text}</tag>``, the callback of those `.map` calls. */
  function Wrapper(tag: string): string -> string
  {
    (text: string) => Wrap(tag, text)
  }

  /** Sum of the lengths of `texts`. */
  function TotalLength(texts: seq<string>): nat
  {
    if |texts| == 0 then 0 else |texts[0]| + TotalLength(texts[1..])
  }

  /** Wrapping concatenates: the fragments of `a + b` are those of `a`
      followed by those of `b`. */
  lemma WrapEachAppend(tag: string, a: seq<string>, b: seq<string>)
    ensures WrapEach(tag, a + b) == WrapEach(tag, a) + WrapEach(tag, b)
  {
    JoinMapAppend(a, b, Wrapper(tag));
  }

  /** Nothing is escaped or dropped: the markup is as long as the texts plus
      one opening and one closing tag per text. */
  lemma {:induction false} WrapEachLength(tag: string, texts: seq<string>)
    ensures |WrapEach(tag, texts)| == TotalLength(texts) + |texts| * (2 * |tag| + 5)
    decreases |texts|
  {
    if |texts| > 0 {
      assert WrapEach(tag, texts) == Wrap(tag, texts[0]) + WrapEach(tag, texts[1..]);
      WrapEachLength(tag, texts[1..]);
    }
  }

  datatype Service = Service(title: string, description: string)

  /** The `class` of a service card: the card titled exactly `Modalities`
      also gets `modalities-card`. */
  function ServiceCardClass(title: string): (cls: string)
    ensures cls == "service-card modalities-card" <==> title == "Modalities"
    ensures cls == "service-card" <==> title != "Modalities"
  {
    "service-card" + (if title == "Modalities" then " modalities-card" else "")
  }

  function Spaces(n: nat): string
  {
    seq(n, _ => ' ')
  }

  /** One card of the services grid, with the template's line breaks and
      indentation. */
  function ServiceCard(service: Service): string
  {
    "\n" + Spaces(24) + "<div class=\"" + ServiceCardClass(service.title) + "\">\n"
    + Spaces(28) + Wrap("h3", service.title) + "\n"
    + Spaces(28) + Wrap("p", service.description) + "\n"
    + Spaces(24) + "</div>\n" + Spaces(20)
  }

  function ServicesGrid(services: seq<Service>): string
  {
    JoinMap(services, ServiceCard)
  }

  /** The grid is the cards in order: the grid of `a + b` is that of `a`
      followed by that of `b`. */
  lemma ServicesGridAppend(a: seq<Service>, b: seq<Service>)
    ensures ServicesGrid(a + b) == ServicesGrid(a) + ServicesGrid(b)
  {
    JoinMapAppend(a, b, ServiceCard);
  }

  // ---------------------------------------------------------------------------
  // The policy text grouper (the `noSurprisesAct` content)

  /** `item.startsWith('-')`. */
  predicate IsDashLine(line: string)
  {
    |line| > 0 && line[0] == '-'
  }

  /** The markup of one grouped token: a dash line becomes a list item with
      the dash dropped and the rest trimmed; any other line is a paragraph,
      verbatim. */
  function PolicyToken(t: Token<string>): string
  {
    match t
    case Open => "<ul>"
    case Close => "</ul>"
    case Entry(line) => if IsDashLine(line) then Wrap("li", JsTrim(line[1..])) else Wrap("p", line)
  }

  /** The policy markup of `lines`, defined by maximal runs of dash lines. */
  function PolicyHtml(lines: seq<string>): string
  {
    Render(Group(lines, IsDashLine), PolicyToken)
  }

  /** One iteration of the single pass keeps its invariant: the tokens
      emitted so far are the grouping of the lines read, less the final
      `Close` while a list is open, and the markup is their rendering. */
  lemma PolicyPass(lines: seq<string>, i: nat, emitted: seq<Token<string>>, inList: bool)
    requires i < |lines|
    requires inList == EndsWithMember(lines[..i], IsDashLine)
    requires Group(lines[..i], IsDashLine) == if inList then emitted + [Close] else emitted
    ensures var line := lines[i];
      var next := emitted + Switch(line, IsDashLine, inList) + [Entry(line)];
      && IsDashLine(line) == EndsWithMember(lines[..i + 1], IsDashLine)
      && Group(lines[..i + 1], IsDashLine) == (if IsDashLine(line) then next + [Close] else next)
      && Render(next, PolicyToken) == Render(emitted, PolicyToken) +
           if IsDashLine(line) then (if inList then "" else "<ul>") + Wrap("li", JsTrim(line[1..]))
           else (if inList then "</ul>" else "") + Wrap("p", line)
  {
    assert lines[..i + 1] == lines[..i] + [lines[i]];
    PassRender(lines[..i], lines[i], IsDashLine, emitted, inList, PolicyToken);
  }

  /** The grouper as the page runs it: one pass over the lines with an
      "in a list" flag, appending to the markup. The markup of one line is
      assembled in `step` and appended at once; the text appended is the
      same. */
  method GroupPolicyLines(lines: seq<string>) returns (html: string)
    ensures html == PolicyHtml(lines)
  {
    html := "";
    var inList := false;
    ghost var emitted: seq<Token<string>> := [];
    for i := 0 to |lines|
      invariant inList == EndsWithMember(lines[..i], IsDashLine)
      invariant html == Render(emitted, PolicyToken)
      invariant Group(lines[..i], IsDashLine) == if inList then emitted + [Close] else emitted
    {
      var item := lines[i];
      PolicyPass(lines, i, emitted, inList);
      emitted := emitted + Switch(item, IsDashLine, inList) + [Entry(item)];
      var step: string;
      if |item| > 0 && item[0] == '-' {
        step := "";
        if !inList {
          step := "<ul>";
          inList := true;
        }
        step := step + Wrap("li", JsTrim(item[1..]));
      } else {
        step := "";
        if inList {
          step := "</ul>";
          inList := false;
        }
        step := step + Wrap("p", item);
      }
      html := html + step;
    }
    if inList {
      RenderSnoc(emitted, Close, PolicyToken);
      html, emitted := html + "</ul>", emitted + [Close];
    }
    assert lines[..|lines|] == lines;
  }

  /** The structure of the policy markup: one fragment per line, in input
      order; dash lines exactly are list items; lists never nest, are never
      empty and are all closed; and there is one `<ul>` and one `</ul>` per
      maximal run of consecutive dash lines. */
  lemma PolicyStructure(lines: seq<string>)
    ensures var ts := Group(lines, IsDashLine);
      && PolicyHtml(lines) == Render(ts, PolicyToken)
      && Payload(ts) == lines
      && WellFormed(ts, IsDashLine, false)
      && CountMarkers(ts, true) == RunStarts(lines, IsDashLine, |lines|)
      && CountMarkers(ts, false) == RunStarts(lines, IsDashLine, |lines|)
  {
    GroupKeepsElements(lines, IsDashLine);
    GroupWellFormed(lines, IsDashLine);
    GroupCountsRuns(lines, IsDashLine);
  }

  // ---------------------------------------------------------------------------
  // Blog posts

  /** The element a blog item renders as. */
  function ItemTag(kind: string): (tag: string)
    ensures tag == "h2" <==> kind == "heading"
    ensures tag == "h3" <==> kind == "subheading"
    ensures tag == "p" <==> kind != "heading" && kind != "subheading"
  {
    match kind
    case "paragraph" => "p"
    case "heading" => "h2"
    case "subheading" => "h3"
    case _ => "p"
  }

  function RenderItem(item: ContentItem): string
  {
    Wrap(ItemTag(item.kind), item.text)
  }

  function RenderPostContent(items: seq<ContentItem>): string
  {
    JoinMap(items, RenderItem)
  }

  /** Post content is rendered item by item, in order: the content of
      `a + b` renders as that of `a` followed by that of `b`, and a single
      item renders as its own element with the text unescaped. */
  lemma RenderPostContentAppend(a: seq<ContentItem>, b: seq<ContentItem>)
    ensures RenderPostContent(a + b) == RenderPostContent(a) + RenderPostContent(b)
    ensures |a| == 1 ==> RenderPostContent(a) == "<" + ItemTag(a[0].kind) + ">" + a[0].text + "</" + ItemTag(a[0].kind) + ">"
  {
    JoinMapAppend(a, b, RenderItem);
    if |a| == 1 {
      assert a[1..] == [];
    }
  }

  /** `i` is the first post whose id is `id`. */
  predicate FirstWithId(posts: seq<Post>, id: string, i: nat)
  {
    i < |posts| && posts[i].id == id && forall j :: 0 <= j < i ==> posts[j].id != id
  }

  /** `posts.find(p => p.id === postId)`, as the index of the post found. */
  function FindPost(posts: seq<Post>, id: string): (r: Option<nat>)
    ensures r.Some? ==> FirstWithId(posts, id, r.value)
    ensures r.None? <==> forall j :: 0 <= j < |posts| ==> posts[j].id != id
  {
    if |posts| == 0 then None
    else if posts[0].id == id then Some(0)
    else match FindPost(posts[1..], id)
      case None => None
      case Some(k) => Some(k + 1)
  }

  /** The elements of a post page the loader writes; `None` is an element
      that is not on the page. */
  datatype PostHeader = PostHeader(title: Option<string>, date: Option<string>, category: Option<string>)
  datatype PostPage = PostPage(documentTitle: Option<string>, header: Option<PostHeader>, body: Option<string>)

  datatype PostStatus =
    | Populated
    | NoPostsContent    // no truthy `blog-posts` document in the cache
    | PostNotFound      // no post has the id
    | PostsMissing      // the document has no `posts`: `find` throws a TypeError

  datatype PostResult = PostResult(status: PostStatus, page: PostPage)

  /** Set the text of an element when it is present. */
  function Fill(slot: Option<string>, text: string): Option<string>
  {
    if slot.Some? then Some(text) else None
  }

  const SiteSuffix := " | Megan Shih, LCSW"

  /** Write `post` into the present elements of `page`; absent ones stay
      absent. */
  function ShowPost(page: PostPage, post: Post): (r: PostPage)
    ensures r.documentTitle.Some? == page.documentTitle.Some?
    ensures r.header.Some? == page.header.Some? && r.body.Some? == page.body.Some?
    ensures r.documentTitle.Some? ==> r.documentTitle.value == post.title + SiteSuffix
    ensures r.header.Some? ==>
              var h, h' := page.header.value, r.header.value;
              && (h'.title.Some? == h.title.Some?) && (h'.title.Some? ==> h'.title.value == post.title)
              && (h'.date.Some? == h.date.Some?) && (h'.date.Some? ==> h'.date.value == post.date)
              && (h'.category.Some? == h.category.Some?) && (h'.category.Some? ==> h'.category.value == post.category)
    ensures r.body.Some? ==> r.body.value == RenderPostContent(post.content)
  {
    PostPage(
      Fill(page.documentTitle, post.title + SiteSuffix),
      if page.header.Some?
      then Some(PostHeader(Fill(page.header.value.title, post.title),
                           Fill(page.header.value.date, post.date),
                           Fill(page.header.value.category, post.category)))
      else None,
      Fill(page.body, RenderPostContent(post.content)))
  }

  /** `populateBlogPost(postId)` against the cache: the first post with that
      id is written into the page; otherwise nothing is written. */
  function PopulateBlogPost(cache: map<string, Content>, postId: string, page: PostPage): (r: PostResult)
    ensures r.status == NoPostsContent <==> "blog-posts" !in cache || cache["blog-posts"].Falsy?
    ensures r.status == PostsMissing <==> "blog-posts" in cache && cache["blog-posts"].PageDocument?
    ensures r.status == Populated <==>
              "blog-posts" in cache && cache["blog-posts"].BlogPosts?
              && exists i :: 0 <= i < |cache["blog-posts"].posts| && cache["blog-posts"].posts[i].id == postId
    ensures r.status != Populated ==> r.page == page
    ensures r.status == Populated ==>
              exists i: nat :: FirstWithId(cache["blog-posts"].posts, postId, i)
                          && r.page == ShowPost(page, cache["blog-posts"].posts[i])
  {
    if "blog-posts" !in cache || cache["blog-posts"].Falsy? then PostResult(NoPostsContent, page)
    else match cache["blog-posts"]
      case PageDocument(_) => PostResult(PostsMissing, page)
      case BlogPosts(posts) =>
        match FindPost(posts, postId)
        case None => PostResult(PostNotFound, page)
        case Some(i) => PostResult(Populated, ShowPost(page, posts[i]))
  }

  // ---------------------------------------------------------------------------
  // The loader object

  /** What the page-load handler did. */
  datatype Population =
    | Skipped(key: PageKey)            // the load failed or gave a falsy document
    | MainPagePopulated
    | ContactPagePopulated
    | BlogPostPopulated(postId: string, result: PostResult)

  class ContentLoader {
    /** `this.contentCache`: page name to its parsed document. */
    var contentCache: map<string, Content>
    /** The page names for which a loading-error banner has been shown. */
    var errorBanners: seq<string>
    /** Every fetch attempt so far, oldest first. */
    ghost var fetchLog: seq<(string, FetchOutcome)>

    /** The cache holds, for each page, the document of its latest successful
        fetch, and nothing for a page never fetched successfully. */
    ghost predicate Valid()
      reads this
    {
      forall name :: LatestDocument(fetchLog, name) == if name in contentCache then Some(contentCache[name]) else None
    }

    constructor ()
      ensures Valid() && contentCache == map[] && errorBanners == [] && fetchLog == []
    {
      contentCache := map[];
      errorBanners := [];
      fetchLog := [];
    }

    /** `loadContent(pageName)`: on success the document is cached under the
        page name and returned; on failure one banner is shown, the cache is
        unchanged and `null` (here `Falsy`) is returned. */
    method LoadContent(pageName: string, outcome: FetchOutcome) returns (content: Content)
      requires Valid()
      modifies this
      ensures Valid() && fetchLog == old(fetchLog) + [(pageName, outcome)]
      ensures outcome.Fetched? ==>
                content == outcome.document
                && contentCache == old(contentCache)[pageName := outcome.document]
                && errorBanners == old(errorBanners)
      ensures outcome.FetchFailed? ==>
                content == Falsy && contentCache == old(contentCache)
                && errorBanners == old(errorBanners) + [pageName]
    {
      fetchLog := fetchLog + [(pageName, outcome)];
      assert fetchLog[..|fetchLog| - 1] == old(fetchLog);
      match outcome
      case Fetched(document) =>
        contentCache := contentCache[pageName := document];
        content := document;
      case FetchFailed =>
        errorBanners := errorBanners + [pageName];
        content := Falsy;
    }

    /** The DOMContentLoaded handler: choose the page from the path, load its
        document, and populate the page unless the load gave nothing. */
    method OnDomContentLoaded(path: string, outcome: FetchOutcome, page: PostPage) returns (done: Population)
      requires Valid()
      modifies this
      ensures Valid() && fetchLog == old(fetchLog) + [(PageName(RoutePage(path)), outcome)]
      ensures outcome.FetchFailed? ==> errorBanners == old(errorBanners) + [PageName(RoutePage(path))]
      ensures outcome.Fetched? ==> errorBanners == old(errorBanners)
      ensures var key := RoutePage(path);
        if !outcome.Fetched? || outcome.document.Falsy? then done == Skipped(key)
        else match key
          case ContactPage => done == ContactPagePopulated
          case MainPage => done == MainPagePopulated
          case BlogPostsPage =>
            done == BlogPostPopulated(PostIdFromPath(path), PopulateBlogPost(contentCache, PostIdFromPath(path), page))
    {
      var key := RoutePage(path);
      var content := LoadContent(PageName(key), outcome);
      if content.Falsy? {
        done := Skipped(key);
      } else {
        match key
        case ContactPage =>
          done := ContactPagePopulated;
        case MainPage =>
          done := MainPagePopulated;
        case BlogPostsPage =>
          var postId := PostIdFromPath(path);
          done := BlogPostPopulated(postId, PopulateBlogPost(contentCache, postId, page));
      }
    }
  }
}
