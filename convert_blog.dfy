/** The Word-to-blog converter (blog/convert_blog.py): the slug made from a
    post title, the markup of one paragraph, the body loop that wraps runs of
    list paragraphs, and the splice that adds a card to the blog index.

    Paragraphs of the Word document are `(style name, text)` records; the
    fixed HTML templates around the body and the card markup are parameters. */
module ConvertBlog {
  import opened Wrappers
  import opened Text
  import opened ListGrouping
  import ContentLoading

  // ---------------------------------------------------------------------------
  // clean_filename

  function LowerChar(c: char): char
  {
    if 'A' <= c <= 'Z' then (c as int + 32) as char else c
  }

  /** `title.lower()`, for the ASCII letters. */
  function Lower(s: string): string
  {
    seq(|s|, i requires 0 <= i < |s| => LowerChar(s[i]))
  }

  predicate IsAlnum(c: char)
  {
    'a' <= c <= 'z' || '0' <= c <= '9'
  }

  /** The characters a slug may hold. */
  predicate IsSlugChar(c: char)
  {
    IsAlnum(c) || c == '-'
  }

  /** The characters the class `[^a-z0-9\s-]` does not match. */
  predicate Kept(c: char)
  {
    IsSlugChar(c) || IsPySpace(c)
  }

  /** `re.sub(r'[^a-z0-9\s-]', '', s)`. */
  function RemoveSpecial(s: string): string
  {
    Keep(s, Kept)
  }

  /** The replacement text of the collapse: a run of whitespace opens with one
      `-` and its characters vanish; any other character stays. */
  function CollapseToken(t: Token<char>): string
  {
    match t
    case Open => "-"
    case Close => ""
    case Entry(c) => if IsPySpace(c) then "" else [c]
  }

  /** `re.sub(r'\s+', '-', s)`: every maximal run of whitespace becomes one `-`. */
  function CollapseWhitespace(s: string): string
  {
    Render(Group(s, IsPySpace), CollapseToken)
  }

  /** The text `clean_filename` works on once the special characters are gone. */
  function Filtered(title: string): string
  {
    RemoveSpecial(Lower(title))
  }

  /** `clean_filename(title)`: lower-case, drop the special characters, turn
      each run of whitespace into one `-`. */
  function CleanFilename(title: string): (slug: string)
    ensures forall c :: c in slug ==> IsSlugChar(c)
    ensures forall c :: c in slug ==> !IsPySpace(c)
  {
    GroupKeepsElements(Filtered(title), IsPySpace);
    CollapseAlphabet(Group(Filtered(title), IsPySpace));
    CollapseWhitespace(Filtered(title))
  }

  lemma {:induction false} CollapseAlphabet(ts: seq<Token<char>>)
    requires forall c :: c in Payload(ts) ==> Kept(c)
    ensures forall c :: c in Render(ts, CollapseToken) ==> IsSlugChar(c)
  {
    if |ts| > 0 {
      var carried: string := if ts[0].Entry? then [ts[0].x] else [];
      assert Payload(ts) == carried + Payload(ts[1..]);
      assert forall c :: c in carried ==> Kept(c);
      CollapseAlphabet(ts[1..]);
      var head := CollapseToken(ts[0]);
      assert Render(ts, CollapseToken) == head + Render(ts[1..], CollapseToken);
      assert forall c :: c in head ==> IsSlugChar(c);
    }
  }

  /** The collapse counts: its `-` are those of its input plus one per list
      marker that opens. */
  lemma {:induction false} CollapseDashes(ts: seq<Token<char>>)
    ensures CountOf('-', Render(ts, CollapseToken)) == CountOf('-', Payload(ts)) + CountMarkers(ts, true)
  {
    if |ts| > 0 {
      var head := CollapseToken(ts[0]);
      var carried: string := if ts[0].Entry? then [ts[0].x] else [];
      assert Render(ts, CollapseToken) == head + Render(ts[1..], CollapseToken);
      assert Payload(ts) == carried + Payload(ts[1..]);
      CountOfAppend('-', head, Render(ts[1..], CollapseToken));
      CountOfAppend('-', carried, Payload(ts[1..]));
      CollapseDashes(ts[1..]);
      assert CountOf('-', head) == CountOf('-', carried) + (if ts[0].Open? then 1 else 0) by {
        if |head| > 0 {
          assert head[1..] == [];
        }
        if |carried| > 0 {
          assert carried[1..] == [];
        }
      }
    }
  }

  /** The collapse keeps the letters and digits, in order. */
  lemma {:induction false} CollapseKeepsAlnum(ts: seq<Token<char>>)
    ensures Keep(Render(ts, CollapseToken), IsAlnum) == Keep(Payload(ts), IsAlnum)
  {
    if |ts| > 0 {
      var head := CollapseToken(ts[0]);
      var carried: string := if ts[0].Entry? then [ts[0].x] else [];
      assert Render(ts, CollapseToken) == head + Render(ts[1..], CollapseToken);
      assert Payload(ts) == carried + Payload(ts[1..]);
      KeepAppend(head, Render(ts[1..], CollapseToken), IsAlnum);
      KeepAppend(carried, Payload(ts[1..]), IsAlnum);
      CollapseKeepsAlnum(ts[1..]);
      assert Keep(head, IsAlnum) == Keep(carried, IsAlnum) by {
        if |head| > 0 {
          assert head[1..] == [];
        }
        if |carried| > 0 {
          assert carried[1..] == [];
        }
      }
    }
  }

  lemma {:induction false} RenderEntriesCollapse(s: string)
    requires forall i :: 0 <= i < |s| ==> !IsPySpace(s[i])
    ensures Render(Entries(s), CollapseToken) == s
  {
    if |s| > 0 {
      assert Entries(s) == [Entry(s[0])] + Entries(s[1..]);
      assert Entries(s)[1..] == Entries(s[1..]);
      RenderEntriesCollapse(s[1..]);
    }
  }

  /** A whitespace run of the filtered title becomes one `-`, the hyphens it
      already had stay, and nothing else adds one. */
  lemma SlugDashes(title: string)
    ensures var f := Filtered(title);
      CountOf('-', CleanFilename(title)) == CountOf('-', f) + RunStarts(f, IsPySpace, |f|)
  {
    var f := Filtered(title);
    CollapseDashes(Group(f, IsPySpace));
    GroupKeepsElements(f, IsPySpace);
    GroupCountsRuns(f, IsPySpace);
  }

  /** The letters and digits of the slug are those of the lower-cased title,
      in order. */
  lemma SlugKeepsAlnum(title: string)
    ensures Keep(CleanFilename(title), IsAlnum) == Keep(Lower(title), IsAlnum)
  {
    var f := Filtered(title);
    CollapseKeepsAlnum(Group(f, IsPySpace));
    GroupKeepsElements(f, IsPySpace);
    KeepNarrower(Lower(title), Kept, IsAlnum);
  }

  /** A slug is its own slug. */
  lemma SlugIdempotent(title: string)
    ensures CleanFilename(CleanFilename(title)) == CleanFilename(title)
  {
    var slug := CleanFilename(title);
    assert forall i :: 0 <= i < |slug| ==> IsSlugChar(slug[i]) by {
      forall i | 0 <= i < |slug|
        ensures IsSlugChar(slug[i])
      {
        assert slug[i] in slug;
      }
    }
    assert Lower(slug) == slug;
    KeepAll(slug, Kept);
    GroupWithoutMembers(slug, IsPySpace);
    RenderEntriesCollapse(slug);
  }

  /** `blog/posts/{filename}.html`. */
  function OutputPath(filename: string): string
  {
    "blog/posts/" + filename + ".html"
  }

  /** Read by the path rules of content-loader.js, the path of a generated
      post, wherever the site is served from, gives the slug back as its post
      id, and it is routed to the blog-post page unless it contains
      `contact.html` somewhere. (The generated page template itself loads no
      script; this relates the two naming schemes.) */
  lemma SlugIsPostId(site: string, title: string)
    ensures var slug := CleanFilename(title);
      var path := site + "/" + OutputPath(slug);
      && ContentLoading.PostIdFromPath(path) == slug
      && (!Contains(path, "contact.html") ==> ContentLoading.RoutePage(path) == ContentLoading.BlogPostsPage)
  {
    var slug := CleanFilename(title);
    assert site + "/" + OutputPath(slug) == (site + "/blog/posts") + "/" + slug + ".html";
    ContentLoading.PostIdRoundTrip(site + "/blog/posts", slug);
    PostPathRoute(site, slug);
  }

  /** The path of a post page holds `blog/` and `.html`, so only `contact.html`
      can take it away from the blog-post route. */
  lemma PostPathRoute(site: string, slug: string)
    ensures var path := site + "/" + OutputPath(slug);
      !Contains(path, "contact.html") ==> ContentLoading.RoutePage(path) == ContentLoading.BlogPostsPage
  {
    var path := site + "/" + OutputPath(slug);
    assert path == (site + "/") + "blog/" + ("posts/" + slug + ".html");
    assert OccursAt(path, "blog/", |site| + 1);
    assert path == (site + "/blog/posts/" + slug) + ".html";
    assert OccursAt(path, ".html", |path| - 5);
  }

  /** A slug ending in `contact` collides with the contact page's route: its
      post path contains `contact.html`, so the loader shows the contact page
      there and never reads a post id. */
  lemma ContactSlugRoutesToContact(site: string, slug: string)
    requires |slug| >= 7 && slug[|slug| - 7..] == "contact"
    ensures ContentLoading.RoutePage(site + "/" + OutputPath(slug)) == ContentLoading.ContactPage
  {
    var path := site + "/" + OutputPath(slug);
    var front := site + "/blog/posts/" + slug[..|slug| - 7];
    assert slug == slug[..|slug| - 7] + "contact";
    assert path == front + "contact.html";
    assert OccursAt(path, "contact.html", |front|);
  }

  // ---------------------------------------------------------------------------
  // convert_paragraph_to_html

  /** A paragraph of the Word document: its style name and its text. */
  datatype Paragraph = Paragraph(style: string, text: string)

  /** `int(style[-1])` raises `ValueError` on a heading style whose last
      character is not a digit. */
  datatype ConvertError = HeadingLevelNotANumber(style: string)

  predicate IsDigit(c: char)
  {
    '0' <= c <= '9'
  }

  predicate IsListStyle(p: Paragraph)
  {
    StartsWith(p.style, "List")
  }

  /** The element a style renders as, `None` for a heading style without a
      level digit. */
  function StyleTag(style: string): (tag: Option<string>)
    ensures StartsWith(style, "Heading") ==>
              (tag.Some? <==> IsDigit(style[|style| - 1]))
              && (tag.Some? ==> tag.value == "h" + [style[|style| - 1]])
    ensures !StartsWith(style, "Heading") ==>
              tag == if StartsWith(style, "List") then Some("li") else Some("p")
  {
    if StartsWith(style, "Heading") then
      var level := style[|style| - 1];
      if IsDigit(level) then Some("h" + [level]) else None
    else if StartsWith(style, "List") then Some("li")
    else Some("p")
  }

  /** The paragraphs `convert_paragraph_to_html` raises on: a heading style
      without a level digit, with text left after stripping. */
  predicate Fails(p: Paragraph)
  {
    PyStrip(p.text) != "" && StyleTag(p.style).None?
  }

  /** `convert_paragraph_to_html(paragraph)`. */
  function ConvertParagraph(p: Paragraph): (r: Result<string, ConvertError>)
    ensures PyStrip(p.text) == "" ==> r == Ok("")
    ensures r.Err? <==> Fails(p)
    ensures r.Ok? && PyStrip(p.text) != "" ==> r.value == Wrap(StyleTag(p.style).value, PyStrip(p.text))
  {
    var text := PyStrip(p.text);
    if text == "" then Ok("")
    else match StyleTag(p.style)
      case None => Err(HeadingLevelNotANumber(p.style))
      case Some(tag) => Ok(Wrap(tag, text))
  }

  /** A list paragraph never fails and gives a list item or nothing. */
  lemma ListParagraphConverts(p: Paragraph)
    requires IsListStyle(p)
    ensures ConvertParagraph(p).Ok?
    ensures ConvertParagraph(p).value == if PyStrip(p.text) == "" then "" else Wrap("li", PyStrip(p.text))
  {
    assert p.style[0] == 'L';
    assert !StartsWith(p.style, "Heading");
  }

  // ---------------------------------------------------------------------------
  // The body loop of create_blog_post

  /** The index of the first element of `xs` with the property `p`. */
  function FirstWhere<T>(xs: seq<T>, p: T -> bool): (r: Option<nat>)
    ensures r.None? ==> forall i :: 0 <= i < |xs| ==> !p(xs[i])
    ensures r.Some? ==> r.value < |xs| && p(xs[r.value])
                        && forall j :: 0 <= j < r.value ==> !p(xs[j])
  {
    if |xs| == 0 then None
    else if p(xs[0]) then Some(0)
    else match FirstWhere(xs[1..], p)
      case None => None
      case Some(k) => Some(k + 1)
  }

  /** No element among the first `n` of `xs` has the property `p`. */
  predicate NoneAmong<T>(xs: seq<T>, n: nat, p: T -> bool)
  {
    n <= |xs| && forall j :: 0 <= j < n ==> !p(xs[j])
  }

  lemma NoneAmongSnoc<T>(xs: seq<T>, n: nat, p: T -> bool)
    requires NoneAmong(xs, n, p) && n < |xs| && !p(xs[n])
    ensures NoneAmong(xs, n + 1, p)
  {
  }

  /** The index of the first paragraph that cannot be converted. */
  function FirstFailure(ps: seq<Paragraph>): Option<nat>
  {
    FirstWhere(ps, Fails)
  }

  /** The markup of a paragraph that converts, or nothing. */
  function Converted(p: Paragraph): string
  {
    match ConvertParagraph(p)
    case Ok(html) => html
    case Err(_) => ""
  }

  /** What the body loop needs of one paragraph: whether its style is a list
      style, and its converted markup. */
  datatype BodyLine = BodyLine(listItem: bool, markup: string)

  function BodyLines(ps: seq<Paragraph>): (lines: seq<BodyLine>)
    ensures |lines| == |ps|
  {
    seq(|ps|, i requires 0 <= i < |ps| => BodyLine(IsListStyle(ps[i]), Converted(ps[i])))
  }

  predicate IsListLine(line: BodyLine)
  {
    line.listItem
  }

  /** The markup of one grouped body token, with its newline. */
  function BodyToken(t: Token<BodyLine>): string
  {
    match t
    case Open => "<ul>\n"
    case Close => "</ul>\n"
    case Entry(line) => line.markup + "\n"
  }

  /** The body markup of `ps`, or the error of the first paragraph that stops
      the conversion. */
  function BlogBody(ps: seq<Paragraph>): Result<string, ConvertError>
  {
    match FirstFailure(ps)
    case Some(k) => Err(ConvertParagraph(ps[k]).error)
    case None => Ok(Render(Group(BodyLines(ps), IsListLine), BodyToken))
  }

  /** One iteration of the body loop keeps its invariant: reading `x` after
      the lines `built` adds the list marker the pass emits, then the line's
      markup and a newline. */
  lemma BodyStep(built: seq<BodyLine>, x: BodyLine, emitted: seq<Token<BodyLine>>, inList: bool)
    requires inList == EndsWithMember(built, IsListLine)
    requires Group(built, IsListLine) == if inList then emitted + [Close] else emitted
    ensures var next := emitted + Switch(x, IsListLine, inList) + [Entry(x)];
      && x.listItem == EndsWithMember(built + [x], IsListLine)
      && Group(built + [x], IsListLine) == (if x.listItem then next + [Close] else next)
      && Render(next, BodyToken) ==
           (if x.listItem && !inList then Render(emitted, BodyToken) + "<ul>\n"
            else if !x.listItem && inList then Render(emitted, BodyToken) + "</ul>\n"
            else Render(emitted, BodyToken)) + (x.markup + "\n")
  {
    PassRender(built, x, IsListLine, emitted, inList, BodyToken);
    var text := Render(emitted, BodyToken);
    if x.listItem && !inList {
      AppendAssociates(text, "<ul>\n", x.markup + "\n");
    } else if !x.listItem && inList {
      AppendAssociates(text, "</ul>\n", x.markup + "\n");
    } else {
      assert text + ("" + (x.markup + "\n")) == text + (x.markup + "\n");
    }
  }

  /** The body loop of `create_blog_post`: one pass over the paragraphs that
      opens a list before the first paragraph of each run of list styles,
      closes it before the next paragraph of another style and at the end,
      and appends each paragraph's markup and a newline; a paragraph that
      cannot be converted stops it. */
  method ConvertBody(ps: seq<Paragraph>) returns (r: Result<string, ConvertError>)
    ensures r == BlogBody(ps)
  {
    var html := "";
    var inList := false;
    ghost var built: seq<BodyLine> := [];
    ghost var emitted: seq<Token<BodyLine>> := [];
    for i := 0 to |ps|
      invariant built == BodyLines(ps[..i])
      invariant inList == EndsWithMember(built, IsListLine)
      invariant Group(built, IsListLine) == if inList then emitted + [Close] else emitted
      invariant NoneAmong(ps, i, Fails)
      invariant html == Render(emitted, BodyToken)
    {
      var p := ps[i];
      var converted := ConvertParagraph(p);
      if converted.Err? {
        StopsAt(ps, i);
        return Err(converted.error);
      }
      ghost var line := BodyLine(StartsWith(p.style, "List"), converted.value);
      NoneAmongSnoc(ps, i, Fails);
      BodyLinesSnoc(ps, i);
      BodyStep(built, line, emitted, inList);
      built, emitted := built + [line], emitted + Switch(line, IsListLine, inList) + [Entry(line)];
      if StartsWith(p.style, "List") {
        if !inList {
          html := html + "<ul>\n";
          inList := true;
        }
      } else {
        if inList {
          html := html + "</ul>\n";
          inList := false;
        }
      }
      html := html + (converted.value + "\n");
    }
    if inList {
      RenderSnoc(emitted, Close, BodyToken);
      html, emitted := html + "</ul>\n", emitted + [Close];
    }
    BodyDone(ps, emitted);
    r := Ok(html);
  }

  /** `create_blog_post` without its file handling: the page is the head
      template, the converted body and the foot template, or the error of
      the first paragraph that cannot be converted. */
  method CreateBlogPost(head: string, ps: seq<Paragraph>, foot: string) returns (r: Result<string, ConvertError>)
    ensures r.Err? <==> exists i :: 0 <= i < |ps| && Fails(ps[i])
    ensures r == match BlogBody(ps) case Ok(body) => Ok(head + body + foot) case Err(e) => Err(e)
  {
    BodyFails(ps);
    var body := ConvertBody(ps);
    match body
    case Ok(html) => r := Ok(head + html + foot);
    case Err(e) => r := Err(e);
  }

  /** A paragraph that converts adds its list flag and its markup to the
      lines of the paragraphs before it. */
  lemma BodyLinesSnoc(ps: seq<Paragraph>, i: nat)
    requires i < |ps| && !Fails(ps[i])
    ensures ConvertParagraph(ps[i]).Ok?
    ensures BodyLines(ps[..i + 1])
         == BodyLines(ps[..i]) + [BodyLine(StartsWith(ps[i].style, "List"), ConvertParagraph(ps[i]).value)]
  {
    assert ps[..i + 1][i] == ps[i];
  }

  /** The conversion stops with the error of the first paragraph that fails. */
  lemma StopsAt(ps: seq<Paragraph>, i: nat)
    requires i < |ps| && NoneAmong(ps, i, Fails)
    requires ConvertParagraph(ps[i]).Err?
    ensures BlogBody(ps) == Err(ConvertParagraph(ps[i]).error)
  {
    FirstFailureAt(ps, i);
  }

  /** When no paragraph fails, the body is the rendering of the grouped lines. */
  lemma BodyDone(ps: seq<Paragraph>, ts: seq<Token<BodyLine>>)
    requires NoneAmong(ps, |ps|, Fails)
    requires Group(BodyLines(ps[..|ps|]), IsListLine) == ts
    ensures BlogBody(ps) == Ok(Render(ts, BodyToken))
  {
    assert ps[..|ps|] == ps;
  }

  lemma AppendAssociates(a: string, b: string, c: string)
    ensures a + b + c == a + (b + c)
  {
  }

  /** The first failure is at `i` when paragraph `i` fails and none before it
      does. */
  lemma FirstFailureAt(ps: seq<Paragraph>, i: nat)
    requires i < |ps| && Fails(ps[i]) && forall j :: 0 <= j < i ==> !Fails(ps[j])
    ensures FirstFailure(ps) == Some(i)
  {
  }

  /** The body's structure: one fragment per paragraph, in order; lists that
      never nest and are all closed; one list per maximal run of list
      paragraphs. */
  lemma BodyStructure(ps: seq<Paragraph>)
    requires FirstFailure(ps).None?
    ensures var ts := Group(BodyLines(ps), IsListLine);
      && BlogBody(ps) == Ok(Render(ts, BodyToken))
      && Payload(ts) == BodyLines(ps)
      && WellFormed(ts, IsListLine, false)
      && CountMarkers(ts, true) == RunStarts(ps, IsListStyle, |ps|)
      && CountMarkers(ts, false) == RunStarts(ps, IsListStyle, |ps|)
  {
    var lines := BodyLines(ps);
    GroupKeepsElements(lines, IsListLine);
    GroupWellFormed(lines, IsListLine);
    GroupCountsRuns(lines, IsListLine);
    ListLinesAlike(ps);
    RunStartsAlike(lines, IsListLine, ps, IsListStyle, |ps|);
  }

  lemma ListLinesAlike(ps: seq<Paragraph>)
    ensures forall i :: 0 <= i < |ps| ==> IsListLine(BodyLines(ps)[i]) == IsListStyle(ps[i])
  {
  }

  /** The conversion fails exactly when some paragraph does. */
  lemma BodyFails(ps: seq<Paragraph>)
    ensures BlogBody(ps).Err? <==> exists i :: 0 <= i < |ps| && Fails(ps[i])
  {
    if FirstFailure(ps).None? {
      assert forall i :: 0 <= i < |ps| ==> !Fails(ps[i]);
    }
  }

  // ---------------------------------------------------------------------------
  // update_blog_index

  const PostsMarker := "<div class=\"blog-posts\">"
  const DivEnd := "</div>"

  /** Where the card goes: 6 past the first `</div>` at or after the first
      blog-posts marker; `None` without a marker. */
  function InsertionPoint(content: string): (k: Option<int>)
    ensures k.None? <==> forall i :: !OccursAt(content, PostsMarker, i)
  {
    var start := Find(content, PostsMarker, 0);
    if start == -1 then None
    else Some(Find(content, DivEnd, start) + 6)
  }

  /** The new index page, `None` when nothing is written. */
  function UpdateBlogIndex(content: string, card: string): (r: Option<string>)
    ensures r.None? <==> forall i :: !OccursAt(content, PostsMarker, i)
  {
    match InsertionPoint(content)
    case None => None
    case Some(k) =>
      IndexBounds(content);
      Some(content[..k] + "\n" + card + content[k..])
  }

  /** The insertion point lies inside the page. */
  lemma IndexBounds(content: string)
    ensures InsertionPoint(content).Some? ==> 5 <= InsertionPoint(content).value <= |content|
  {
    var start := Find(content, PostsMarker, 0);
    if start != -1 {
      assert |content| >= |PostsMarker| > 5;
    }
  }

  /** With a `</div>` after the marker the card goes right after the first
      one: the page up to and including it, and everything after it, are
      kept as they were, and `"\n"` and the card come between. */
  lemma SpliceKeepsPage(content: string, card: string, m: nat, j: nat)
    requires OccursAt(content, PostsMarker, m) && forall i :: 0 <= i < m ==> !OccursAt(content, PostsMarker, i)
    requires m <= j && OccursAt(content, DivEnd, j) && forall i :: m <= i < j ==> !OccursAt(content, DivEnd, i)
    ensures InsertionPoint(content) == Some(j + 6)
    ensures var r := UpdateBlogIndex(content, card).value;
      && r[..j + 6] == content[..j + 6]
      && r[j + 6..j + 7 + |card|] == "\n" + card
      && r[j + 7 + |card|..] == content[j + 6..]
  {
    var start := Find(content, PostsMarker, 0);
    assert start == m;
    assert Find(content, DivEnd, m) == j;
  }

  /** Without a `</div>` after the marker, `find` gives -1 and the card goes
      in at index 5, inside whatever the page starts with. */
  lemma SpliceWithoutDivEnd(content: string, card: string, m: nat)
    requires OccursAt(content, PostsMarker, m) && forall i :: 0 <= i < m ==> !OccursAt(content, PostsMarker, i)
    requires forall i :: m <= i ==> !OccursAt(content, DivEnd, i)
    ensures InsertionPoint(content) == Some(5)
    ensures UpdateBlogIndex(content, card) == Some(content[..5] + "\n" + card + content[5..])
  {
    var start := Find(content, PostsMarker, 0);
    assert start == m;
  }

  /** The insertion point the splice evidently intends: right after the first
      `</div>` at or after the first blog-posts marker, and `None` when there
      is no marker or no `</div>` after it. */
  function CheckedInsertionPoint(content: string): (k: Option<int>)
    ensures k.Some? ==> 6 <= k.value <= |content| && content[k.value - 6..k.value] == DivEnd
  {
    var start := Find(content, PostsMarker, 0);
    if start == -1 then None
    else
      var end := Find(content, DivEnd, start);
      if end == -1 then None else Some(end + 6)
  }

  /** `update_blog_index` with the missing `</div>` handled like the missing
      marker: nothing is written. */
  function CheckedUpdateBlogIndex(content: string, card: string): (r: Option<string>)
    ensures r.None? <==> CheckedInsertionPoint(content).None?
    ensures r.Some? ==> var k := CheckedInsertionPoint(content).value;
      r.value == content[..k] + "\n" + card + content[k..]
  {
    match CheckedInsertionPoint(content)
    case None => None
    case Some(k) => Some(content[..k] + "\n" + card + content[k..])
  }

  /** The corrected splice puts the card right after a `</div>` that follows
      the marker, writes exactly when the original does and a `</div>`
      follows the marker, and then writes the same page. */
  lemma CheckedSpliceAfterDivEnd(content: string, card: string)
    ensures var r := CheckedUpdateBlogIndex(content, card);
      && (r.Some? <==> UpdateBlogIndex(content, card).Some? && exists j :: Find(content, PostsMarker, 0) <= j && OccursAt(content, DivEnd, j))
      && (r.Some? ==> r == UpdateBlogIndex(content, card))
      && (r.Some? ==> var k := CheckedInsertionPoint(content).value;
            Find(content, PostsMarker, 0) <= k - 6 && OccursAt(content, DivEnd, k - 6)
            && r.value[..k] == content[..k] && r.value[k + 1 + |card|..] == content[k..])
  {
    var start := Find(content, PostsMarker, 0);
    if start != -1 {
      var end := Find(content, DivEnd, start);
      if end != -1 {
        var k := end + 6;
        var r := content[..k] + "\n" + card + content[k..];
        assert r[..k] == content[..k];
        assert r[k + 1 + |card|..] == content[k..];
      }
    }
  }
}
