/**
 * main.py: a depth-first crawl.  `crawl(url, depth, max_depth)` marks the
 * URL visited, fetches and parses it, harvests its same-site links, writes
 * the page to the document, then recurses on each link not yet visited.
 * The module-level globals `visited` and `doc` become the fields of a
 * `Crawler`; fetching is a finite map from URL to markup.
 */
module DepthFirstCrawler {
  import opened Util
  import opened Html
  import opened Urls
  import opened Extraction
  import opened Docx

  const BASE_URL: Url := Url("https", "romakksilicones.com", "/", "", "", "")

  /** The default `max_depth` of `crawl`. */
  const MAX_DEPTH: int := 200

  /** The tag names `parse_and_save_content` looks at. */
  const WANTED: set<string> := {"h1", "h2", "h3", "h4", "h5", "h6", "p", "table", "ul", "ol"}

  // ---------------------------------------------------------------------
  // extract_links
  // ---------------------------------------------------------------------

  /** The links `extract_links` returns: every anchor resolved, none filtered by scheme. */
  function Links(soup: Node, url: Url, resolve: Resolver): (r: set<Url>)
    ensures forall l :: l in r ==> IsClean(l) && l.netloc == BASE_URL.netloc
  {
    Harvest(Hrefs(soup), url, BASE_URL, resolve, NeverSkipped)
  }

  method ExtractLinks(soup: Node, url: Url, resolve: Resolver) returns (links: set<Url>)
    ensures links == Links(soup, url, resolve)
  {
    links := {};
    var hrefs := Hrefs(soup);
    for i := 0 to |hrefs|
      invariant links == Harvest(hrefs[..i], url, BASE_URL, resolve, NeverSkipped)
    {
      assert hrefs[..i + 1] == hrefs[..i] + [hrefs[i]];
      HarvestSnoc(hrefs[..i], hrefs[i], url, BASE_URL, resolve, NeverSkipped);
      var href := Strip(hrefs[i]);
      var fullUrl := resolve(url, href);
      if fullUrl.netloc == BASE_URL.netloc {
        links := links + {Clean(fullUrl)};
      }
    }
    assert hrefs[..|hrefs|] == hrefs;
  }

  /** Unlike faster.py, a `mailto:` target is resolved like any other and kept when it lands on the site's host. */
  lemma MailLinksNotFiltered(h: string, url: Url, resolve: Resolver)
    requires resolve(url, Strip(h)).netloc == BASE_URL.netloc
    ensures Follow(h, url, BASE_URL, resolve, NeverSkipped) == Some(Clean(resolve(url, Strip(h))))
  {
  }

  // ---------------------------------------------------------------------
  // The blocks parse_and_save_content writes
  // ---------------------------------------------------------------------

  /** `int(name[1]) if name[1].isdigit() else 1`, capped at 4. */
  function HeadingLevel(name: string): (r: int)
    requires |name| >= 2
    ensures 0 <= r <= 4
    ensures !IsDigit(name[1]) ==> r == 1
    ensures IsDigit(name[1]) ==> r == DigitValue(name[1]) || (r == 4 && DigitValue(name[1]) > 4)
  {
    var lvl := if IsDigit(name[1]) then DigitValue(name[1]) else 1;
    Min(lvl, 4)
  }

  /** h1 to h4 keep their level, h5 and h6 become level 4. */
  lemma HeadingLevels()
    ensures HeadingLevel("h1") == 1 && HeadingLevel("h2") == 2 && HeadingLevel("h3") == 3
    ensures HeadingLevel("h4") == 4 && HeadingLevel("h5") == 4 && HeadingLevel("h6") == 4
  {
    assert "h1"[1] == '1' && "h2"[1] == '2' && "h3"[1] == '3';
    assert "h4"[1] == '4' && "h5"[1] == '5' && "h6"[1] == '6';
  }

  /** The wanted names starting with `h` end in a digit from 1 to 6. */
  lemma WantedHeadingNames(name: string)
    requires name in WANTED && StartsWith(name, "h")
    ensures |name| >= 2 && IsDigit(name[1]) && 1 <= DigitValue(name[1]) <= 6
    ensures 1 <= HeadingLevel(name) <= 4
    ensures name != "p" && name != "table" && name != "ul" && name != "ol"
  {
    assert name[0] == name[..1][0] == 'h';
    assert name != "p" && name != "table" && name != "ul" && name != "ol";
  }

  /** The paragraph `add_list` writes for the `i`-th item (counting from 0). */
  function ListParagraph(items: seq<Node>, isOrdered: bool, i: nat): (r: Block)
    requires i < |items|
    ensures r.Paragraph? && r.style == (if isOrdered then ListNumber else ListBullet)
  {
    var text := GetText(items[i]);
    if isOrdered then Paragraph(DecimalString(i + 1) + ". " + text, ListNumber)
    else Paragraph(text, ListBullet)
  }

  /** What `add_list` appends: one paragraph per item, in order, in a list style. */
  function ListBlocks(items: seq<Node>, isOrdered: bool): (r: seq<Block>)
    ensures |r| == |items|
    ensures forall b :: b in r ==> b.Paragraph? && b.style == (if isOrdered then ListNumber else ListBullet)
  {
    seq(|items|, i requires 0 <= i < |items| => ListParagraph(items, isOrdered, i))
  }

  /** An ordered item's paragraph starts with its 1-based position in decimal, then `. ` and its text. */
  lemma OrderedItemsNumbered(items: seq<Node>, i: nat)
    requires i < |items|
    ensures var t := ListBlocks(items, true)[i].text;
            var d := DecimalString(i + 1);
            && |d| <= |t| && t[..|d|] == d && DecimalValue(d) == i + 1
            && t[|d|..] == ". " + GetText(items[i])
            && ListBlocks(items, true)[i].style == ListNumber
  {
    var d := DecimalString(i + 1);
    var t := d + ". " + GetText(items[i]);
    assert ListBlocks(items, true)[i] == ListParagraph(items, true, i);
    assert ListBlocks(items, true)[i].text == t;
    assert t[..|d|] == d;
    assert t[|d|..] == ". " + GetText(items[i]);
    DecimalRoundTrip(i + 1);
  }

  /** A bullet item's paragraph is its text unchanged. */
  lemma BulletItemsUnchanged(items: seq<Node>, i: nat)
    requires i < |items|
    ensures ListBlocks(items, false)[i] == Paragraph(GetText(items[i]), ListBullet)
  {
  }

  /** What one processed tag writes. */
  function TagBlocks(tag: Node): (r: seq<Block>)
    requires IsElementNamed(tag, WANTED)
    ensures forall b :: b in r ==> WellFormedBlock(b)
    ensures StartsWith(tag.name, "h") ==>
      |tag.name| >= 2 && r == [Heading(GetText(tag), HeadingLevel(tag.name))] && 1 <= r[0].level <= 4
    ensures tag.name == "p" ==> r == (if GetText(tag) == [] then [] else [Paragraph(GetText(tag), Normal)])
    ensures tag.name == "table" ==> r == TableBlocks(tag)
    ensures tag.name == "ul" || tag.name == "ol" ==> r == ListBlocks(ChildrenNamed(tag.children, "li"), tag.name == "ol")
  {
    if StartsWith(tag.name, "h") then
      WantedHeadingNames(tag.name);
      [Heading(GetText(tag), HeadingLevel(tag.name))]
    else if tag.name == "table" then TableBlocks(tag)
    else if tag.name == "ul" then ListBlocks(ChildrenNamed(tag.children, "li"), false)
    else if tag.name == "ol" then ListBlocks(ChildrenNamed(tag.children, "li"), true)
    else if tag.name == "p" && GetText(tag) != [] then [Paragraph(GetText(tag), Normal)]
    else []
  }

  /** What the processed tags write, in order. */
  function TagsBlocks(tags: seq<Pos>): seq<Block>
    requires forall e :: e in tags ==> IsElementNamed(e.node, WANTED)
  {
    if tags == [] then []
    else
      assert forall e :: e in tags[..|tags| - 1] ==> e in tags;
      TagsBlocks(tags[..|tags| - 1]) + TagBlocks(tags[|tags| - 1].node)
  }

  /** The body after navigation is removed, if the page has one. */
  function Body(soup: Node): Option<Node>
  {
    Find(StripNav(soup), "body")
  }

  /** `soup.body`, once navigation is removed, is a `body` element holding no `nav`, and is missing only when the page has none. */
  lemma BodyNavFree(soup: Node)
    ensures Body(soup).Some? ==> IsElementNamed(Body(soup).value, {"body"}) && NavFree(Body(soup).value)
    ensures Body(soup).None? <==> forall x :: Below(StripNav(soup), x) ==> !IsElementNamed(x, {"body"})
  {
    var stripped := StripNav(soup);
    FindFirst(stripped, "body");
    if Body(soup).Some? {
      StripNavNavFree(soup);
      NavFreeDescendants(stripped);
      assert Body(soup).value in FindAll(stripped, {"body"});
    }
  }

  /** What `parse_and_save_content` writes for a page (nothing when `soup.body` is missing). */
  function ContentBlocks(soup: Node): seq<Block>
  {
    match Body(soup)
    case None => []
    case Some(body) => TagsBlocks(TopLevelTags(body, WANTED))
  }

  /** Every block written for a page is well formed and comes from a wanted tag holding no navigation. */
  lemma ContentFromNavFreeTags(soup: Node)
    ensures forall b :: b in ContentBlocks(soup) ==>
      WellFormedBlock(b) && exists tag :: IsElementNamed(tag, WANTED) && NavFree(tag) && b in TagBlocks(tag)
  {
    var stripped := StripNav(soup);
    var found := Find(stripped, "body");
    if found.Some? {
      var body := found.value;
      StripNavNavFree(soup);
      NavFreeDescendants(stripped);
      assert body in FindAll(stripped, {"body"});
      assert NavFree(body);
      TopLevelTagsNavFree(body, WANTED);
      TagsBlocksFrom(TopLevelTags(body, WANTED));
    }
  }

  /** Each block of `TagsBlocks(tags)` is written by one of `tags`. */
  lemma {:induction false} TagsBlocksFrom(tags: seq<Pos>)
    requires forall e :: e in tags ==> IsElementNamed(e.node, WANTED)
    ensures forall b :: b in TagsBlocks(tags) ==> exists e :: e in tags && b in TagBlocks(e.node)
  {
    if tags != [] {
      var init := tags[..|tags| - 1];
      assert forall e :: e in init ==> e in tags;
      TagsBlocksFrom(init);
    }
  }

  // ---------------------------------------------------------------------
  // Writing the document
  // ---------------------------------------------------------------------

  method AddTable(doc: Document, table: Node)
    modifies doc
    ensures doc.blocks == old(doc.blocks) + TableBlocks(table)
  {
    var rows := FindAll(table, {"tr"});
    if rows == [] {
      TableWithoutCells(table);
      return;
    }
    var maxCols := ColumnCount(rows);
    if maxCols == 0 {
      TableWithoutCells(table);
      return;
    }
    var grid := FillGrid(rows, maxCols);
    doc.AddTable(grid);
  }

  /** The loop computing `max_cols`, raising it whenever a row has more cells. */
  method ColumnCount(rows: seq<Node>) returns (maxCols: nat)
    ensures maxCols == MaxCells(RowsTexts(rows))
  {
    maxCols := 0;
    for r := 0 to |rows|
      invariant maxCols == MaxCells(RowsTexts(rows[..r]))
    {
      assert RowsTexts(rows[..r + 1])[..r] == RowsTexts(rows[..r]);
      var numCells := |FindAll(rows[r], {"td", "th"})|;
      if numCells > maxCols {
        maxCols := numCells;
      }
    }
    assert rows[..|rows|] == rows;
  }

  method AddList(doc: Document, items: seq<Node>, isOrdered: bool)
    modifies doc
    ensures doc.blocks == old(doc.blocks) + ListBlocks(items, isOrdered)
  {
    for i := 0 to |items|
      invariant doc.blocks == old(doc.blocks) + ListBlocks(items[..i], isOrdered)
    {
      var text := GetText(items[i]);
      if isOrdered {
        doc.AddParagraph(DecimalString(i + 1) + ". " + text, ListNumber);
      } else {
        doc.AddParagraph(text, ListBullet);
      }
      assert ListBlocks(items[..i + 1], isOrdered) == ListBlocks(items[..i], isOrdered) + [ListParagraph(items, isOrdered, i)];
    }
    assert items[..|items|] == items;
  }

  /** The branch of `parse_and_save_content` that writes one processed tag. */
  method SaveTag(doc: Document, tag: Node)
    requires IsElementNamed(tag, WANTED)
    modifies doc
    ensures doc.blocks == old(doc.blocks) + TagBlocks(tag)
  {
    if StartsWith(tag.name, "h") {
      WantedHeadingNames(tag.name);
      var lvl := if IsDigit(tag.name[1]) then DigitValue(tag.name[1]) else 1;
      doc.AddHeading(GetText(tag), Min(lvl, 4));
    } else if tag.name == "table" {
      AddTable(doc, tag);
    } else if tag.name == "ul" {
      AddList(doc, ChildrenNamed(tag.children, "li"), false);
    } else if tag.name == "ol" {
      AddList(doc, ChildrenNamed(tag.children, "li"), true);
    } else if tag.name == "p" && GetText(tag) != [] {
      doc.AddParagraph(GetText(tag), Normal);
    }
  }

  /**
   * Removes navigation, then writes the body's processed tags in document
   * order.  `ok` is false where `soup.body.find_all` raises because the
   * page has no body; nothing is written then.
   */
  method ParseAndSaveContent(doc: Document, soup: Node) returns (ok: bool)
    modifies doc
    ensures ok <==> Body(soup).Some?
    ensures doc.blocks == old(doc.blocks) + ContentBlocks(soup)
  {
    var stripped := StripNav(soup);
    var found := Find(stripped, "body");
    if found.None? {
      return false;
    }
    SaveTopLevelTags(doc, found.value);
    return true;
  }

  /** The loop of `parse_and_save_content` over `soup.body.find_all(True)`. */
  method SaveTopLevelTags(doc: Document, body: Node)
    modifies doc
    ensures doc.blocks == old(doc.blocks) + TagsBlocks(TopLevelTags(body, WANTED))
  {
    var tags := Descendants(body);
    var processed: seq<Pos> := [];
    for j := 0 to |tags|
      invariant processed == Selected(body, tags[..j], WANTED)
      invariant doc.blocks == old(doc.blocks) + TagsBlocks(processed)
    {
      var tag := tags[j];
      SelectStep(body, j, processed, WANTED);
      if IsElementNamed(tag.node, WANTED) && !UnderProcessed(processed, tag.path) {
        ghost var written := TagsBlocks(processed);
        SaveTag(doc, tag.node);
        TagsBlocksSnoc(processed, tag);
        processed := processed + [tag];
        AppendAssoc(old(doc.blocks), written, TagBlocks(tag.node));
      }
    }
    assert tags[..|tags|] == tags;
  }

  lemma TagsBlocksSnoc(tags: seq<Pos>, t: Pos)
    requires forall e :: e in tags ==> IsElementNamed(e.node, WANTED)
    requires IsElementNamed(t.node, WANTED)
    ensures forall e :: e in tags + [t] ==> IsElementNamed(e.node, WANTED)
    ensures TagsBlocks(tags + [t]) == TagsBlocks(tags) + TagBlocks(t.node)
  {
    assert (tags + [t])[..|tags|] == tags;
  }

  // ---------------------------------------------------------------------
  // The crawler
  // ---------------------------------------------------------------------

  /** `s'` starts with `s`, and `d'` agrees with `d` on its keys. */
  ghost predicate Extends(s: seq<Url>, d: map<Url, int>, s': seq<Url>, d': map<Url, int>)
  {
    && |s| <= |s'| && s'[..|s|] == s
    && forall u :: u in d ==> u in d' && d'[u] == d[u]
  }

  lemma ExtendsTransitive(s: seq<Url>, d: map<Url, int>, s': seq<Url>, d': map<Url, int>,
                          s'': seq<Url>, d'': map<Url, int>)
    requires Extends(s, d, s', d') && Extends(s', d', s'', d'')
    ensures Extends(s, d, s'', d'')
  {
    assert s''[..|s|] == s''[..|s'|][..|s|];
  }

  /** The state of `crawl`'s globals: the visited set, plus the order and depth of each visit. */
  class Crawler {
    /** The pages `driver.get` can load; any other URL raises. */
    const site: map<Url, string>
    /** `BeautifulSoup(page_source, "html.parser")`. */
    const parse: string -> Node
    /** `urljoin` followed by `urlparse`. */
    const resolve: Resolver
    const doc: Document
    var visited: set<Url>
    /** The visited URLs in the order they were added. */
    ghost var trace: seq<Url>
    /** The depth at which each visited URL was crawled. */
    ghost var depthAt: map<Url, int>

    ghost predicate Valid()
      reads this
    {
      Enumerates(trace, visited) && depthAt.Keys == visited
    }

    constructor (site: map<Url, string>, parse: string -> Node, resolve: Resolver)
      ensures this.site == site && this.parse == parse && this.resolve == resolve
      ensures visited == {} && trace == [] && depthAt == map[]
      ensures fresh(doc) && doc.blocks == []
      ensures Valid()
    {
      this.site := site;
      this.parse := parse;
      this.resolve := resolve;
      doc := new Document();
      visited := {};
      trace := [];
      depthAt := map[];
    }

    /** The page loads and, once navigation is removed, has a body. */
    predicate PageOk(url: Url)
    {
      url in site && Body(parse(site[url])).Some?
    }

    /** The links `crawl(url, ...)` recurses on: none when loading or `soup.body` raised. */
    function FollowedLinks(url: Url): (r: set<Url>)
      ensures forall l :: l in r ==> IsClean(l) && l.netloc == BASE_URL.netloc
      ensures !PageOk(url) ==> r == {}
    {
      if PageOk(url) then Links(parse(site[url]), url, resolve) else {}
    }

    /** What one visit writes: nothing when loading raised, else the title heading and the content. */
    function PageSection(url: Url): (r: seq<Block>)
      ensures url !in site ==> r == []
      ensures url in site ==> |r| >= 1 && r[0] == Heading("Page: " + Render(url), 1)
      ensures url in site && !PageOk(url) ==> r == [Heading("Page: " + Render(url), 1)]
    {
      if url in site then [Heading("Page: " + Render(url), 1)] + ContentBlocks(parse(site[url])) else []
    }

    function Sections(urls: seq<Url>): seq<Block>
    {
      if urls == [] then [] else Sections(urls[..|urls| - 1]) + PageSection(urls[|urls| - 1])
    }

    lemma {:induction false} SectionsAppend(a: seq<Url>, b: seq<Url>)
      ensures Sections(a + b) == Sections(a) + Sections(b)
      decreases |b|
    {
      if b == [] {
        assert a + b == a;
      } else {
        var init, last := b[..|b| - 1], b[|b| - 1];
        assert b == init + [last];
        assert a + b == (a + init) + [last];
        SectionsSnoc(a + init, last);
        SectionsSnoc(init, last);
        SectionsAppend(a, init);
        AppendAssoc(Sections(a), Sections(init), PageSection(last));
      }
    }

    lemma SectionsSnoc(urls: seq<Url>, url: Url)
      ensures Sections(urls + [url]) == Sections(urls) + PageSection(url)
    {
      assert (urls + [url])[..|urls|] == urls;
    }

    /** The `i`-th visit followed a link of an earlier visit at index `lo` or later, one level deeper. */
    ghost predicate FoundWithin(t: seq<Url>, d: map<Url, int>, lo: nat, i: nat)
      requires i < |t|
    {
      exists j :: lo <= j < i && t[j] in d && t[i] in d && t[i] in FollowedLinks(t[j]) && d[t[i]] == d[t[j]] + 1
    }

    /**
     * What a call `crawl(url, depth, maxDepth)` that does not return at once
     * adds to the trace `t0`: `url` first, at `depth`; then only URLs found
     * on pages of this call, one level below the page they were found on,
     * none deeper than `maxDepth`.
     */
    ghost predicate VisitedFrom(t0: seq<Url>, url: Url, depth: int, maxDepth: int, t: seq<Url>, d: map<Url, int>)
    {
      && |t0| < |t| && t[|t0|] == url && url in d && d[url] == depth
      && (forall i :: |t0| <= i < |t| ==> t[i] in d && depth <= d[t[i]] <= maxDepth)
      && (forall i :: |t0| < i < |t| ==> FoundWithin(t, d, |t0|, i))
    }

    /** A recursive call on a link of `url` keeps `VisitedFrom` for the enclosing call. */
    lemma RecursionStep(t0: seq<Url>, d0: map<Url, int>, url: Url, depth: int, maxDepth: int,
                        t1: seq<Url>, d1: map<Url, int>, link: Url, t: seq<Url>, d: map<Url, int>)
      requires Extends(t0, d0, t1, d1) && VisitedFrom(t0, url, depth, maxDepth, t1, d1)
      requires link in FollowedLinks(url) && link !in d1
      requires Extends(t1, d1, t, d)
      requires depth + 1 > maxDepth ==> t == t1 && d == d1
      requires depth + 1 <= maxDepth ==> VisitedFrom(t1, link, depth + 1, maxDepth, t, d)
      ensures Extends(t0, d0, t, d) && VisitedFrom(t0, url, depth, maxDepth, t, d)
    {
      ExtendsTransitive(t0, d0, t1, d1, t, d);
      var n0, n1 := |t0|, |t1|;
      assert t[n0] == t1[n0] by { assert t[..n1][n0] == t1[n0]; }
      forall i | n0 <= i < |t|
        ensures t[i] in d && depth <= d[t[i]] <= maxDepth
      {
        if i < n1 {
          assert t[i] == t[..n1][i] == t1[i];
        }
      }
      forall i | n0 < i < |t|
        ensures FoundWithin(t, d, n0, i)
      {
        if i < n1 {
          assert FoundWithin(t1, d1, n0, i);
          FoundKept(t1, d1, t, d, n0, i);
        } else if i == n1 {
          assert t[n0] == url && t[i] == link;
        } else {
          assert FoundWithin(t, d, n1, i);
          FoundWidened(t, d, n0, n1, i);
        }
      }
    }

    /** A URL found on an earlier page stays found once the trace is extended. */
    lemma FoundKept(t1: seq<Url>, d1: map<Url, int>, t: seq<Url>, d: map<Url, int>, lo: nat, i: nat)
      requires Extends(t1, d1, t, d) && i < |t1| && FoundWithin(t1, d1, lo, i)
      ensures i < |t| && FoundWithin(t, d, lo, i)
    {
      var j :| lo <= j < i && t1[j] in d1 && t1[i] in d1 && t1[i] in FollowedLinks(t1[j])
               && d1[t1[i]] == d1[t1[j]] + 1;
      assert t[j] == t[..|t1|][j] == t1[j] && t[i] == t[..|t1|][i] == t1[i];
    }

    /** A URL found on a page after position `hi` was found after any earlier position. */
    lemma FoundWidened(t: seq<Url>, d: map<Url, int>, lo: nat, hi: nat, i: nat)
      requires lo <= hi && i < |t| && FoundWithin(t, d, hi, i)
      ensures FoundWithin(t, d, lo, i)
    {
      var j :| hi <= j < i && t[j] in d && t[i] in d && t[i] in FollowedLinks(t[j]) && d[t[i]] == d[t[j]] + 1;
    }

    /**
     * What a call `crawl(url, depth, maxDepth)` does to the crawler's state,
     * from trace `t0`, depths `d0`, visited set `v0` and document `b0` to
     * `t`, `d`, `v`, `b`.  The trace only grows and `visited` with it.  A
     * visited URL, or one deeper than the bound, changes nothing.  Otherwise
     * `url` is visited first, at `depth`, and every later visit of the call
     * follows a link found during the call, never deeper than `maxDepth`.
     * Every page visited by the call below `maxDepth` has all its links
     * visited, and the document gains each new visit's section in visiting
     * order.
     */
    ghost predicate CrawlEffect(t0: seq<Url>, d0: map<Url, int>, v0: set<Url>, b0: seq<Block>,
                                url: Url, depth: int, maxDepth: int,
                                t: seq<Url>, d: map<Url, int>, v: set<Url>, b: seq<Block>)
    {
      && Extends(t0, d0, t, d) && v0 <= v
      && (url in v0 || depth > maxDepth ==> t == t0 && d == d0 && v == v0 && b == b0)
      && (!(url in v0 || depth > maxDepth) ==> VisitedFrom(t0, url, depth, maxDepth, t, d))
      && ClosedFrom(t, d, v, |t0|, maxDepth)
      && b == b0 + Sections(t[|t0|..])
    }

    /**
     * `crawl(url, depth, max_depth)`.  It returns at once when `url` is
     * visited or too deep.  Otherwise it marks `url` visited, loads it and
     * writes its section; a page that fails to load stays visited and is
     * never retried, and one without a body is not followed.  Otherwise it
     * crawls each link one level deeper.
     */
    method Crawl(url: Url, depth: int, maxDepth: int)
      requires Valid()
      modifies this, doc
      decreases maxDepth - depth, 1
      ensures Valid()
      ensures CrawlEffect(old(trace), old(depthAt), old(visited), old(doc.blocks), url, depth, maxDepth,
                          trace, depthAt, visited, doc.blocks)
    {
      if url in visited || depth > maxDepth {
        CrawlSkipped(trace, depthAt, visited, doc.blocks, url, depth, maxDepth);
        return;
      }
      ghost var t0, d0, v0, b0 := trace, depthAt, visited, doc.blocks;
      EnumeratesAppend(trace, visited, url);
      visited := visited + {url};
      trace := trace + [url];
      depthAt := depthAt[url := depth];
      if url !in site {
        FirstVisit(t0, d0, v0, b0, url, depth, maxDepth, doc.blocks);
        FollowDone(trace, depthAt, visited, doc.blocks, url, depth, maxDepth, {}, t0, d0, v0, b0);
        return;
      }
      var soup := parse(site[url]);
      var links := ExtractLinks(soup, url, resolve);
      doc.AddHeading("Page: " + Render(url), 1);
      var ok := ParseAndSaveContent(doc, soup);
      AppendAssoc(b0, [Heading("Page: " + Render(url), 1)], ContentBlocks(soup));
      FirstVisit(t0, d0, v0, b0, url, depth, maxDepth, doc.blocks);
      if !ok {
        FollowDone(trace, depthAt, visited, doc.blocks, url, depth, maxDepth, {}, t0, d0, v0, b0);
        return;
      }
      FollowLinks(url, depth, maxDepth, links, t0, d0, v0, b0);
    }

    /** A call that returns at once leaves the state as it was. */
    lemma CrawlSkipped(t: seq<Url>, d: map<Url, int>, v: set<Url>, b: seq<Block>, url: Url, depth: int, maxDepth: int)
      requires url in v || depth > maxDepth
      ensures CrawlEffect(t, d, v, b, url, depth, maxDepth, t, d, v, b)
    {
      assert t[..|t|] == t;
      assert t[|t|..] == [];
    }

    /**
     * The state of a call once `url` is visited and its section written:
     * every visit so far follows a link found during the call, and every page
     * visited after `url` has its links visited.
     */
    ghost predicate Started(t0: seq<Url>, d0: map<Url, int>, v0: set<Url>, b0: seq<Block>,
                            url: Url, depth: int, maxDepth: int,
                            t: seq<Url>, d: map<Url, int>, v: set<Url>, b: seq<Block>)
    {
      && url !in v0 && depth <= maxDepth
      && Extends(t0, d0, t, d) && v0 <= v
      && VisitedFrom(t0, url, depth, maxDepth, t, d)
      && ClosedFrom(t, d, v, |t0| + 1, maxDepth)
      && b == b0 + Sections(t[|t0|..])
    }

    /** Visiting `url` and writing its section starts the call. */
    lemma FirstVisit(t0: seq<Url>, d0: map<Url, int>, v0: set<Url>, b0: seq<Block>,
                     url: Url, depth: int, maxDepth: int, b: seq<Block>)
      requires d0.Keys == v0 && url !in v0 && depth <= maxDepth
      requires b == b0 + PageSection(url)
      ensures Started(t0, d0, v0, b0, url, depth, maxDepth, t0 + [url], d0[url := depth], v0 + {url}, b)
    {
      var t := t0 + [url];
      assert t[..|t0|] == t0;
      assert t[|t0|..] == [url];
      assert [url][..0] == [];
      assert Sections([url]) == PageSection(url);
    }

    /**
     * The loop of `crawl` over the links of a page that loaded: each link
     * not yet visited is crawled one level deeper, in an arbitrary order.
     */
    method FollowLinks(url: Url, depth: int, maxDepth: int, links: set<Url>,
                       ghost t0: seq<Url>, ghost d0: map<Url, int>, ghost v0: set<Url>, ghost b0: seq<Block>)
      requires Valid() && links == FollowedLinks(url)
      requires Started(t0, d0, v0, b0, url, depth, maxDepth, trace, depthAt, visited, doc.blocks)
      modifies this, doc
      decreases maxDepth - depth, 0
      ensures Valid()
      ensures CrawlEffect(t0, d0, v0, b0, url, depth, maxDepth, trace, depthAt, visited, doc.blocks)
    {
      var todo := links;
      while todo != {}
        invariant Valid()
        invariant Following(trace, depthAt, visited, doc.blocks, url, depth, maxDepth, links, todo, t0, d0, v0, b0)
        decreases |todo|
      {
        var link :| link in todo;
        if link !in visited {
          ghost var t1, d1, v1, b1 := trace, depthAt, visited, doc.blocks;
          Crawl(link, depth + 1, maxDepth);
          FollowStep(t1, d1, v1, b1, trace, depthAt, visited, doc.blocks, url, depth, maxDepth, links, todo, link,
                     t0, d0, v0, b0);
        }
        todo := todo - {link};
      }
      FollowDone(trace, depthAt, visited, doc.blocks, url, depth, maxDepth, links, t0, d0, v0, b0);
    }

    /** The invariant of the loop in `FollowLinks`: the links no longer in `todo` are visited below the bound. */
    ghost predicate Following(t: seq<Url>, d: map<Url, int>, v: set<Url>, b: seq<Block>,
                              url: Url, depth: int, maxDepth: int, links: set<Url>, todo: set<Url>,
                              t0: seq<Url>, d0: map<Url, int>, v0: set<Url>, b0: seq<Block>)
    {
      && Enumerates(t, v) && d.Keys == v
      && todo <= links && links == FollowedLinks(url)
      && Started(t0, d0, v0, b0, url, depth, maxDepth, t, d, v, b)
      && (depth < maxDepth ==> links - todo <= v)
    }

    /** Crawling the unvisited `link` one level deeper keeps the loop invariant. */
    lemma FollowStep(t1: seq<Url>, d1: map<Url, int>, v1: set<Url>, b1: seq<Block>,
                     t: seq<Url>, d: map<Url, int>, v: set<Url>, b: seq<Block>,
                     url: Url, depth: int, maxDepth: int, links: set<Url>, todo: set<Url>, link: Url,
                     t0: seq<Url>, d0: map<Url, int>, v0: set<Url>, b0: seq<Block>)
      requires Following(t1, d1, v1, b1, url, depth, maxDepth, links, todo, t0, d0, v0, b0)
      requires link in todo && link !in v1
      requires Enumerates(t, v) && d.Keys == v
      requires CrawlEffect(t1, d1, v1, b1, link, depth + 1, maxDepth, t, d, v, b)
      ensures Following(t, d, v, b, url, depth, maxDepth, links, todo - {link}, t0, d0, v0, b0)
    {
      RecursionStep(t0, d0, url, depth, maxDepth, t1, d1, link, t, d);
      assert forall u :: u in t1 ==> u in d1;
      ClosedStep(t1, d1, v1, t, d, v, |t0| + 1, maxDepth);
      SectionsSplit(|t0|, t1, t);
      AppendAssoc(b0, Sections(t1[|t0|..]), Sections(t[|t1|..]));
      if depth + 1 <= maxDepth {
        assert t[|t1|] == link;
      }
    }

    /** Once every link is handled, the call's effect is complete. */
    lemma FollowDone(t: seq<Url>, d: map<Url, int>, v: set<Url>, b: seq<Block>,
                     url: Url, depth: int, maxDepth: int, links: set<Url>,
                     t0: seq<Url>, d0: map<Url, int>, v0: set<Url>, b0: seq<Block>)
      requires Following(t, d, v, b, url, depth, maxDepth, links, {}, t0, d0, v0, b0)
      ensures CrawlEffect(t0, d0, v0, b0, url, depth, maxDepth, t, d, v, b)
    {
      forall i | |t0| <= i < |t| && t[i] in d && d[t[i]] < maxDepth
        ensures FollowedLinks(t[i]) <= v
      {
        if i == |t0| {
          assert t[i] == url;
        } else {
          assert ClosedFrom(t, d, v, |t0| + 1, maxDepth);
        }
      }
    }

    /**
     * Every page at index `lo` or later of the trace that was crawled below
     * `maxDepth` has all the links it follows in `v`.
     */
    ghost predicate ClosedFrom(t: seq<Url>, d: map<Url, int>, v: set<Url>, lo: nat, maxDepth: int)
    {
      forall i :: lo <= i < |t| && t[i] in d && d[t[i]] < maxDepth ==> FollowedLinks(t[i]) <= v
    }

    /** Closure survives a nested call that closes its own part of the trace. */
    lemma ClosedStep(t1: seq<Url>, d1: map<Url, int>, v1: set<Url>, t: seq<Url>, d: map<Url, int>, v: set<Url>,
                     lo: nat, maxDepth: int)
      requires ClosedFrom(t1, d1, v1, lo, maxDepth) && Extends(t1, d1, t, d) && v1 <= v
      requires forall u :: u in t1 ==> u in d1
      requires ClosedFrom(t, d, v, |t1|, maxDepth)
      ensures ClosedFrom(t, d, v, lo, maxDepth)
    {
      forall i | lo <= i < |t| && t[i] in d && d[t[i]] < maxDepth
        ensures FollowedLinks(t[i]) <= v
      {
        if i < |t1| {
          var u := t1[i];
          assert t[i] == t[..|t1|][i] == u;
          assert u in d1 && d1[u] == d[u];
          assert FollowedLinks(u) <= v1;
        }
      }
    }

    /** The sections of a trace extended by a nested call split at the call's start. */
    lemma SectionsSplit(n0: nat, t1: seq<Url>, t: seq<Url>)
      requires n0 <= |t1| <= |t| && t[..|t1|] == t1
      ensures Sections(t[n0..]) == Sections(t1[n0..]) + Sections(t[|t1|..])
    {
      assert t[n0..] == t1[n0..] + t[|t1|..];
      SectionsAppend(t1[n0..], t[|t1|..]);
    }

    /** `main`: crawl from the base URL with the default depth bound. */
    method Run()
      requires Valid() && visited == {}
      modifies this, doc
      ensures Valid()
      ensures |trace| >= 1 && trace[0] == BASE_URL
      ensures forall u :: u in visited ==> u == BASE_URL || (IsClean(u) && u.netloc == BASE_URL.netloc)
      ensures forall u :: u in visited ==> 0 <= depthAt[u] <= MAX_DEPTH
      ensures forall u :: u in visited && depthAt[u] < MAX_DEPTH ==> FollowedLinks(u) <= visited
      ensures doc.blocks == old(doc.blocks) + Sections(trace)
    {
      Crawl(BASE_URL, 0, MAX_DEPTH);
      assert trace[0..] == trace;
      RunVisits(trace, depthAt, visited);
    }

    /** Everything a crawl from the base URL visits is the base URL or a same-site link, within the depth bound. */
    lemma RunVisits(t: seq<Url>, d: map<Url, int>, v: set<Url>)
      requires Enumerates(t, v) && d.Keys == v
      requires VisitedFrom([], BASE_URL, 0, MAX_DEPTH, t, d)
      requires ClosedFrom(t, d, v, 0, MAX_DEPTH)
      ensures forall u :: u in v ==> u == BASE_URL || (IsClean(u) && u.netloc == BASE_URL.netloc)
      ensures forall u :: u in v ==> 0 <= d[u] <= MAX_DEPTH
      ensures forall u :: u in v && d[u] < MAX_DEPTH ==> FollowedLinks(u) <= v
    {
      forall u | u in v
        ensures u == BASE_URL || (IsClean(u) && u.netloc == BASE_URL.netloc)
        ensures 0 <= d[u] <= MAX_DEPTH
        ensures d[u] < MAX_DEPTH ==> FollowedLinks(u) <= v
      {
        var i :| 0 <= i < |t| && t[i] == u;
        if i > 0 {
          assert FoundWithin(t, d, 0, i);
        }
      }
    }
  }
}
