/**
 * faster.py: a worker pool crawls the site.  Each worker fetches a page,
 * harvests its same-site links and extracts its content; the main loop
 * writes each finished page to the document and claims the links it has
 * not seen.  The pool is sequentialised: a round takes the futures
 * outstanding at its start, and completes them one at a time in any order.
 */
module FasterCrawler {
  import opened Util
  import opened Html
  import opened Urls
  import opened Extraction
  import opened Docx

  const BASE_URL: Url := Url("https", "romakksilicones.com", "/", "", "", "")

  /** The tag names `parse_content_and_links` looks at. */
  const WANTED: set<string> := {"h1", "h2", "h3", "h4", "p", "table", "ul", "ol"}

  /** An entry of `content_structure`. */
  datatype Item =
    | HeadingItem(text: string, level: int)
    | TableItem(table: Node)
    | ListItem(items: seq<Node>, ordered: bool)
    | ParagraphItem(text: string)

  /** Headings have a level from 1 to 4, paragraphs have text, lists hold `li` elements. */
  predicate WellFormed(it: Item)
  {
    && (it.HeadingItem? ==> 1 <= it.level <= 4)
    && (it.ParagraphItem? ==> it.text != [])
    && (it.ListItem? ==> forall x :: x in it.items ==> IsElementNamed(x, {"li"}))
  }

  // ---------------------------------------------------------------------
  // parse_content_and_links
  // ---------------------------------------------------------------------

  /** What one processed tag adds to `content_structure`. */
  function TagItems(tag: Node): (r: seq<Item>)
    requires IsElementNamed(tag, WANTED)
    ensures |r| <= 1
    ensures r == [] <==> tag.name == "p" && GetText(tag) == []
    ensures forall it :: it in r ==> WellFormed(it)
    ensures StartsWith(tag.name, "h") ==>
      |tag.name| >= 2 && IsDigit(tag.name[1]) && r == [HeadingItem(GetText(tag), Min(DigitValue(tag.name[1]), 4))]
    ensures tag.name == "p" && GetText(tag) != [] ==> r == [ParagraphItem(GetText(tag))]
    ensures tag.name == "table" ==> r == [TableItem(tag)]
    ensures tag.name in {"ul", "ol"} ==> r == [ListItem(ChildrenNamed(tag.children, "li"), tag.name == "ol")]
  {
    if StartsWith(tag.name, "h") then
      WantedHeadingNames(tag.name);
      if |tag.name| >= 2 && IsDigit(tag.name[1])
      then [HeadingItem(GetText(tag), Min(DigitValue(tag.name[1]), 4))]
      else []
    else if tag.name == "table" then [TableItem(tag)]
    else if tag.name == "ul" then [ListItem(ChildrenNamed(tag.children, "li"), false)]
    else if tag.name == "ol" then [ListItem(ChildrenNamed(tag.children, "li"), true)]
    else if tag.name == "p" && GetText(tag) != [] then [ParagraphItem(GetText(tag))]
    else []
  }

  /** The wanted names starting with `h` end in a digit from 1 to 4. */
  lemma WantedHeadingNames(name: string)
    requires name in WANTED && StartsWith(name, "h")
    ensures |name| >= 2 && IsDigit(name[1]) && 1 <= DigitValue(name[1]) <= 4
  {
    assert name[0] == name[..1][0] == 'h';
    assert name != "p" && name != "table" && name != "ul" && name != "ol";
  }

  /** The entries the processed tags add, in order. */
  function ItemsOf(tags: seq<Pos>): (r: seq<Item>)
    requires forall e :: e in tags ==> IsElementNamed(e.node, WANTED)
    ensures forall it :: it in r ==> WellFormed(it)
    ensures forall it :: it in r ==> exists e :: e in tags && it in TagItems(e.node)
  {
    if tags == [] then []
    else
      var last := tags[|tags| - 1];
      assert forall e :: e in tags[..|tags| - 1] ==> e in tags;
      ItemsOf(tags[..|tags| - 1]) + TagItems(last.node)
  }

  /** `content_structure` for a parsed page: navigation removed, then the body's processed tags. */
  function Content(soup: Node): seq<Item>
  {
    match Find(StripNav(soup), "body")
    case None => []
    case Some(body) => ItemsOf(TopLevelTags(body, WANTED))
  }

  /** The link set `parse_content_and_links` returns for a parsed page. */
  function Links(soup: Node, url: Url, resolve: Resolver): set<Url>
  {
    Harvest(Hrefs(soup), url, BASE_URL, resolve, Skipped)
  }

  /**
   * Links are harvested from the whole page, navigation included, then
   * navigation is decomposed and the body walked in document order.
   */
  method ParseContentAndLinks(html: Option<string>, url: Url, parse: string -> Node, resolve: Resolver)
    returns (content: seq<Item>, links: set<Url>)
    ensures html.None? || html.value == [] ==> content == [] && links == {}
    ensures html.Some? && html.value != [] ==>
      content == Content(parse(html.value)) && links == Links(parse(html.value), url, resolve)
  {
    if html.None? || html.value == [] {
      return [], {};
    }
    var soup := parse(html.value);

    links := HarvestLinks(soup, url, resolve);
    content := [];
    soup := StripNav(soup);
    var bodyContent := Find(soup, "body");
    if bodyContent.Some? {
      content := CollectContent(bodyContent.value);
    }
  }

  /** The loop over `soup.find_all('a', href=True)`: filter, resolve, keep same-host links cleaned. */
  method HarvestLinks(soup: Node, url: Url, resolve: Resolver) returns (links: set<Url>)
    ensures links == Links(soup, url, resolve)
  {
    links := {};
    var hrefs := Hrefs(soup);
    for i := 0 to |hrefs|
      invariant links == Harvest(hrefs[..i], url, BASE_URL, resolve, Skipped)
    {
      assert hrefs[..i + 1] == hrefs[..i] + [hrefs[i]];
      HarvestSnoc(hrefs[..i], hrefs[i], url, BASE_URL, resolve, Skipped);
      var href := Strip(hrefs[i]);
      if Skipped(href) {
        continue;
      }
      var fullUrl := resolve(url, href);
      if fullUrl.netloc == BASE_URL.netloc {
        links := links + {Clean(fullUrl)};
      }
    }
    assert hrefs[..|hrefs|] == hrefs;
  }

  /** The loop over `body_content.find_all(True)` that fills `content_structure`. */
  method CollectContent(body: Node) returns (content: seq<Item>)
    ensures content == ItemsOf(TopLevelTags(body, WANTED))
  {
    content := [];
    var processed: seq<Pos> := [];
    var tags := Descendants(body);
    for j := 0 to |tags|
      invariant processed == Selected(body, tags[..j], WANTED)
      invariant content == ItemsOf(processed)
    {
      var tag := tags[j];
      SelectStep(body, j, processed, WANTED);
      if !IsElementNamed(tag.node, WANTED) {
        continue;
      }
      if UnderProcessed(processed, tag.path) {
        continue;
      }
      ItemsOfSnoc(processed, tag);
      content := content + TagItems(tag.node);
      processed := processed + [tag];
    }
    assert tags[..|tags|] == tags;
  }

  lemma ItemsOfSnoc(tags: seq<Pos>, t: Pos)
    requires forall e :: e in tags ==> IsElementNamed(e.node, WANTED)
    requires IsElementNamed(t.node, WANTED)
    ensures forall e :: e in tags + [t] ==> IsElementNamed(e.node, WANTED)
    ensures ItemsOf(tags + [t]) == ItemsOf(tags) + TagItems(t.node)
  {
    assert (tags + [t])[..|tags|] == tags;
  }

  /** Every entry of the content comes from a wanted tag that holds no navigation. */
  lemma ContentHasNoNavigation(soup: Node)
    ensures forall it :: it in Content(soup) ==>
      exists tag :: IsElementNamed(tag, WANTED) && NavFree(tag) && it in TagItems(tag)
  {
    var stripped := StripNav(soup);
    var found := Find(stripped, "body");
    if found.Some? {
      var body := found.value;
      StripNavNavFree(soup);
      NavFreeDescendants(stripped);
      assert body in FindAll(stripped, {"body"});
      assert NavFree(body);
      TopLevelTagsNavFree(body, WANTED);
    }
  }

  /** Every anchor of the page, inside a `nav` or not, contributes its link when it passes the filter. */
  lemma AnchorLinkHarvested(soup: Node, p: Path, h: string, url: Url, resolve: Resolver)
    requires p != [] && Subtree(soup, p).Some?
    requires var a := Subtree(soup, p).value; a.Element? && a.name == "a" && a.href == Some(h)
    requires Follow(h, url, BASE_URL, resolve, Skipped).Some?
    ensures Follow(h, url, BASE_URL, resolve, Skipped).value in Links(soup, url, resolve)
  {
    AnchorHrefListed(soup, p, h);
    HarvestMembers(Hrefs(soup), url, BASE_URL, resolve, Skipped);
  }

  // ---------------------------------------------------------------------
  // Writing the document
  // ---------------------------------------------------------------------

  /** What `add_list` appends: one paragraph per item, numbered style for an ordered list. */
  function ListBlocks(items: seq<Node>, isOrdered: bool): (r: seq<Block>)
    ensures |r| == |items|
    ensures forall b :: b in r ==> b.Paragraph? && b.style == (if isOrdered then ListNumber else ListBullet)
  {
    seq(|items|, i requires 0 <= i < |items| =>
      Paragraph(GetText(items[i]), if isOrdered then ListNumber else ListBullet))
  }

  /** What the main loop writes for one entry of `content_structure`. */
  function ItemBlocks(it: Item): (r: seq<Block>)
    ensures WellFormed(it) ==> forall b :: b in r ==> WellFormedBlock(b)
    ensures it.HeadingItem? || it.ParagraphItem? ==> |r| == 1
    ensures PageBreak !in r
  {
    match it
    case HeadingItem(text, level) => [Heading(text, level)]
    case ParagraphItem(text) => [Paragraph(text, Normal)]
    case TableItem(table) => TableBlocks(table)
    case ListItem(items, ordered) => ListBlocks(items, ordered)
  }

  /** The blocks of a page's content; none of them is a page break. */
  function ContentBlocks(content: seq<Item>): (r: seq<Block>)
    ensures PageBreak !in r
  {
    if content == [] then [] else ContentBlocks(content[..|content| - 1]) + ItemBlocks(content[|content| - 1])
  }

  /** One page of the document: its title heading, its content, a page break. */
  function PageBlocks(url: Url, content: seq<Item>): (r: seq<Block>)
    ensures |r| >= 2 && r[0] == Heading("Page: " + Render(url), 1) && r[|r| - 1] == PageBreak
    ensures forall i :: 0 <= i < |r| - 1 ==> r[i] != PageBreak
  {
    [Heading("Page: " + Render(url), 1)] + ContentBlocks(content) + [PageBreak]
  }

  method AddTable(doc: Document, table: Node)
    modifies doc
    ensures doc.blocks == old(doc.blocks) + TableBlocks(table)
  {
    var rows := FindAll(table, {"tr"});
    if rows == [] {
      TableWithoutCells(table);
      return;
    }
    var maxCols := ColumnCount(rows);
    if maxCols == 0 {
      TableWithoutCells(table);
      return;
    }
    var grid := FillGrid(rows, maxCols);
    doc.AddTable(grid);
  }

  /** The loop computing `max_cols`. */
  method ColumnCount(rows: seq<Node>) returns (maxCols: nat)
    ensures maxCols == MaxCells(RowsTexts(rows))
  {
    maxCols := 0;
    for r := 0 to |rows|
      invariant maxCols == MaxCells(RowsTexts(rows[..r]))
    {
      assert RowsTexts(rows[..r + 1])[..r] == RowsTexts(rows[..r]);
      maxCols := Max(maxCols, |FindAll(rows[r], {"td", "th"})|);
    }
    assert rows[..|rows|] == rows;
  }

  method AddList(doc: Document, items: seq<Node>, isOrdered: bool)
    modifies doc
    ensures doc.blocks == old(doc.blocks) + ListBlocks(items, isOrdered)
  {
    for i := 0 to |items|
      invariant doc.blocks == old(doc.blocks) + ListBlocks(items[..i], isOrdered)
    {
      var text := GetText(items[i]);
      var style := if isOrdered then ListNumber else ListBullet;
      doc.AddParagraph(text, style);
      assert ListBlocks(items[..i + 1], isOrdered) == ListBlocks(items[..i], isOrdered) + [Paragraph(text, style)];
    }
    assert items[..|items|] == items;
  }

  /** The main loop's writing of one entry of `content_structure`. */
  method AddItem(doc: Document, it: Item)
    modifies doc
    ensures doc.blocks == old(doc.blocks) + ItemBlocks(it)
  {
    match it
    case HeadingItem(text, level) => doc.AddHeading(text, level);
    case ParagraphItem(text) => doc.AddParagraph(text, Normal);
    case TableItem(table) => AddTable(doc, table);
    case ListItem(items, ordered) => AddList(doc, items, ordered);
  }

  /** The main loop's writing of one finished page. */
  method WritePage(doc: Document, url: Url, content: seq<Item>)
    modifies doc
    ensures doc.blocks == old(doc.blocks) + PageBlocks(url, content)
  {
    var title := Heading("Page: " + Render(url), 1);
    doc.AddHeading("Page: " + Render(url), 1);
    ghost var head := doc.blocks;
    for k := 0 to |content|
      invariant doc.blocks == head + ContentBlocks(content[..k])
    {
      ghost var written := ContentBlocks(content[..k]);
      assert content[..k + 1][..k] == content[..k];
      assert ContentBlocks(content[..k + 1]) == written + ItemBlocks(content[k]);
      AddItem(doc, content[k]);
      AppendAssoc(head, written, ItemBlocks(content[k]));
    }
    assert content[..|content|] == content;
    doc.AddPageBreak();
    AppendAssoc(old(doc.blocks), [title], ContentBlocks(content));
    AppendAssoc(old(doc.blocks), [title] + ContentBlocks(content), [PageBreak]);
  }

  // ---------------------------------------------------------------------
  // The crawl: worker and the dedup loop of main
  // ---------------------------------------------------------------------

  /** `driver.get(url)` and `page_source`: the page's markup, or nothing when fetching raised. */
  function Fetch(site: map<Url, string>, url: Url): (r: Option<string>)
    ensures r.Some? <==> url in site
  {
    if url in site then Some(site[url]) else None
  }

  /** The content `worker(url)` hands back. */
  function PageContent(site: map<Url, string>, parse: string -> Node, url: Url): seq<Item>
  {
    if url in site && site[url] != [] then Content(parse(site[url])) else []
  }

  /** The links `worker(url)` hands back. */
  function PageLinks(site: map<Url, string>, parse: string -> Node, resolve: Resolver, url: Url): (r: set<Url>)
    ensures forall l :: l in r ==> IsClean(l) && l.netloc == BASE_URL.netloc
    ensures url !in site ==> r == {}
  {
    if url in site && site[url] != [] then Links(parse(site[url]), url, resolve) else {}
  }

  /** Every link any page of the site holds: with the seed, everything the crawl can claim. */
  ghost function AllLinks(site: map<Url, string>, parse: string -> Node, resolve: Resolver): set<Url>
  {
    set u, l | u in site.Keys && l in PageLinks(site, parse, resolve, u) :: l
  }

  lemma PageLinksInAllLinks(site: map<Url, string>, parse: string -> Node, resolve: Resolver, url: Url)
    ensures PageLinks(site, parse, resolve, url) <= AllLinks(site, parse, resolve)
  {
  }

  method Worker(site: map<Url, string>, parse: string -> Node, resolve: Resolver, url: Url)
    returns (content: seq<Item>, links: set<Url>)
    ensures content == PageContent(site, parse, url)
    ensures links == PageLinks(site, parse, resolve, url)
  {
    var html := Fetch(site, url);
    content, links := ParseContentAndLinks(html, url, parse, resolve);
  }

  /** The document written for the pages completed so far, in completion order. */
  function Sections(site: map<Url, string>, parse: string -> Node, completed: seq<Url>): seq<Block>
  {
    if completed == [] then []
    else
      var url := completed[|completed| - 1];
      Sections(site, parse, completed[..|completed| - 1]) + PageBlocks(url, PageContent(site, parse, url))
  }

  /** The `i`-th submission is a link of a page submitted before it. */
  ghost predicate Discovered(site: map<Url, string>, parse: string -> Node, resolve: Resolver,
                             submitted: seq<Url>, i: nat)
    requires i < |submitted|
  {
    exists j :: 0 <= j < i && submitted[i] in PageLinks(site, parse, resolve, submitted[j])
  }

  /** `s'` is `s` followed by elements of `links`. */
  ghost predicate ExtendsWith(s: seq<Url>, s': seq<Url>, links: set<Url>)
  {
    |s| <= |s'| && s'[..|s|] == s && forall i :: |s| <= i < |s'| ==> s'[i] in links
  }

  /**
   * Where the claim loop stands after looking at the links in `done`: those
   * are visited, the fresh ones among them pending and submitted once each.
   */
  ghost predicate ClaimProgress(links: set<Url>, visited: set<Url>, pending: set<Url>, submitted: seq<Url>,
                                done: set<Url>, todo: set<Url>,
                                visited': set<Url>, pending': set<Url>, submitted': seq<Url>)
  {
    && done + todo == links && done !! todo
    && visited' == visited + done && pending' == pending + (done - visited)
    && Enumerates(submitted', visited')
    && ExtendsWith(submitted, submitted', links)
  }

  lemma ClaimFresh(links: set<Url>, visited: set<Url>, pending: set<Url>, submitted: seq<Url>,
                   done: set<Url>, todo: set<Url>, visited': set<Url>, pending': set<Url>, submitted': seq<Url>,
                   link: Url)
    requires ClaimProgress(links, visited, pending, submitted, done, todo, visited', pending', submitted')
    requires link in todo && link !in visited'
    ensures ClaimProgress(links, visited, pending, submitted, done + {link}, todo - {link},
                          visited' + {link}, pending' + {link}, submitted' + [link])
  {
    EnumeratesAppend(submitted', visited', link);
    ExtendOne(submitted, submitted', links, link);
  }

  lemma ClaimSeen(links: set<Url>, visited: set<Url>, pending: set<Url>, submitted: seq<Url>,
                  done: set<Url>, todo: set<Url>, visited': set<Url>, pending': set<Url>, submitted': seq<Url>,
                  link: Url)
    requires ClaimProgress(links, visited, pending, submitted, done, todo, visited', pending', submitted')
    requires link in todo && link in visited'
    ensures ClaimProgress(links, visited, pending, submitted, done + {link}, todo - {link},
                          visited', pending', submitted')
  {
  }

  lemma ExtendOne(s: seq<Url>, s': seq<Url>, links: set<Url>, link: Url)
    requires ExtendsWith(s, s', links) && link in links
    ensures ExtendsWith(s, s' + [link], links)
  {
    assert (s' + [link])[..|s|] == s'[..|s|];
  }

  /**
   * The claim step: under the lock, each link not yet in `visited_urls` is
   * added to it and submitted, so `visited_urls` and the submitted URLs stay
   * the same set and nothing is submitted twice.
   */
  method ClaimLinks(links: set<Url>, visited: set<Url>, pending: set<Url>, ghost submitted: seq<Url>)
    returns (visited': set<Url>, pending': set<Url>, ghost submitted': seq<Url>)
    requires Enumerates(submitted, visited)
    ensures visited' == visited + links
    ensures pending' == pending + (links - visited)
    ensures Enumerates(submitted', visited')
    ensures ExtendsWith(submitted, submitted', links)
  {
    visited', pending', submitted' := visited, pending, submitted;
    ghost var done: set<Url> := {};
    var todo := links;
    while todo != {}
      invariant ClaimProgress(links, visited, pending, submitted, done, todo, visited', pending', submitted')
      decreases |todo|
    {
      var link :| link in todo;
      if link !in visited' {
        ClaimFresh(links, visited, pending, submitted, done, todo, visited', pending', submitted', link);
        visited' := visited' + {link};
        pending' := pending' + {link};
        submitted' := submitted' + [link];
      } else {
        ClaimSeen(links, visited, pending, submitted, done, todo, visited', pending', submitted', link);
      }
      todo := todo - {link};
      done := done + {link};
    }
  }

  /**
   * The invariant of the futures loop: the seed comes first, `visited_urls`
   * is exactly the set of submitted URLs, each submitted once, each found on
   * an earlier page, all on the site's host and clean; the completed pages
   * are the visited ones no longer pending, each completed once, and their
   * links are all visited.
   */
  ghost predicate CrawlState(site: map<Url, string>, parse: string -> Node, resolve: Resolver,
                             visited: set<Url>, futures: set<Url>, submitted: seq<Url>, completed: seq<Url>)
  {
    && |submitted| >= 1 && submitted[0] == BASE_URL
    && Enumerates(submitted, visited)
    && (forall i :: 1 <= i < |submitted| ==> Discovered(site, parse, resolve, submitted, i))
    && (forall u :: u in visited ==> IsClean(u) && u.netloc == BASE_URL.netloc)
    && futures <= visited
    && Enumerates(completed, visited - futures)
    && (forall u :: u in completed ==> PageLinks(site, parse, resolve, u) <= visited)
  }

  /** Submissions after a claim for `url`'s links were discovered on `url`, a page submitted earlier. */
  lemma ClaimKeepsDiscovery(site: map<Url, string>, parse: string -> Node, resolve: Resolver,
                            submitted: seq<Url>, submitted': seq<Url>, url: Url)
    requires url in submitted
    requires forall i :: 1 <= i < |submitted| ==> Discovered(site, parse, resolve, submitted, i)
    requires ExtendsWith(submitted, submitted', PageLinks(site, parse, resolve, url))
    ensures forall i :: 1 <= i < |submitted'| ==> Discovered(site, parse, resolve, submitted', i)
  {
    var n := |submitted|;
    forall i | 1 <= i < |submitted'|
      ensures Discovered(site, parse, resolve, submitted', i)
    {
      if i < n {
        assert Discovered(site, parse, resolve, submitted, i);
        var j :| 0 <= j < i && submitted[i] in PageLinks(site, parse, resolve, submitted[j]);
        assert submitted'[i] == submitted[i] && submitted'[j] == submitted[j];
      } else {
        var j :| 0 <= j < n && submitted[j] == url;
        assert submitted'[j] == url;
      }
    }
  }

  /** Completing a pending page and claiming its links keeps the futures loop's invariant. */
  lemma CompleteKeepsState(site: map<Url, string>, parse: string -> Node, resolve: Resolver,
                           visited: set<Url>, futures: set<Url>, submitted: seq<Url>, completed: seq<Url>,
                           url: Url, visited': set<Url>, futures': set<Url>, submitted': seq<Url>)
    requires CrawlState(site, parse, resolve, visited, futures, submitted, completed)
    requires url in futures
    requires visited' == visited + PageLinks(site, parse, resolve, url)
    requires futures' == (futures - {url}) + (PageLinks(site, parse, resolve, url) - visited)
    requires Enumerates(submitted', visited')
    requires ExtendsWith(submitted, submitted', PageLinks(site, parse, resolve, url))
    ensures CrawlState(site, parse, resolve, visited', futures', submitted', completed + [url])
  {
    var links := PageLinks(site, parse, resolve, url);
    assert submitted'[0] == submitted'[..|submitted|][0];
    ClaimKeepsDiscovery(site, parse, resolve, submitted, submitted', url);
    EnumeratesAppend(completed, visited - futures, url);
    assert visited' - futures' == (visited - futures) + {url};
  }

  /** Removing what one set gains from a bounding set leaves strictly less when it gains something. */
  lemma FewerOutside<T>(universe: set<T>, a: set<T>, b: set<T>)
    requires a <= b <= universe && a != b
    ensures |universe - b| < |universe - a|
  {
    assert exists x :: x in b && x !in a;
    var x :| x in b && x !in a;
    var rest := (universe - a) - {x};
    assert universe - b <= rest;
    SubsetNoLarger(universe - b, rest);
  }

  lemma {:induction false} SubsetNoLarger<T>(a: set<T>, b: set<T>)
    requires a <= b
    ensures |a| <= |b|
    decreases |b|
  {
    if a != {} {
      var x :| x in a;
      SubsetNoLarger(a - {x}, b - {x});
    }
  }

  lemma InitialState(site: map<Url, string>, parse: string -> Node, resolve: Resolver)
    ensures CrawlState(site, parse, resolve, {BASE_URL}, {BASE_URL}, [BASE_URL], [])
  {
  }

  /** With nothing pending, every visited page is completed and its links are visited. */
  lemma FinishedState(site: map<Url, string>, parse: string -> Node, resolve: Resolver,
                      visited: set<Url>, submitted: seq<Url>, completed: seq<Url>)
    requires CrawlState(site, parse, resolve, visited, {}, submitted, completed)
    ensures Enumerates(completed, visited)
    ensures forall u :: u in visited ==> PageLinks(site, parse, resolve, u) <= visited
  {
    assert visited - {} == visited;
  }

  /**
   * One pass of `for future in as_completed(futures)`: the futures
   * outstanding when the pass starts complete one at a time, in an order the
   * model leaves open; each completed page is written to the document and its
   * links claimed.  Afterwards every pending future was submitted during the
   * pass, so a pass that claims nothing leaves nothing pending.
   */
  method CompleteRound(site: map<Url, string>, parse: string -> Node, resolve: Resolver, doc: Document,
                       ghost universe: set<Url>, visited0: set<Url>, futures0: set<Url>,
                       ghost submitted0: seq<Url>, ghost completed0: seq<Url>)
    returns (visited: set<Url>, futures: set<Url>, ghost submitted: seq<Url>, ghost completed: seq<Url>)
    requires CrawlState(site, parse, resolve, visited0, futures0, submitted0, completed0)
    requires universe == {BASE_URL} + AllLinks(site, parse, resolve) && visited0 <= universe
    requires doc.blocks == Sections(site, parse, completed0)
    modifies doc
    ensures CrawlState(site, parse, resolve, visited, futures, submitted, completed)
    ensures visited0 <= visited <= universe
    ensures doc.blocks == Sections(site, parse, completed)
    ensures visited == visited0 ==> futures == {}
    ensures |completed0| <= |completed| && completed[..|completed0|] == completed0
    ensures Enumerates(completed[|completed0|..], futures0)
  {
    visited, futures, submitted, completed := visited0, futures0, submitted0, completed0;
    var round := futures;
    while round != {}
      invariant Rounding(site, parse, resolve, universe, visited0, visited, futures, submitted, completed, round)
      invariant doc.blocks == Sections(site, parse, completed)
      invariant PassProgress(futures0, completed0, completed, round)
      decreases |round|
    {
      var url :| url in round;
      var content, newLinks := Worker(site, parse, resolve, url);
      WritePage(doc, url, content);
      SectionsSnoc(site, parse, completed, url);
      PassStep(futures0, completed0, completed, round, url);
      var visited', futures', submitted' := ClaimLinks(newLinks, visited, futures - {url}, submitted);
      RoundStep(site, parse, resolve, universe, visited0, visited, futures, submitted, completed, round,
                url, visited', futures', submitted');
      round := round - {url};
      visited, futures, submitted, completed := visited', futures', submitted', completed + [url];
    }
  }

  lemma SectionsSnoc(site: map<Url, string>, parse: string -> Node, completed: seq<Url>, url: Url)
    ensures Sections(site, parse, completed + [url])
              == Sections(site, parse, completed) + PageBlocks(url, PageContent(site, parse, url))
  {
    assert (completed + [url])[..|completed|] == completed;
  }

  /**
   * How far a pass has got: the pages completed before it stay in place, and
   * after them come the futures of the pass already taken, each once.
   */
  ghost predicate PassProgress(futures0: set<Url>, completed0: seq<Url>, completed: seq<Url>, round: set<Url>)
  {
    && round <= futures0
    && |completed0| <= |completed| && completed[..|completed0|] == completed0
    && Enumerates(completed[|completed0|..], futures0 - round)
  }

  /** Taking one more future of the pass appends it after the pages already completed. */
  lemma PassStep(futures0: set<Url>, completed0: seq<Url>, completed: seq<Url>, round: set<Url>, url: Url)
    requires PassProgress(futures0, completed0, completed, round)
    requires url in round
    ensures PassProgress(futures0, completed0, completed + [url], round - {url})
  {
    var n := |completed0|;
    assert (completed + [url])[..n] == completed[..n];
    assert (completed + [url])[n..] == completed[n..] + [url];
    EnumeratesAppend(completed[n..], futures0 - round, url);
    assert (futures0 - round) + {url} == futures0 - (round - {url});
  }

  /** The invariant of one pass: the crawl state holds, and every future not left in the pass is new. */
  ghost predicate Rounding(site: map<Url, string>, parse: string -> Node, resolve: Resolver,
                           universe: set<Url>, visited0: set<Url>, visited: set<Url>, futures: set<Url>,
                           submitted: seq<Url>, completed: seq<Url>, round: set<Url>)
  {
    && CrawlState(site, parse, resolve, visited, futures, submitted, completed)
    && universe == {BASE_URL} + AllLinks(site, parse, resolve)
    && visited0 <= visited <= universe
    && round <= futures
    && (forall u :: u in futures && u !in round ==> u !in visited0)
  }

  /** Completing `url` from the pass and claiming its links keeps the pass invariant. */
  lemma RoundStep(site: map<Url, string>, parse: string -> Node, resolve: Resolver,
                  universe: set<Url>, visited0: set<Url>, visited: set<Url>, futures: set<Url>,
                  submitted: seq<Url>, completed: seq<Url>, round: set<Url>,
                  url: Url, visited': set<Url>, futures': set<Url>, submitted': seq<Url>)
    requires Rounding(site, parse, resolve, universe, visited0, visited, futures, submitted, completed, round)
    requires url in round
    requires visited' == visited + PageLinks(site, parse, resolve, url)
    requires futures' == (futures - {url}) + (PageLinks(site, parse, resolve, url) - visited)
    requires Enumerates(submitted', visited')
    requires ExtendsWith(submitted, submitted', PageLinks(site, parse, resolve, url))
    ensures Rounding(site, parse, resolve, universe, visited0, visited', futures', submitted', completed + [url],
                     round - {url})
  {
    PageLinksInAllLinks(site, parse, resolve, url);
    CompleteKeepsState(site, parse, resolve, visited, futures, submitted, completed, url, visited', futures', submitted');
  }

  /**
   * `main` with the pool sequentialised: passes over the outstanding futures
   * repeat until none is left.  The crawl ends because every claimed URL is
   * the seed or a link of a page of the site.
   */
  method Crawl(site: map<Url, string>, parse: string -> Node, resolve: Resolver)
    returns (blocks: seq<Block>, visited: set<Url>, ghost submitted: seq<Url>, ghost completed: seq<Url>)
    ensures |submitted| >= 1 && submitted[0] == BASE_URL
    ensures Enumerates(submitted, visited)
    ensures forall i :: 1 <= i < |submitted| ==> Discovered(site, parse, resolve, submitted, i)
    ensures forall u :: u in visited ==> IsClean(u) && u.netloc == BASE_URL.netloc
    ensures Enumerates(completed, visited)
    ensures forall u :: u in visited ==> PageLinks(site, parse, resolve, u) <= visited
    ensures blocks == Sections(site, parse, completed)
    ensures |completed| >= 1 && completed[0] == BASE_URL
  {
    var doc := new Document();
    ghost var universe := {BASE_URL} + AllLinks(site, parse, resolve);
    visited := {BASE_URL};
    submitted := [BASE_URL];
    completed := [];
    var futures := {BASE_URL};
    InitialState(site, parse, resolve);
    while futures != {}
      invariant CrawlState(site, parse, resolve, visited, futures, submitted, completed)
      invariant visited <= universe
      invariant doc.blocks == Sections(site, parse, completed)
      invariant completed == [] ==> futures == {BASE_URL}
      invariant completed != [] ==> completed[0] == BASE_URL
      decreases |universe - visited|, |futures|
    {
      ghost var visited0 := visited;
      ghost var futures0 := futures;
      ghost var completed0 := completed;
      visited, futures, submitted, completed :=
        CompleteRound(site, parse, resolve, doc, universe, visited, futures, submitted, completed);
      if completed0 == [] {
        assert completed[0..] == completed && BASE_URL in futures0;
        assert completed[0] in completed;
      } else {
        assert completed[0] == completed[..|completed0|][0];
      }
      if visited != visited0 {
        FewerOutside(universe, visited0, visited);
      }
    }
    FinishedState(site, parse, resolve, visited, submitted, completed);
    assert BASE_URL in completed;
    blocks := doc.blocks;
  }
}
