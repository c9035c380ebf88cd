# Website-to-Word crawler, modelled in Dafny

The repository holds two variants of one crawler. Each starts at the site's home page
`https://romakksilicones.com/`, renders pages in a browser and parses them. From each page it
harvests the same-site links and extracts the headings, paragraphs, tables and lists. It appends
everything to one Word document.

- `faster.py` is a worker pool. Workers fetch and parse pages. The main loop writes each finished
  page, then claims the links it has not seen and submits them as new work.
- `main.py` is a recursive depth-first crawl. It has a global `visited` set and a depth bound of 200.

The model abstracts away everything around this core:

- **HTML:** an already-parsed tree (`Html.Node`). A tag's position is the path of child indices
  from the node a query starts at, so a tag's `parents` are the proper prefixes of its path.
- **URLs:** the six-field record `urlparse` returns (`Urls.Url`).
- **External calls as parameters:** fetching is a finite map `site` from URL to markup; a URL
  outside the map is a page whose load raises. Parsing (`BeautifulSoup`) and resolution (`urljoin`
  then `urlparse`) are function parameters `parse` and `resolve`.
- **The Word document:** the sequence of blocks python-docx appends (`Docx.Document`).

Modules:

- `Util`: `Option`, prefixes, `str.startswith`, `in` on strings, and decimal rendering of numbers.
- `Html`: the tree, preorder descendants (`find_all`), `find`, `get_text(strip=True)` and nav removal.
- `Urls`: cleaning to `scheme://netloc/path`, the link filter, and link harvesting.
- `Extraction`: the `processed_tags` selection both crawlers share.
- `Docx`: document blocks and the table grid of `add_table`.
- `FasterCrawler`: `faster.py`.
- `DepthFirstCrawler`: `main.py`. Its globals `visited` and `doc` become the fields of `class Crawler`.
- `CrawlerComparison`: what the two crawlers write for the same tag.

Some ghost state exists only for the proofs:

- `faster.py` has `submitted` (the order URLs were claimed) and `completed` (the order pages finished).
- `main.py` has `trace` (the visiting order) and `depthAt` (each URL's crawl depth).

## Model

| member | source | states |
|---|---|---|
| `Urls.Clean` | faster.py:72-75 | The rebuilt `scheme://netloc/path` URL has no params, query or fragment. It keeps scheme, netloc and path, and leaves a clean URL unchanged. |
| `Urls.CleanIdempotent` | faster.py:75 | Cleaning a cleaned link changes nothing. |
| `Urls.Follow` | faster.py:68-76 | A single href, stripped, contributes a link exactly when it passes the filter and its resolution lands on the base host. The link is then the cleaned resolution. A filtered href contributes nothing. |
| `Urls.Harvest` | faster.py:67-76 | Every harvested link is clean and on the base host. |
| `Urls.HarvestMembers` | faster.py:67-76 | The link set holds exactly the links that some href of the page contributes. |
| `Urls.HarvestSnoc` | faster.py:68-76 | One more href adds its own link, if any, to the link set. |
| `Urls.SkippedContributesNothing` | faster.py:70-71 | A `mailto:`, `tel:`, `javascript:` or `cdn-cgi` href can be removed from anywhere in the page's href list without changing the link set. |
| `Urls.SkippedTargets` | faster.py:70-71 | Every `mailto:`, `tel:` and `javascript:` target is filtered, and so is every target containing `cdn-cgi` anywhere. |
| `Urls.HarvestScenario` | faster.py:67-76 | Take a page at `http://ex.com/` linking to `/b?q#f`, `mailto:a@ex.com` and `//o.io`. Whatever `urljoin` makes of the mail link, the link set is exactly `{http://ex.com/b}`. |
| `Html.NodesNamed` | faster.py:85 | `find_all` over names keeps exactly the elements with a wanted name, taken from the given positions. |
| `Html.NodesNamedAppend` | faster.py:85 | `find_all` keeps document order: the matches of two stretches of the traversal are those of the first, then those of the second. |
| `Html.NodesNamedOne` | faster.py:85 | A single position contributes its node exactly when it is an element with a wanted name. |
| `Html.FindAllMembers` | faster.py:85 | `find_all` yields exactly the elements with a wanted name strictly below the node. |
| `Html.FindFirst` | faster.py:83 | `soup.body` is the first `body` match of `find_all`. It is missing only when no element below is a `body`. |
| `Html.AnchorHrefListed` | faster.py:68 | The href of every `<a href>` anywhere in the page is among the scanned hrefs. |
| `Html.ChildrenNamed` | faster.py:98-100 | `find_all('li', recursive=False)` keeps exactly the direct `li` children, and never more items than children. |
| `Html.ChildrenNamedAppend` | faster.py:98-100 | The `li` children stay in source order: those of the first stretch of children, then those of the second. |
| `Html.ChildrenNamedOne` | faster.py:98-100 | A single child is kept exactly when it is an `li` element. |
| `Html.StripTrims` | faster.py:69 | `strip()` removes leading and trailing whitespace only. It is empty exactly when the text is all whitespace. |
| `Html.GetTextTrimmed` | faster.py:101 | `get_text(strip=True)` neither starts nor ends with whitespace. |
| `Html.ChildrenTextTrimmed` | faster.py:101 | The joined stripped texts of a node's children neither start nor end with whitespace. |
| `Html.StripNav` | faster.py:78-80 | Removing navigation keeps the node's kind, name and href. |
| `Html.StripNavAllAppend` | faster.py:78-80 | Removing navigation from two stretches of children gives the kept children of the first, then those of the second. |
| `Html.StripNavAllOne` | faster.py:78-80 | A `nav` child is removed. Any other child stays, with its own navigation removed. |
| `Html.StripNavNavFree` | faster.py:79-80 | After every `nav` is decomposed, no `nav` remains at any depth. |
| `Html.StripNavIdempotent` | faster.py:79-80 | Decomposing navigation twice is the same as once. |
| `Html.DescendantsPrefixOrdered` | faster.py:85 | In document order, every ancestor of a tag comes before the tag. |
| `Html.DescendantsAreSubtrees` | faster.py:85 | Every position the traversal yields is a real node of the tree, at that path. |
| `Html.SubtreeInDescendants` | faster.py:85 | Every node below the body is yielded by the traversal. |
| `Extraction.Selected` | faster.py:85-87 | The processed tags are exactly the traversed tags that have a wanted name and no wanted ancestor below the body, in traversal order. |
| `Extraction.ProcessedCheck` | faster.py:86-87 | The loop's test "some processed tag is among this tag's parents" holds exactly when the tag has a wanted ancestor below the body. |
| `Extraction.ProcessedAncestorIsWanted` | faster.py:86-87 | A tag that has a processed tag among its parents has a wanted ancestor below the body. |
| `Extraction.WantedAncestorIsProcessed` | faster.py:86-87 | A tag with a wanted ancestor below the body has a processed tag among its parents by the time the loop reaches it. |
| `Extraction.TopAncestorListed` | faster.py:85-87 | The shallowest wanted ancestor of such a tag has no wanted ancestor itself and comes earlier in document order. |
| `Extraction.NoNestedTags` | faster.py:86-87 | No processed tag lies inside another, so a `p` inside a `table` is never emitted on its own. |
| `Extraction.EveryWantedTagCovered` | faster.py:85-104 | Every wanted tag of the body is processed, or lies inside a processed tag. |
| `Extraction.TopLevelTagsNavFree` | faster.py:79-87 | Once navigation is removed, no processed tag is or contains a `nav`. |
| `Docx.Grid` | faster.py:25-40 | The table is skipped when no row has a cell. Otherwise there is one grid row per HTML row, each `max_cols` wide, holding that row's cell texts from the left and blanks after them. |
| `Docx.MaxCells` | faster.py:28-30 | `max_cols` is at least every row's cell count and equals one of them, or is 0. |
| `Docx.GridIsRectangular` | faster.py:33 | Every grid row has exactly `max_cols` cells. |
| `Docx.IrregularRowsPadded` | main.py:57-66 | Rows of 3, 1 and 2 cells give a 3 by 3 grid padded with blanks on the right. |
| `Docx.CellessTableSkipped` | main.py:40-54 | A table whose rows have no `td` or `th` writes nothing. |
| `Docx.TableBlocksShape` | faster.py:25-40 | An HTML table gives at most one Word table, with one row per `tr`. It gives none exactly when no `tr` has a `td` or `th`. |
| `Docx.RowTexts` | faster.py:30 | A row has one text per `td` or `th` cell. |
| `Docx.CellTexts` | faster.py:38-40 | Each cell's text is its `get_text(strip=True)`, in cell order. |
| `Docx.Document.constructor` | faster.py:128 | A new document has no blocks. |
| `Docx.Document.AddHeading` | faster.py:17-18 | `add_heading` appends one heading with that text and level. |
| `Docx.Document.AddParagraph` | faster.py:20-22 | `add_paragraph` appends one paragraph with that text and style. |
| `Docx.Document.AddTable` | faster.py:34-40 | `add_table`, once filled, appends one table with those cells. |
| `Docx.Document.AddPageBreak` | faster.py:158 | `add_page_break` appends one page break. |
| `Docx.FillGrid` | faster.py:34-40 | Run with `max_cols` the widest row's cell count, the filling loops give one Word row per HTML row. Unless no row has a cell, the result is exactly the grid of the rows' texts. |
| `Docx.FillRows` | faster.py:36-40 | The outer filling loop gives, for each HTML row, its cell texts followed by blanks up to `max_cols`. |
| `Docx.RowsFit` | faster.py:29-31 | Every row's cell count is at most `max_cols`. |
| `Docx.FilledGrid` | faster.py:34-40 | Rows filled to `max_cols`, when it is not 0, form the grid of the rows' texts. |
| `Docx.TableWithoutCells` | faster.py:26-33 | A table with no `tr`, or whose rows have no cells, writes nothing. |
| `Docx.PadRow` | faster.py:38-40 | A filled row is exactly `max_cols` wide: a row that fits is padded with blanks, and cells past `max_cols` are dropped. |
| `Docx.FillRow` | faster.py:37-40 | One row of the filled table: the texts of its first `max_cols` cells, then blanks. |
| `Docx.GridOfRows` | faster.py:25-40 | A grid filled row by row to `max_cols` is the grid of those rows. |
| `FasterCrawler.TagItems` | faster.py:89-102 | A heading `hN` gives one heading entry, holding the tag's stripped text at level min(N, 4). A non-empty `p` gives one paragraph entry with its text, and an empty `p` gives nothing. A table gives a table entry. `ul` and `ol` give a list entry of the direct `li` children, ordered exactly for `ol`. Every entry is well formed. |
| `FasterCrawler.WantedHeadingNames` | faster.py:89-94 | The wanted heading names have a digit from 1 to 4 after the `h`, so the `ValueError`/`IndexError` branch is never taken. |
| `FasterCrawler.ItemsOf` | faster.py:85-104 | Every entry is well formed and comes from one of the processed tags. |
| `FasterCrawler.ParseContentAndLinks` | faster.py:60-106 | Empty or missing markup gives no content and no links. Otherwise the link set is the filtered harvest of the whole page, nav included, and the content is the processed tags of the nav-free body in document order. |
| `FasterCrawler.HarvestLinks` | faster.py:67-76 | The link loop collects exactly the filtered harvest of the page's anchors. |
| `FasterCrawler.CollectContent` | faster.py:82-104 | The loop over the body appends the entries of exactly the processed tags, in document order. |
| `FasterCrawler.ItemsOfSnoc` | faster.py:88-104 | One more processed tag appends its own entries after the earlier ones. |
| `FasterCrawler.ContentHasNoNavigation` | faster.py:78-104 | Every content entry comes from a wanted tag that contains no `nav`. |
| `FasterCrawler.AnchorLinkHarvested` | faster.py:67-80 | An anchor inside a `nav` still contributes its link, because links are taken before navigation is removed. |
| `FasterCrawler.AddTable` | faster.py:25-40 | Appends exactly the grid of the table, or nothing. |
| `FasterCrawler.ColumnCount` | faster.py:28-30 | The loop's `max_cols` is the largest cell count of any row. |
| `FasterCrawler.AddList` | faster.py:42-46 | Appends one paragraph per item, in order, in the numbered or bullet style. |
| `FasterCrawler.ListBlocks` | faster.py:42-46 | One paragraph per item, in the numbered style for an ordered list and the bullet style otherwise. |
| `FasterCrawler.ItemBlocks` | faster.py:149-157 | A well-formed entry writes well-formed blocks. A heading or paragraph entry writes one block. No entry writes a page break. |
| `FasterCrawler.ContentBlocks` | faster.py:148-157 | A page's content never contains a page break. |
| `FasterCrawler.PageBlocks` | faster.py:148-158 | A page starts with its `Page: <url>` heading and ends with its only page break. |
| `FasterCrawler.AddItem` | faster.py:149-157 | Writes one content entry as its heading, paragraph, table or list blocks. |
| `FasterCrawler.WritePage` | faster.py:148-158 | Appends the page heading `Page: <url>`, the content in order, then a page break. |
| `FasterCrawler.SectionsSnoc` | faster.py:148-158 | Writing one more completed page appends that page's section. |
| `FasterCrawler.PageLinksInAllLinks` | faster.py:160-164 | The links of any page are among the links of the whole site, the bound that makes the crawl finish. |
| `FasterCrawler.Fetch` | faster.py:113-122 | The markup is present exactly when loading the URL does not raise. |
| `FasterCrawler.PageLinks` | faster.py:108-124 | A worker's links are clean and same-host, and a page that fails to load has none. |
| `FasterCrawler.Worker` | faster.py:108-124 | A worker returns the content and links of the page, or nothing for a page that fails to load. |
| `FasterCrawler.ClaimLinks` | faster.py:160-164 | After claiming, `visited_urls` is the old set plus the new links. Exactly the links not seen before are submitted, each once, in a claim order that lists the visited set without repeats. |
| `FasterCrawler.ClaimFresh` | faster.py:162-164 | Claiming a link not yet in `visited_urls` adds it to the set, to the pending futures and to the end of the submission order. |
| `FasterCrawler.ClaimSeen` | faster.py:162-163 | A link already in `visited_urls` changes nothing. |
| `FasterCrawler.ClaimKeepsDiscovery` | faster.py:160-164 | Every URL submitted after the base URL was found on a page submitted before it, and claiming a page's links keeps that so. |
| `FasterCrawler.CompleteKeepsState` | faster.py:141-164 | Completing a pending page and claiming its links keeps the crawl invariant. The seed comes first and the visited set is exactly the submitted URLs, each once, each found on an earlier page and on the site's host. The completed pages are the visited ones no longer pending, and their links are all visited. |
| `FasterCrawler.RoundStep` | faster.py:141-164 | Completing one future of the pass and claiming its links keeps the crawl invariant. Every pending future not left in the pass was submitted during it, and the visited set stays within the seed and the site's links. |
| `FasterCrawler.InitialState` | faster.py:135-138 | The crawl starts with the base URL visited and submitted. |
| `FasterCrawler.FinishedState` | faster.py:140-164 | When nothing is pending, every visited page was completed once and all its links are visited. |
| `FasterCrawler.FewerOutside` | faster.py:140 | A round that claims something leaves fewer unclaimed URLs among the finitely many the site links to, so the outer loop ends. |
| `FasterCrawler.PassStep` | faster.py:141-144 | Taking one more future of the pass appends it after the pages already completed; the pages completed before the pass stay in place. |
| `FasterCrawler.CompleteRound` | faster.py:141-164 | One pass keeps the crawl invariant. The pages completed before it stay in place at the front, and after them the pass completes exactly the futures outstanding at its start, each once, in completion order; the document holds the sections of that whole sequence. A pass that claims nothing leaves nothing pending. |
| `FasterCrawler.Crawl` | faster.py:126-164 | The whole crawl starts from the base URL and submits each URL once. Each claimed URL is clean, same-host and found on an earlier page. Every visited page is written once, in completion order, with the base URL's section first, and every link of a visited page is visited. |
| `DepthFirstCrawler.Links` | main.py:124-138 | The links of a page are clean and on the base URL's host. |
| `DepthFirstCrawler.ExtractLinks` | main.py:124-138 | The loop collects exactly the harvest of every anchor, with no scheme filter. |
| `DepthFirstCrawler.MailLinksNotFiltered` | main.py:128-136 | Unlike `faster.py`, a `mailto:` href is resolved and kept when it lands on the site's host. |
| `DepthFirstCrawler.HeadingLevels` | main.py:109-111 | `h1` to `h4` keep their level; `h5` and `h6` become level 4. |
| `DepthFirstCrawler.HeadingLevel` | main.py:110-111 | The level is between 0 and 4. It is 1 when the second character is not a digit. Otherwise it is that digit, capped at 4. |
| `DepthFirstCrawler.WantedHeadingNames` | main.py:109-111 | Every wanted heading name has a digit from 1 to 6 after the `h`, and its written level lies in 1 to 4. |
| `DepthFirstCrawler.ListBlocks` | main.py:69-75 | One paragraph per item, in the numbered style for an ordered list and the bullet style otherwise. |
| `DepthFirstCrawler.ListParagraph` | main.py:70-75 | Each item becomes a paragraph, in the numbered style for an ordered list and the bullet style otherwise. |
| `DepthFirstCrawler.OrderedItemsNumbered` | main.py:70-73 | The `i`-th ordered item's text is `i` in decimal (reading back as `i`, counting from 1), then `. `, then the item's text. |
| `DepthFirstCrawler.BulletItemsUnchanged` | main.py:74-75 | A bullet item's paragraph is its text unchanged. |
| `DepthFirstCrawler.TagBlocks` | main.py:109-119 | Every written block is well formed. A heading tag writes one heading with the tag's text at `HeadingLevel` of its name, from 1 to 4. A `p` writes its text as a plain paragraph, or nothing when the text is empty. A table writes the table's blocks. `ul` and `ol` write the list paragraphs of their direct `li` children, numbered for `ol`. |
| `DepthFirstCrawler.ContentFromNavFreeTags` | main.py:97-121 | Every block written for a page's content is well formed and comes from a wanted tag that contains no `nav`. |
| `DepthFirstCrawler.BodyNavFree` | main.py:97-103 | Once navigation is removed, `soup.body` is a `body` element holding no `nav`. It is missing only when no element of the nav-free page is a `body`. |
| `DepthFirstCrawler.TagsBlocksFrom` | main.py:103-121 | Each block written by the loop comes from one of the processed tags. |
| `Extraction.SelectStep` | main.py:103-121 | A wanted tag is appended to `processed_tags` exactly when no tag already there is among its parents. |
| `DepthFirstCrawler.AddTable` | main.py:35-66 | Appends exactly the grid of the table, or nothing. |
| `DepthFirstCrawler.ColumnCount` | main.py:46-50 | The loop that raises `max_cols` to a longer row ends with the largest cell count of any row. |
| `DepthFirstCrawler.AddList` | main.py:69-75 | Appends the list's paragraphs, numbered `1. `, `2. `, ... for an ordered list. |
| `DepthFirstCrawler.SaveTag` | main.py:109-119 | Writes the blocks of one processed tag. |
| `DepthFirstCrawler.ParseAndSaveContent` | main.py:97-121 | It succeeds exactly when the nav-free page has a body, and appends the blocks of the processed tags in document order. |
| `DepthFirstCrawler.SaveTopLevelTags` | main.py:103-121 | The loop over the body writes the blocks of exactly the processed tags, in document order. |
| `DepthFirstCrawler.TagsBlocksSnoc` | main.py:109-121 | One more processed tag appends its own blocks after the earlier ones. |
| `DepthFirstCrawler.Crawler.constructor` | main.py:22-24 | The crawl starts with nothing visited and an empty document. |
| `DepthFirstCrawler.Crawler.FollowedLinks` | main.py:149-159 | The links a visit recurses on are clean and same-host. There are none when loading raises or the page has no body. |
| `DepthFirstCrawler.Crawler.PageSection` | main.py:143-155 | A page that fails to load writes nothing. A page that loads starts with its `Page: <url>` heading. When it has no body, that heading is all it writes. |
| `DepthFirstCrawler.Crawler.SectionsSnoc` | main.py:151-155 | One more visit appends its page's section. |
| `DepthFirstCrawler.Crawler.SectionsAppend` | main.py:151-155 | The document written for a sequence of visits is the concatenation of the pages' sections. |
| `DepthFirstCrawler.Crawler.Crawl` | main.py:140-161 | The crawler stays consistent, and the call has the effect `CrawlEffect` describes. A visited URL, or one deeper than the bound, changes nothing. Otherwise the URL is added to `visited` once, first, at its depth. Every later visit follows a link of an earlier page of the call, one level deeper and never beyond the bound. `visited` only grows. Below the bound, every visited page's links end up visited. The document gains the sections of the new visits in visiting order. |
| `DepthFirstCrawler.Crawler.FollowLinks` | main.py:157-159 | The loop over a page's links crawls each link not yet visited one level deeper. Afterwards, below the bound, all the page's links are visited. |
| `DepthFirstCrawler.Crawler.CrawlSkipped` | main.py:141-142 | A call on a visited URL, or one deeper than the bound, leaves everything as it was. |
| `DepthFirstCrawler.Crawler.FirstVisit` | main.py:143-155 | Once `url` is added to `visited` and its section written, the call has visited it first, at its depth. |
| `DepthFirstCrawler.Crawler.FollowDone` | main.py:157-159 | Once every link of the page is handled, the page itself has all its links visited below the bound, so the call's effect is complete. |
| `DepthFirstCrawler.Crawler.RecursionStep` | main.py:157-159 | A nested call on a link of the page keeps the account of where each visit was found. |
| `DepthFirstCrawler.Crawler.FoundKept` | main.py:157-159 | A URL found on an earlier page stays found once the visit order grows. |
| `DepthFirstCrawler.Crawler.FoundWidened` | main.py:157-159 | A URL found on a page after some point was also found after any earlier point. |
| `DepthFirstCrawler.Crawler.FollowStep` | main.py:157-159 | Crawling one unvisited link keeps the loop invariant: no URL is visited twice, the depth bound holds, handled links are visited and visited pages stay closed. |
| `DepthFirstCrawler.Crawler.SectionsSplit` | main.py:151-159 | The sections written by a call split into those before a nested call and those the nested call writes. |
| `DepthFirstCrawler.ExtendsTransitive` | main.py:140-159 | A visit order that extends one that extends a third extends the third, with the same depths. |
| `DepthFirstCrawler.Crawler.ClosedStep` | main.py:143-159 | A page whose links were all visited stays so after further crawling. |
| `DepthFirstCrawler.Crawler.Run` | main.py:163-167 | Crawling from the base URL visits it first. Every visited URL is the base URL or a clean same-host link, at depth 0 to 200. Every page below depth 200 has all its links visited. The document holds each visited page's section once, in visiting order. |
| `DepthFirstCrawler.Crawler.RunVisits` | main.py:140-159 | Everything a crawl from the base URL visits is the base URL or a same-site link within the depth bound. |
| `CrawlerComparison.SameBlocksForSharedTags` | faster.py:89-102 | For every tag both crawlers look at except `ol`, the blocks `faster.py` writes through its content entries are the blocks `main.py` writes. |
| `CrawlerComparison.OrderedListsNumberedOnlyByMain` | main.py:69-75 | For an ordered list, both crawlers write the same number of numbered-style paragraphs. Item `i` of `main.py` reads `i + 1`, a dot and a space before the text `faster.py` writes. |

## Left out

- Fetching (Selenium, `driver.get`, `page_source`, `driver.quit`, `time.sleep`) is a finite map
  from URL to markup. A URL outside the map is a page whose `driver.get` raises inside the `try`.
- `get_driver()` failing is not modelled. It runs outside the `try` (faster.py:113), so its
  exception leaves `worker`, `future.result()` (faster.py:142) re-raises it and the whole crawl stops.
  The model has no such path.
- `FasterCrawler.Crawl` ends (`FewerOutside`) only because the site is that finite map: every claimed URL is
  the base URL or a link of a page in the map. The source loop runs for as long as the live site keeps
  yielding new same-host URLs, which may be forever (on generated pages, say).
- Parsing with BeautifulSoup is the parameter `parse`. `urljoin` and `urlparse` are the parameter
  `resolve`, and `urljoin` raising on malformed input is not modelled.
- In `faster.py`, `ThreadPoolExecutor`, `as_completed` and `threading.Lock` are sequentialised.
  - A round takes the futures outstanding at its start and completes them one at a time, in an order
    the model leaves open.
  - Check-and-insert under the lock is one step.
  - Thread interleavings beyond completion order are not modelled.
- Set iteration order in both crawlers is left open: any order is allowed.
- python-docx itself is a sequence of appended blocks. Not modelled: font sizes (`Pt(11)`), the
  `Table Grid` style, the table being created blank and then filled (modelled as the filled grid
  appended at once), and `doc.save`.
- Printing, timing, `WORD_FILENAME`, `MAX_WORKERS` and `WAIT_TIME`.
- main.py's one-time capture of the page header and footer (main.py:80-95). The model writes no
  `Header`/`Footer` blocks.
- `decompose` works in place on the soup; the model computes a nav-free copy (`Html.StripNav`).
  Links are taken from the original tree, as in the source.
- `p in tag.parents` compares tags structurally (`==`); the model compares tree positions. The two agree. A processed tag is a wanted tag strictly below the body. An ancestor structurally equal to it cannot be the body or anything above the body, because a tree never equals one of its own proper subtrees and the processed tag is a proper subtree of each of those. So that ancestor is itself a wanted tag below the body, and the position test already rejects the tag.
- The crawlers key `visited` by the URL string `scheme://netloc/path`. The model keys it by the
  cleaned record; the two agree for clean URLs of one host. The base URL
  `https://romakksilicones.com/` is the record with path `/`.
- `str.isdigit` is taken as the ASCII digits `0`-`9`. Only `main.py` meets it, on `h1` to `h6`; `faster.py` calls `int(tag.name[1])` on `h1` to `h4`.
- main.py's recursion depth is bounded by `max_depth` (200), not by Python's recursion limit.
- Behaviours of the code worth noting:
  - In `faster.py`, a page whose load fails still gets its `Page:` heading and a page break.
  - In `main.py`, a page that loads but has no `<body>` gets its `Page:` heading, then
    `soup.body.find_all` raises and none of its links are followed.
  - `faster.py` looks at `h1` to `h4` only, and `main.py` at `h1` to `h6`.
