/**
 * The two crawlers side by side: for the tags both of them look at, the
 * blocks faster.py writes through `content_structure` are the blocks
 * main.py writes directly, except that main.py numbers ordered list items
 * itself.
 */
module CrawlerComparison {
  import opened Util
  import opened Html
  import opened Docx
  import F = FasterCrawler
  import D = DepthFirstCrawler

  /** The blocks faster.py's main loop writes for the entries of one tag. */
  function FasterTagBlocks(tag: Node): seq<Block>
    requires IsElementNamed(tag, F.WANTED)
  {
    F.ContentBlocks(F.TagItems(tag))
  }

  /** Headings, paragraphs, tables and bullet lists come out the same from both crawlers. */
  lemma SameBlocksForSharedTags(tag: Node)
    requires IsElementNamed(tag, F.WANTED) && tag.name != "ol"
    ensures FasterTagBlocks(tag) == D.TagBlocks(tag)
  {
    var items := F.TagItems(tag);
    if items != [] {
      assert items == [items[0]] && [items[0]][..0] == [];
      assert F.ContentBlocks([items[0]]) == F.ContentBlocks([]) + F.ItemBlocks(items[0]);
    }
    if tag.name == "ul" {
      var lis := ChildrenNamed(tag.children, "li");
      assert F.ListBlocks(lis, false) == D.ListBlocks(lis, false);
    }
  }

  /** For an ordered list, main.py's item `i` reads `i + 1`, a dot and a space before the text faster.py writes. */
  lemma OrderedListsNumberedOnlyByMain(tag: Node)
    requires IsElementNamed(tag, {"ol"})
    ensures var f := FasterTagBlocks(tag);
            var d := D.TagBlocks(tag);
            && |f| == |d|
            && forall i :: 0 <= i < |d| ==>
                 && f[i].Paragraph? && d[i].Paragraph? && f[i].style == d[i].style == ListNumber
                 && d[i].text == DecimalString(i + 1) + ". " + f[i].text
  {
    var it := F.TagItems(tag)[0];
    assert F.TagItems(tag) == [it] && [it][..0] == [];
    assert F.ContentBlocks([it]) == F.ContentBlocks([]) + F.ItemBlocks(it);
  }
}
