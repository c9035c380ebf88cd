/**
 * The Word document both crawlers write, reduced to the ordered blocks that
 * python-docx appends (`add_heading`, `add_paragraph`, `add_table`,
 * `add_page_break`), and the table grid that `add_table` builds from an
 * HTML table.
 */
module Docx {
  import opened Util
  import opened Html

  /** The paragraph styles the crawlers name; the default one is `Normal`. */
  datatype Style = Normal | ListNumber | ListBullet

  datatype Block =
    | Heading(text: string, level: int)
    | Paragraph(text: string, style: Style)
    | Table(cells: seq<seq<string>>)
    | PageBreak

  /** The document being assembled: blocks are only ever appended. */
  class Document {
    var blocks: seq<Block>

    constructor ()
      ensures blocks == []
    {
      blocks := [];
    }

    method AddHeading(text: string, level: int)
      modifies this
      ensures blocks == old(blocks) + [Heading(text, level)]
    {
      blocks := blocks + [Heading(text, level)];
    }

    method AddParagraph(text: string, style: Style)
      modifies this
      ensures blocks == old(blocks) + [Paragraph(text, style)]
    {
      blocks := blocks + [Paragraph(text, style)];
    }

    /** `doc.add_table(rows, cols)` followed by setting each cell's text. */
    method AddTable(cells: seq<seq<string>>)
      modifies this
      ensures blocks == old(blocks) + [Table(cells)]
    {
      blocks := blocks + [Table(cells)];
    }

    method AddPageBreak()
      modifies this
      ensures blocks == old(blocks) + [PageBreak]
    {
      blocks := blocks + [PageBreak];
    }
  }

  /** `max_cols`: the largest number of cells in any row, 0 without rows. */
  function MaxCells(rows: seq<seq<string>>): (m: nat)
    ensures forall i :: 0 <= i < |rows| ==> |rows[i]| <= m
    ensures m == 0 || exists i :: 0 <= i < |rows| && |rows[i]| == m
  {
    if rows == [] then 0
    else
      var m := MaxCells(rows[..|rows| - 1]);
      if |rows[|rows| - 1]| > m then |rows[|rows| - 1]| else m
  }

  function Blanks(n: nat): seq<string>
  {
    seq(n, _ => "")
  }

  /** A row cut or padded with blank cells to `width` cells. */
  function PadRow(row: seq<string>, width: nat): (r: seq<string>)
    ensures |r| == width
    ensures |row| <= width ==> r == row + Blanks(width - |row|)
    ensures width < |row| ==> r == row[..width]
  {
    if |row| <= width then row + Blanks(width - |row|) else row[..width]
  }

  /**
   * The cells of the Word table built from rows of cell texts: nothing when
   * no row has a cell, otherwise one row per HTML row, each as wide as the
   * widest, holding its own cells from the left and blanks after them.
   */
  function Grid(rows: seq<seq<string>>): (g: Option<seq<seq<string>>>)
    ensures g.None? <==> forall i :: 0 <= i < |rows| ==> rows[i] == []
    ensures g.Some? ==>
      && |g.value| == |rows|
      && forall i :: 0 <= i < |rows| ==> g.value[i] == rows[i] + Blanks(MaxCells(rows) - |rows[i]|)
  {
    var width := MaxCells(rows);
    if width == 0 then None
    else Some(seq(|rows|, i requires 0 <= i < |rows| => PadRow(rows[i], width)))
  }

  /** Every row of a grid is as wide as the widest HTML row. */
  lemma GridIsRectangular(rows: seq<seq<string>>)
    requires Grid(rows).Some?
    ensures forall i :: 0 <= i < |rows| ==> |Grid(rows).value[i]| == MaxCells(rows)
  {
  }

  /** A block as the crawlers write it: headings at levels 1 to 4, plain paragraphs never empty. */
  predicate WellFormedBlock(b: Block)
  {
    && (b.Heading? ==> 1 <= b.level <= 4)
    && (b.Paragraph? && b.style == Normal ==> b.text != [])
  }

  /** The stripped texts of some cells. */
  function CellTexts(cells: seq<Node>): (r: seq<string>)
    ensures |r| == |cells| && forall k :: 0 <= k < |cells| ==> r[k] == GetText(cells[k])
  {
    seq(|cells|, k requires 0 <= k < |cells| => GetText(cells[k]))
  }

  /** A grid built row by row to the widest row's width is the grid of those rows. */
  lemma GridOfRows(rows: seq<seq<string>>, grid: seq<seq<string>>)
    requires MaxCells(rows) != 0
    requires |grid| == |rows|
    requires forall k :: 0 <= k < |rows| ==> grid[k] == rows[k] + Blanks(MaxCells(rows) - |rows[k]|)
    ensures Grid(rows) == Some(grid)
  {
    assert exists i :: 0 <= i < |rows| && |rows[i]| == MaxCells(rows);
    assert Grid(rows).Some?;
    assert forall k :: 0 <= k < |rows| ==> grid[k] == Grid(rows).value[k];
    assert grid == Grid(rows).value;
  }

  /** `[cell.get_text(strip=True) for cell in row.find_all(['td', 'th'])]`. */
  function RowTexts(row: Node): (r: seq<string>)
    ensures |r| == |FindAll(row, {"td", "th"})|
  {
    CellTexts(FindAll(row, {"td", "th"}))
  }

  /** The cell texts of each row. */
  function RowsTexts(rows: seq<Node>): (r: seq<seq<string>>)
    ensures |r| == |rows| && forall i :: 0 <= i < |rows| ==> r[i] == RowTexts(rows[i])
  {
    seq(|rows|, i requires 0 <= i < |rows| => RowTexts(rows[i]))
  }

  /** The cell texts of every `tr` of a table, in document order. */
  function TableTexts(table: Node): seq<seq<string>>
  {
    RowsTexts(FindAll(table, {"tr"}))
  }

  /** What `add_table` appends for an HTML table. */
  function TableBlocks(table: Node): seq<Block>
  {
    match Grid(TableTexts(table))
    case None => []
    case Some(cells) => [Table(cells)]
  }

  /**
   * An HTML table gives at most one Word table, with one row per `tr`; it
   * gives none exactly when no `tr` has a `td` or `th`.
   */
  lemma TableBlocksShape(table: Node)
    ensures |TableBlocks(table)| <= 1
    ensures TableBlocks(table) == [] <==> forall r :: r in FindAll(table, {"tr"}) ==> FindAll(r, {"td", "th"}) == []
    ensures TableBlocks(table) != [] ==>
      TableBlocks(table)[0].Table? && |TableBlocks(table)[0].cells| == |FindAll(table, {"tr"})|
  {
    var trs := FindAll(table, {"tr"});
    var texts := RowsTexts(trs);
    if Grid(texts).None? {
      forall r | r in trs ensures FindAll(r, {"td", "th"}) == [] {
        var i :| 0 <= i < |trs| && trs[i] == r;
        assert texts[i] == RowTexts(r);
      }
    } else {
      var i :| 0 <= i < |texts| && texts[i] != [];
      assert trs[i] in trs && RowTexts(trs[i]) != [];
    }
  }

  /** A table without rows, or whose rows have no cells, appends nothing. */
  lemma TableWithoutCells(table: Node)
    requires FindAll(table, {"tr"}) == [] || MaxCells(RowsTexts(FindAll(table, {"tr"}))) == 0
    ensures TableBlocks(table) == []
  {
    var texts := TableTexts(table);
    if texts != [] {
      assert |texts[0]| <= MaxCells(texts);
    }
  }

  /** Rows with 3, 1 and 2 cells give a 3-by-3 grid, blank where a row ran out of cells. */
  lemma IrregularRowsPadded(a: string, b: string, c: string, d: string, e: string, f: string)
    ensures Grid([[a, b, c], [d], [e, f]]) == Some([[a, b, c], [d, "", ""], [e, f, ""]])
  {
    var rows := [[a, b, c], [d], [e, f]];
    assert |rows[0]| == 3;
    assert MaxCells(rows) == 3;
    var g := Grid(rows).value;
    assert Blanks(0) == [] && Blanks(1) == [""] && Blanks(2) == ["", ""];
    assert g[0] == [a, b, c] + Blanks(0);
    assert g[1] == [d] + Blanks(2);
    assert g[2] == [e, f] + Blanks(1);
    assert g[0] == [a, b, c] && g[1] == [d, "", ""] && g[2] == [e, f, ""];
    assert |g| == 3;
    assert g == [[a, b, c], [d, "", ""], [e, f, ""]];
  }

  /** A table whose only row has no `td` or `th` adds nothing. */
  lemma CellessTableSkipped()
    ensures TableBlocks(Element("table", None, [Element("tr", None, [])])) == []
  {
    var row := Element("tr", None, []);
    var table := Element("table", None, [row]);
    assert Descendants(row) == [];
    assert FindAll(row, {"td", "th"}) == [];
    assert RowTexts(row) == [];
    assert Under(0, []) == [];
    assert [row][1..] == [];
    assert ChildDescendants([row], 0) == [Pos([0], row)] + Under(0, Descendants(row)) + ChildDescendants([], 1);
    assert Descendants(table) == [Pos([0], row)];
    assert NodesNamed([Pos([0], row)], {"tr"}) == [row] + NodesNamed([], {"tr"});
    assert FindAll(table, {"tr"}) == [row];
    assert TableTexts(table) == [[]];
  }

  /**
   * The cell-filling loops of `add_table`, run with `max_cols` the widest
   * row's cell count: the Word table has a row per HTML row, and each row's
   * cells take its texts from the left and are blank after them.  Unless no
   * row has a cell, that is the grid of the rows' texts.
   */
  method FillGrid(rows: seq<Node>, maxCols: nat) returns (grid: seq<seq<string>>)
    requires maxCols == MaxCells(RowsTexts(rows))
    ensures |grid| == |rows|
    ensures maxCols != 0 ==> Grid(RowsTexts(rows)) == Some(grid)
  {
    RowsFit(rows);
    grid := FillRows(rows, maxCols);
    if maxCols != 0 {
      FilledGrid(rows, maxCols, grid);
    }
  }

  /** The outer loop: one Word row per HTML row, each `maxCols` wide. */
  method FillRows(rows: seq<Node>, maxCols: nat) returns (grid: seq<seq<string>>)
    requires forall k :: 0 <= k < |rows| ==> |RowTexts(rows[k])| <= maxCols
    ensures |grid| == |rows|
    ensures forall k :: 0 <= k < |rows| ==> grid[k] == RowTexts(rows[k]) + Blanks(maxCols - |RowTexts(rows[k])|)
  {
    grid := [];
    for i := 0 to |rows|
      invariant |grid| == i
      invariant forall k :: 0 <= k < i ==> grid[k] == RowTexts(rows[k]) + Blanks(maxCols - |RowTexts(rows[k])|)
    {
      var cells := FindAll(rows[i], {"td", "th"});
      var row := FillRow(cells, maxCols);
      grid := grid + [row];
    }
  }

  /** Every row fits in the widest row's width. */
  lemma RowsFit(rows: seq<Node>)
    ensures forall k :: 0 <= k < |rows| ==> |RowTexts(rows[k])| <= MaxCells(RowsTexts(rows))
  {
    var texts := RowsTexts(rows);
    forall k | 0 <= k < |rows| ensures |RowTexts(rows[k])| <= MaxCells(texts) {
      assert texts[k] == RowTexts(rows[k]);
    }
  }

  /** Rows filled to the widest row's width make the grid of the rows' texts. */
  lemma FilledGrid(rows: seq<Node>, maxCols: nat, grid: seq<seq<string>>)
    requires maxCols == MaxCells(RowsTexts(rows)) && maxCols != 0 && |grid| == |rows|
    requires forall k :: 0 <= k < |rows| ==> grid[k] == RowTexts(rows[k]) + Blanks(maxCols - |RowTexts(rows[k])|)
    ensures Grid(RowsTexts(rows)) == Some(grid)
  {
    var texts := RowsTexts(rows);
    forall k | 0 <= k < |texts| ensures grid[k] == texts[k] + Blanks(MaxCells(texts) - |texts[k]|) {
      assert texts[k] == RowTexts(rows[k]);
    }
    GridOfRows(texts, grid);
  }

  /** One row of the Word table: blank cells, then the texts of the first `maxCols` HTML cells. */
  method FillRow(cells: seq<Node>, maxCols: nat) returns (row: seq<string>)
    ensures var n := Min(|cells|, maxCols); row == CellTexts(cells[..n]) + Blanks(maxCols - n)
    ensures |cells| <= maxCols ==> row == CellTexts(cells) + Blanks(maxCols - |cells|)
  {
    row := Blanks(maxCols);
    for j := 0 to |cells|
      invariant |row| == maxCols
      invariant var n := Min(j, maxCols); row == CellTexts(cells[..n]) + Blanks(maxCols - n)
    {
      if j < maxCols {
        row := row[j := GetText(cells[j])];
        assert row == CellTexts(cells[..j + 1]) + Blanks(maxCols - (j + 1));
      }
    }
    assert cells[..|cells|] == cells;
  }
}
