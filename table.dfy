/**
 The table view of the CoNLL-U text: how `updateTable` turns the lines of the text
 into table rows, how `tableEditCell` turns the table back into text, how many rows
 `fitTable` gives the text box, and the column-visibility flags of
 `toggleTableColumn` and `toggleTableView`. Serialising a table of clean cells and
 reading it back gives the same cells.
 */
module ConlluTable {
  import opened Wrappers
  import JsStrings

  // ---------------------------------------------------------------------------
  // Lines to rows (updateTable)

  /** A table cell: its text and whether the tag validators accepted it. */
  datatype Cell = Cell(value: string, valid: bool)

  /**
   A table row built from line `index` of the text: a hidden single-cell row holding
   a comment or malformed line verbatim, or a row of cells.
   */
  datatype Row = Hidden(index: nat, line: string) | Cells(index: nat, cells: seq<Cell>)

  /** The number of fields of a CoNLL-U token line. */
  const FieldCount: nat := 10

  /** A field that is blank after trimming shows as `_`. */
  function Normalised(field: string): (r: string)
    ensures JsStrings.Blank(field) ==> r == "_"
    ensures !JsStrings.Blank(field) ==> r == field
  {
    if JsStrings.IsBlank(field) then "_" else field
  }

  /** Cell `j` of a token line: the normalised field; only UPOSTAG (3) and DEPREL (7) are validated, and `_` always counts as valid. */
  function CellOf(j: nat, field: string, uposTags: set<string>, deprels: set<string>): (c: Cell)
    ensures c.value == Normalised(field)
    ensures !c.valid ==> (j == 3 || j == 7) && c.value != "_"
    ensures c.value != "_" && j == 3 ==> c.valid == (c.value in uposTags)
    ensures c.value != "_" && j == 7 ==> c.valid == (c.value in deprels)
  {
    var v := Normalised(field);
    var valid := if v == "_" then true else if j == 3 then v in uposTags else if j == 7 then v in deprels else true;
    Cell(v, valid)
  }

  /** The cells of a line with exactly ten tab-separated fields. */
  function RowCells(fields: seq<string>, uposTags: set<string>, deprels: set<string>): (r: seq<Cell>)
    requires |fields| == FieldCount
    ensures |r| == FieldCount && forall j :: 0 <= j < FieldCount ==> r[j] == CellOf(j, fields[j], uposTags, deprels)
  {
    seq(FieldCount, j requires 0 <= j < FieldCount => CellOf(j, fields[j], uposTags, deprels))
  }

  /**
   What `updateTable` makes of line `i`: nothing for a blank line; a hidden row
   holding the line for a comment or a line without exactly ten tab-separated
   fields; otherwise ten cells.
   */
  function ClassifyLine(i: nat, line: string, uposTags: set<string>, deprels: set<string>): (r: Option<Row>)
    ensures r.None? <==> JsStrings.Blank(line)
    ensures r.Some? ==> r.value.index == i
    ensures r.Some? && r.value.Hidden? <==> !JsStrings.Blank(line) && (line[0] == '#' || |JsStrings.Split(line, '\t')| != FieldCount)
    ensures r.Some? && r.value.Hidden? ==> r.value.line == line
    ensures r.Some? && r.value.Cells? ==>
              var fields := JsStrings.Split(line, '\t');
              |fields| == FieldCount && |r.value.cells| == FieldCount
              && forall j :: 0 <= j < FieldCount ==> r.value.cells[j] == CellOf(j, fields[j], uposTags, deprels)
  {
    if JsStrings.IsBlank(line) then None
    else if line[0] == '#' then Some(Hidden(i, line))
    else
      var fields := JsStrings.Split(line, '\t');
      if |fields| != FieldCount then Some(Hidden(i, line))
      else Some(Cells(i, RowCells(fields, uposTags, deprels)))
  }

  /** The rows built from the first `n` lines, in order. */
  function RowsOf(lines: seq<string>, n: nat, uposTags: set<string>, deprels: set<string>): seq<Row>
    requires n <= |lines|
  {
    if n == 0 then []
    else
      RowsOf(lines, n - 1, uposTags, deprels)
      + match ClassifyLine(n - 1, lines[n - 1], uposTags, deprels) case Some(row) => [row] case None => []
  }

  /** `updateTable`: the rows of the table for the text, line by line and, for a token line, field by field. */
  method UpdateTable(text: string, uposTags: set<string>, deprels: set<string>) returns (rows: seq<Row>)
    ensures var lines := JsStrings.Split(text, '\n'); rows == RowsOf(lines, |lines|, uposTags, deprels)
  {
    var lines := JsStrings.Split(text, '\n');
    rows := [];
    var i := 0;
    while i < |lines|
      invariant 0 <= i <= |lines|
      invariant rows == RowsOf(lines, i, uposTags, deprels)
    {
      var line := lines[i];
      if !JsStrings.IsBlank(line) {
        var fields := JsStrings.Split(line, '\t');
        if line[0] == '#' || |fields| != FieldCount {
          rows := rows + [Hidden(i, line)];
        } else {
          var cells := LineCells(fields, uposTags, deprels);
          rows := rows + [Cells(i, cells)];
        }
      }
      i := i + 1;
    }
  }

  /** The `j < 10` loop of `updateTable`: each field normalised in place, then validated. */
  method LineCells(fields: seq<string>, uposTags: set<string>, deprels: set<string>) returns (cells: seq<Cell>)
    requires |fields| == FieldCount
    ensures cells == RowCells(fields, uposTags, deprels)
  {
    var values := fields;
    cells := [];
    var j := 0;
    while j < FieldCount
      invariant 0 <= j <= FieldCount && |values| == FieldCount
      invariant forall k :: j <= k < FieldCount ==> values[k] == fields[k]
      invariant |cells| == j && forall k :: 0 <= k < j ==> cells[k] == CellOf(k, fields[k], uposTags, deprels)
    {
      if JsStrings.IsBlank(values[j]) {
        values := values[j := "_"];
      }
      assert values[j] == Normalised(fields[j]);
      var valid := true;
      if values[j] != "_" {
        if j == 3 {
          valid := values[j] in uposTags;
        }
        if j == 7 {
          valid := values[j] in deprels;
        }
      }
      assert Cell(values[j], valid) == CellOf(j, fields[j], uposTags, deprels);
      cells := cells + [Cell(values[j], valid)];
      j := j + 1;
    }
  }

  // ---------------------------------------------------------------------------
  // Table to text (tableEditCell)

  /** A cell as written back: `_` if blank, and then every `<br>` removed. */
  function SerialCell(cell: string): string {
    JsStrings.RemoveBreaks(Normalised(cell))
  }

  /** A cell holding only `<br>` is not blank when it is tested, so it is written back empty, not as `_`. */
  lemma BreakOnlyCellWritesEmpty()
    ensures SerialCell("<br>") == ""
    ensures SerialCell(" ") == "_"
  {
    assert !JsStrings.IsJsSpace('<');
    assert !JsStrings.IsJsSpace("<br>"[0]);
    assert JsStrings.IsJsSpace(" "[0]);
  }

  /** The text of one row after its first `j` cells: the written-back cells with a tab before each but the first. */
  function SerialRow(cells: seq<string>, j: nat): string
    requires j <= |cells|
  {
    if j == 0 then ""
    else SerialRow(cells, j - 1) + (if j - 1 > 0 then "\t" else "") + SerialCell(cells[j - 1])
  }

  /** The text of a whole row. */
  function RowText(cells: seq<string>): string {
    SerialRow(cells, |cells|)
  }

  /** The text of the first `i` rows, each followed by a newline. */
  function Serialised(rows: seq<seq<string>>, i: nat): string
    requires i <= |rows|
  {
    if i == 0 then "" else Serialised(rows, i - 1) + RowText(rows[i - 1]) + "\n"
  }

  /** The table-to-text loop of `tableEditCell` over the cell texts of every row. */
  method TableToText(rows: seq<seq<string>>) returns (conllu: string)
    ensures conllu == Serialised(rows, |rows|)
  {
    conllu := "";
    var i := 0;
    while i < |rows|
      invariant 0 <= i <= |rows|
      invariant conllu == Serialised(rows, i)
    {
      var line := RowToText(rows[i]);
      assert Serialised(rows, i + 1) == conllu + line + "\n";
      conllu := conllu + line + "\n";
      i := i + 1;
    }
  }

  /** The inner loop of `tableEditCell` over the cells of one row: each cell written back, a tab before each but the first. */
  method RowToText(cells: seq<string>) returns (text: string)
    ensures text == RowText(cells)
  {
    text := "";
    var j := 0;
    while j < |cells|
      invariant 0 <= j <= |cells|
      invariant text == SerialRow(cells, j)
    {
      var thisCell := cells[j];
      if JsStrings.IsBlank(thisCell) {
        thisCell := "_";
      }
      thisCell := JsStrings.RemoveBreaks(thisCell);
      assert thisCell == SerialCell(cells[j]);
      var sep: string := if j > 0 then "\t" else "";
      text := text + sep + thisCell;
      j := j + 1;
    }
  }

  /** The written-back cells of a row. */
  function SerialCells(cells: seq<string>): (r: seq<string>)
    ensures |r| == |cells| && forall j :: 0 <= j < |cells| ==> r[j] == SerialCell(cells[j])
  {
    seq(|cells|, j requires 0 <= j < |cells| => SerialCell(cells[j]))
  }

  /** A row's text is its written-back cells joined by tabs. */
  lemma {:induction false} SerialRowIsJoin(cells: seq<string>, j: nat)
    requires j <= |cells|
    ensures SerialRow(cells, j) == JsStrings.Join(SerialCells(cells[..j]), '\t')
  {
    if j > 1 {
      SerialRowIsJoin(cells, j - 1);
      JoinSnoc(SerialCells(cells[..j - 1]), SerialCell(cells[j - 1]), '\t');
      assert SerialCells(cells[..j]) == SerialCells(cells[..j - 1]) + [SerialCell(cells[j - 1])];
    } else if j == 1 {
      assert SerialCells(cells[..1]) == [SerialCell(cells[0])];
    }
  }

  /** Joining one more piece adds the separator and the piece. */
  lemma {:induction false} JoinSnoc(parts: seq<string>, last: string, sep: char)
    requires |parts| >= 1
    ensures JsStrings.Join(parts + [last], sep) == JsStrings.Join(parts, sep) + [sep] + last
  {
    if |parts| == 1 {
      assert (parts + [last])[1..] == [last];
    } else {
      JoinSnoc(parts[1..], last, sep);
      assert (parts + [last])[1..] == parts[1..] + [last];
    }
  }

  // ---------------------------------------------------------------------------
  // Round trip

  /** A cell that reads back as itself: not blank, no tab, no newline, no `<br>`. */
  ghost predicate CleanCell(c: string) {
    !JsStrings.Blank(c) && '\t' !in c && '\n' !in c && !JsStrings.HasBreak(c)
  }

  /** A token row that reads back as itself: ten clean cells, the first not starting with `#`. */
  ghost predicate CleanRow(cells: seq<string>) {
    |cells| == FieldCount && (forall j :: 0 <= j < FieldCount ==> CleanCell(cells[j])) && cells[0][0] != '#'
  }

  /** A clean cell is written back as it is. */
  lemma CleanCellUnchanged(c: string)
    requires CleanCell(c)
    ensures SerialCell(c) == c
  {
    JsStrings.RemoveBreaksNoBreak(c);
  }

  /** The text of a clean row: its cells joined by tabs, with no newline in it. */
  lemma CleanRowText(cells: seq<string>)
    requires CleanRow(cells)
    ensures RowText(cells) == JsStrings.Join(cells, '\t')
    ensures '\n' !in RowText(cells)
    ensures RowText(cells) != [] && RowText(cells)[0] == cells[0][0]
  {
    SerialRowIsJoin(cells, FieldCount);
    assert cells[..FieldCount] == cells;
    forall j | 0 <= j < FieldCount ensures SerialCells(cells)[j] == cells[j] {
      CleanCellUnchanged(cells[j]);
    }
    assert SerialCells(cells) == cells;
    JoinNoSep(cells, '\t', '\n');
    JoinStarts(cells, '\t');
  }

  /** Joining pieces free of `c` by a separator other than `c` gives a text free of `c`. */
  lemma {:induction false} JoinNoSep(parts: seq<string>, sep: char, c: char)
    requires sep != c && forall k :: 0 <= k < |parts| ==> c !in parts[k]
    ensures c !in JsStrings.Join(parts, sep)
  {
    if |parts| > 1 {
      JoinNoSep(parts[1..], sep, c);
    }
  }

  /** A join whose first piece is not empty starts with that piece's first character. */
  lemma JoinStarts(parts: seq<string>, sep: char)
    requires |parts| >= 1 && parts[0] != []
    ensures JsStrings.Join(parts, sep) != [] && JsStrings.Join(parts, sep)[0] == parts[0][0]
  {
  }

  /** The texts of the rows, one per row. */
  function RowTexts(rows: seq<seq<string>>): (r: seq<string>)
    ensures |r| == |rows| && forall i :: 0 <= i < |rows| ==> r[i] == RowText(rows[i])
  {
    seq(|rows|, i requires 0 <= i < |rows| => RowText(rows[i]))
  }

  /** The whole text is the row texts, then an empty last piece, joined by newlines. */
  lemma {:induction false} SerialisedIsJoin(rows: seq<seq<string>>, i: nat)
    requires i <= |rows|
    ensures Serialised(rows, i) == JsStrings.Join(RowTexts(rows)[..i] + [""], '\n')
  {
    if i > 0 {
      SerialisedIsJoin(rows, i - 1);
      var texts := RowTexts(rows);
      assert texts[..i] == texts[..i - 1] + [texts[i - 1]];
      JoinAddLine(texts[..i - 1], texts[i - 1], '\n');
    }
  }

  /** Adding a piece before the empty last piece of a join adds the piece and a separator at the end. */
  lemma JoinAddLine(parts: seq<string>, t: string, sep: char)
    ensures JsStrings.Join(parts + [t] + [""], sep) == JsStrings.Join(parts + [""], sep) + t + [sep]
  {
    if parts == [] {
      assert parts + [t] + [""] == [t, ""];
      assert [t, ""][1..] == [""];
    } else {
      JoinSnoc(parts, "", sep);
      JoinSnoc(parts + [t], "", sep);
      JoinSnoc(parts, t, sep);
    }
  }

  /** The cell texts of a row of cells. */
  function Values(cells: seq<Cell>): (r: seq<string>)
    ensures |r| == |cells| && forall j :: 0 <= j < |cells| ==> r[j] == cells[j].value
  {
    seq(|cells|, j requires 0 <= j < |cells| => cells[j].value)
  }

  /**
   Writing a table of clean token rows back to text and rebuilding the table from
   that text gives one row of cells per table row, in order, holding the same texts.
   */
  lemma RoundTrip(rows: seq<seq<string>>, uposTags: set<string>, deprels: set<string>)
    requires forall i :: 0 <= i < |rows| ==> CleanRow(rows[i])
    ensures var lines := JsStrings.Split(Serialised(rows, |rows|), '\n');
            var table := RowsOf(lines, |lines|, uposTags, deprels);
      && |table| == |rows|
      && forall i :: 0 <= i < |rows| ==> table[i].Cells? && Values(table[i].cells) == rows[i]
  {
    var lines := SerialisedLines(rows);
    forall i | 0 <= i < |rows| ensures ReadsAs(lines[i], i, rows[i], uposTags, deprels) {
      CleanRowReads(rows[i], i, uposTags, deprels);
    }
    RowsOfClean(rows, lines, |rows|, uposTags, deprels);
    assert ClassifyLine(|rows|, lines[|rows|], uposTags, deprels).None? by {
      assert JsStrings.Blank(lines[|rows|]);
    }
  }

  /** The lines of the text of clean rows: each row's text, and an empty last line after the final newline. */
  lemma SerialisedLines(rows: seq<seq<string>>) returns (lines: seq<string>)
    requires forall i :: 0 <= i < |rows| ==> CleanRow(rows[i])
    ensures lines == JsStrings.Split(Serialised(rows, |rows|), '\n')
    ensures |lines| == |rows| + 1 && lines[|rows|] == ""
    ensures forall i :: 0 <= i < |rows| ==> lines[i] == RowText(rows[i])
  {
    var texts := RowTexts(rows);
    lines := texts + [""];
    SerialisedIsJoin(rows, |rows|);
    assert texts[..|rows|] == texts;
    forall k | 0 <= k < |lines| ensures '\n' !in lines[k] {
      if k < |texts| {
        CleanRowText(rows[k]);
      }
    }
    JsStrings.SplitJoin(lines, '\n');
  }

  /** Line `i` is read back as a row of cells holding the texts `cells`. */
  predicate ReadsAs(line: string, i: nat, cells: seq<string>, uposTags: set<string>, deprels: set<string>) {
    var r := ClassifyLine(i, line, uposTags, deprels);
    r.Some? && r.value.Cells? && Values(r.value.cells) == cells
  }

  /** When each of the first `n` lines reads back as the matching row, the first `n` lines give `n` rows of the same cells. */
  lemma {:induction false} RowsOfClean(rows: seq<seq<string>>, lines: seq<string>, n: nat, uposTags: set<string>, deprels: set<string>)
    requires n <= |rows| <= |lines|
    requires forall i :: 0 <= i < |rows| ==> ReadsAs(lines[i], i, rows[i], uposTags, deprels)
    ensures |RowsOf(lines, n, uposTags, deprels)| == n
    ensures forall i :: 0 <= i < n ==> RowsOf(lines, n, uposTags, deprels)[i].Cells? && Values(RowsOf(lines, n, uposTags, deprels)[i].cells) == rows[i]
  {
    if n > 0 {
      RowsOfClean(rows, lines, n - 1, uposTags, deprels);
      assert ReadsAs(lines[n - 1], n - 1, rows[n - 1], uposTags, deprels);
      var r := ClassifyLine(n - 1, lines[n - 1], uposTags, deprels);
      var prev := RowsOf(lines, n - 1, uposTags, deprels);
      var table := RowsOf(lines, n, uposTags, deprels);
      assert table == prev + [r.value];
      forall i | 0 <= i < n ensures table[i].Cells? && Values(table[i].cells) == rows[i] {
        if i < n - 1 {
          assert table[i] == prev[i];
        }
      }
    }
  }

  /** The line of a clean row is read back as a row of cells with its texts. */
  lemma CleanRowReads(cells: seq<string>, i: nat, uposTags: set<string>, deprels: set<string>)
    requires CleanRow(cells)
    ensures var r := ClassifyLine(i, RowText(cells), uposTags, deprels);
      r.Some? && r.value.Cells? && Values(r.value.cells) == cells
  {
    CleanRowText(cells);
    var line := RowText(cells);
    JsStrings.SplitJoin(cells, '\t');
    assert !JsStrings.Blank(line) by {
      assert !JsStrings.Blank(cells[0]);
      var k :| 0 <= k < |cells[0]| && !JsStrings.IsJsSpace(cells[0][k]);
      JoinHasPiece(cells, '\t', k);
      assert line[k] == cells[0][k];
    }
    var r := ClassifyLine(i, line, uposTags, deprels);
    forall j | 0 <= j < FieldCount ensures r.value.cells[j].value == cells[j] {
      CleanCellNormalised(cells[j]);
    }
  }

  /** A clean cell is its own normalised form. */
  lemma CleanCellNormalised(c: string)
    requires CleanCell(c)
    ensures Normalised(c) == c
  {
  }

  /** The first piece of a join is a prefix of it. */
  lemma JoinHasPiece(parts: seq<string>, sep: char, k: nat)
    requires |parts| >= 1 && k < |parts[0]|
    ensures k < |JsStrings.Join(parts, sep)| && JsStrings.Join(parts, sep)[k] == parts[0][k]
  {
  }

  // ---------------------------------------------------------------------------
  // Row count of the text box (fitTable)

  /** The smaller of two numbers. */
  function Min(a: int, b: int): int {
    if a <= b then a else b
  }

  /** `fitTable`: one row more than the text has lines, but at most the default number of rows. */
  function FitRows(text: string, defaultRows: int): (r: int)
    ensures r == Min(JsStrings.Occurrences(text, '\n') + 2, defaultRows)
    ensures r <= defaultRows
  {
    var currentRows := |JsStrings.Split(text, '\n')|;
    JsStrings.SplitCount(text, '\n');
    if currentRows < defaultRows then currentRows + 1 else defaultRows
  }

  // ---------------------------------------------------------------------------
  // Column visibility (toggleTableColumn, toggleTableView)

  /** `TABLE_COLUMNS_HEADERS`: column name to column offset. */
  function TableColumnsHeaders(): map<string, nat> {
    map["ID" := 0, "FORM" := 1, "LEMMA" := 2, "UPOSTAG" := 3, "XPOSTAG" := 4,
        "FEATS" := 5, "HEAD" := 6, "DEPREL" := 7, "DEPS" := 8, "MISC" := 9]
  }

  /** The ten CoNLL-U columns in their order in a token line. */
  function ColumnNames(): seq<string> {
    ["ID", "FORM", "LEMMA", "UPOSTAG", "XPOSTAG", "FEATS", "HEAD", "DEPREL", "DEPS", "MISC"]
  }

  /** The offset of a column, if the name is one of the headers. */
  function ColumnIndex(col: string): (r: Option<nat>)
    ensures r.Some? ==> r.value < FieldCount && ColumnNames()[r.value] == col
    ensures r.None? ==> col !in ColumnNames()
  {
    if col in TableColumnsHeaders() then Some(TableColumnsHeaders()[col]) else None
  }

  /** Each header maps to its own position in the column order. */
  lemma ColumnIndexOfNames(k: nat)
    requires k < FieldCount
    ensures ColumnIndex(ColumnNames()[k]) == Some(k)
  {
  }

  /** The flags after flipping the one at the column offset, if there is one. */
  function ToggledFlags(flags: seq<bool>, idx: Option<nat>): (r: seq<bool>)
    ensures |r| == |flags|
  {
    if idx.Some? && idx.value < |flags| then flags[idx.value := !flags[idx.value]] else flags
  }

  /** Toggling flips exactly the flag at the offset and leaves every other flag alone. */
  lemma ToggleFlipsOne(flags: seq<bool>, idx: Option<nat>)
    ensures forall k :: 0 <= k < |flags| ==> ToggledFlags(flags, idx)[k] == (if idx == Some(k) then !flags[k] else flags[k])
  {
  }

  /** Toggling the same column twice restores the flags. */
  lemma ToggleTwice(flags: seq<bool>, idx: Option<nat>)
    ensures ToggledFlags(ToggledFlags(flags, idx), idx) == flags
  {
  }

  /** The table-view state: the visibility flag of each of the ten columns, and whether the table is shown instead of the text. */
  class TableView {
    /** `TABLE_COLUMNS_VISIBILITY`. */
    const visibility: array<bool>
    /** `IS_TABLE_VIEW`. */
    var isTableView: bool

    /** The page's initial state: all ten columns visible, text view. */
    constructor ()
      ensures visibility.Length == FieldCount && fresh(visibility)
      ensures forall k :: 0 <= k < FieldCount ==> visibility[k]
      ensures !isTableView
    {
      visibility := new bool[FieldCount](_ => true);
      isTableView := false;
    }

    /** `toggleTableColumn(col)`: the flag at the column's offset flips; an unknown column name touches no flag. */
    method ToggleTableColumn(col: string)
      modifies visibility
      ensures visibility[..] == ToggledFlags(old(visibility[..]), ColumnIndex(col))
    {
      var colId := ColumnIndex(col);
      if colId.Some? && colId.value < visibility.Length {
        visibility[colId.value] := !visibility[colId.value];
      }
    }

    /** `toggleTableView()`: switch between the text and the table. */
    method ToggleTableView()
      modifies this
      ensures isTableView == !old(isTableView)
    {
      isTableView := !isTableView;
    }
  }
}
