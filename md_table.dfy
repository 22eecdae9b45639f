/**
 * The Markdown table renderer of the icon overview: IconOverview::md_table_col
 * renders one column as a list of equally wide lines (header, alignment
 * separator, one line per row) and IconOverview::md_table zips the columns
 * into the lines of the table.
 *
 * Widths are counted in characters; the model is meant for single-byte text,
 * where strlen, mb_strlen and sprintf's byte padding agree.
 */
module MarkdownTable {
  import opened Strings

  /** The width md_table_col pads every line to ($len): the length of the
      longest of the header and the rows. */
  function ColumnWidth(name: string, rows: seq<string>): (len: nat)
    ensures |name| <= len
    ensures forall i :: 0 <= i < |rows| ==> |rows[i]| <= len
    ensures len == |name| || exists i :: 0 <= i < |rows| && len == |rows[i]|
  {
    if |rows| == 0 then |name|
    else
      var init := rows[..|rows| - 1];
      var m := ColumnWidth(name, init);
      var last := |rows[|rows| - 1]|;
      assert forall i :: 0 <= i < |init| ==> init[i] == rows[i];
      if m < last then last else m
  }

  /** One padded cell, sprintf('| %-<len>s ', text), or sprintf('| %<len>s ',
      text) when the column is right-aligned. */
  function Cell(text: string, len: nat, align: string): (r: string)
    ensures |r| == Max(|text|, len) + 3
  {
    "| " + (if align == "right" then PadLeft(text, len, ' ') else PadRight(text, len, ' ')) + " "
  }

  /** A cell shows its text after "| ", flush left unless the column is
      right-aligned, where it ends just before the closing space. */
  lemma CellContent(text: string, len: nat, align: string)
    ensures var r := Cell(text, len, align);
      && r[..2] == "| " && r[|r| - 1] == ' '
      && (align != "right" ==> r[2..2 + |text|] == text)
      && (align == "right" ==> r[|r| - 1 - |text|..|r| - 1] == text)
  {
    var padded := if align == "right" then PadLeft(text, len, ' ') else PadRight(text, len, ' ');
    var r := "| " + padded + " ";
    assert r[2..2 + |padded|] == padded;
    assert r[..2] == "| ";
  }

  /** The left colon of the separator: ':' for left and centred columns. */
  function ColonLeft(align: string): char {
    if align == "left" || align == "center" then ':' else ' '
  }

  /** The right colon of the separator: ':' for right-aligned and centred columns. */
  function ColonRight(align: string): char {
    if align == "right" || align == "center" then ':' else ' '
  }

  /** The alignment line, sprintf("|%s%'-<len>s%s", colon_l, '-', colon_r). */
  function Separator(align: string, len: nat): (r: string)
    ensures |r| == Max(1, len) + 3
  {
    "|" + [ColonLeft(align)] + PadLeft("-", len, '-') + [ColonRight(align)]
  }

  /** The separator starts with '|', shows a colon on the side or sides the
      column is aligned to and a blank on the others, and dashes in
      between. */
  lemma SeparatorShape(align: string, len: nat)
    ensures var r := Separator(align, len);
      && r[0] == '|'
      && (r[1] == ':' <==> align == "left" || align == "center")
      && (r[1] != ':' ==> r[1] == ' ')
      && (r[|r| - 1] == ':' <==> align == "right" || align == "center")
      && (r[|r| - 1] != ':' ==> r[|r| - 1] == ' ')
      && forall i :: 2 <= i < |r| - 1 ==> r[i] == '-'
  {
    var dashes := PadLeft("-", len, '-');
    assert forall i :: 0 <= i < |dashes| ==> dashes[i] == '-' by {
      assert dashes[|dashes| - 1..] == "-";
    }
    var r := "|" + [ColonLeft(align)] + dashes + [ColonRight(align)];
    assert r == Separator(align, len);
    assert r[1] == ColonLeft(align) && r[|r| - 1] == ColonRight(align);
    assert forall i :: 2 <= i < |r| - 1 ==> r[i] == dashes[i - 2];
  }

  /** The row lines of a column: each row padded to width len. */
  function CellLines(rows: seq<string>, len: nat, align: string): (lines: seq<string>)
    ensures |lines| == |rows|
  {
    if |rows| == 0 then []
    else CellLines(rows[..|rows| - 1], len, align) + [Cell(rows[|rows| - 1], len, align)]
  }

  /** Row line k is row k padded. */
  lemma {:induction false} CellLinesAt(rows: seq<string>, len: nat, align: string, k: nat)
    requires k < |rows|
    ensures CellLines(rows, len, align)[k] == Cell(rows[k], len, align)
  {
    if k < |rows| - 1 {
      CellLinesAt(rows[..|rows| - 1], len, align, k);
    }
  }

  /** The column md_table_col returns: header line, separator, one line per row. */
  function MdColumn(name: string, rows: seq<string>, align: string): (col: seq<string>)
    ensures |col| == |rows| + 2
    ensures col[0] == Cell(name, ColumnWidth(name, rows), align)
    ensures col[1] == Separator(align, ColumnWidth(name, rows))
  {
    var len := ColumnWidth(name, rows);
    [Cell(name, len, align), Separator(align, len)] + CellLines(rows, len, align)
  }

  /**
   * Line k of a column: the header, the separator or row k - 2, padded to
   * the column width. The doc comment's promise holds whenever that width is
   * at least one: every line is the width plus three characters long.
   */
  lemma MdColumnLine(name: string, rows: seq<string>, align: string, k: nat)
    requires k < |rows| + 2
    ensures k >= 2 ==> MdColumn(name, rows, align)[k] == Cell(rows[k - 2], ColumnWidth(name, rows), align)
    ensures ColumnWidth(name, rows) >= 1 ==> |MdColumn(name, rows, align)[k]| == ColumnWidth(name, rows) + 3
  {
    var len := ColumnWidth(name, rows);
    var col := MdColumn(name, rows, align);
    if k == 0 {
      assert |col[0]| == Max(|name|, len) + 3;
    } else if k == 1 {
      assert |col[1]| == Max(1, len) + 3;
    } else {
      CellLinesAt(rows, len, align, k - 2);
      assert col[k] == CellLines(rows, len, align)[k - 2];
      assert |rows[k - 2]| <= len;
      assert |col[k]| == Max(|rows[k - 2]|, len) + 3;
    }
  }

  /** The doc comment's promise of equal widths fails for a column whose header
      and rows are all empty: the separator is then one character wider. */
  lemma EmptyColumnIsUneven()
    ensures |MdColumn("", [], "left")[0]| == 3
    ensures |MdColumn("", [], "left")[1]| == 4
  {
    var col := MdColumn("", [], "left");
    assert ColumnWidth("", []) == 0;
    assert |col[0]| == Max(0, 0) + 3;
    assert |col[1]| == Max(1, 0) + 3;
  }

  /** IconOverview::md_table_col. */
  method MdTableCol(name: string, rows: seq<string>, align: string) returns (col: seq<string>)
    ensures col == MdColumn(name, rows, align)
  {
    // First find the length of the longest line.
    var len := LongestLine(name, rows);
    // Then render the lines.
    col := [Cell(name, len, align), Separator(align, len)];
    ghost var head := col;
    for i := 0 to |rows|
      invariant col == head + CellLines(rows[..i], len, align)
    {
      CellLinesSnoc(head, rows, len, align, i);
      col := col + [Cell(rows[i], len, align)];
    }
    assert rows[..|rows|] == rows;
  }

  /** The first loop of md_table_col: the length of the longest of the
      header and the rows. */
  method LongestLine(name: string, rows: seq<string>) returns (len: nat)
    ensures len == ColumnWidth(name, rows)
  {
    len := |name|;
    for i := 0 to |rows|
      invariant len == ColumnWidth(name, rows[..i])
    {
      assert rows[..i + 1][..i] == rows[..i];
      if len < |rows[i]| {
        len := |rows[i]|;
      }
    }
    assert rows[..|rows|] == rows;
  }

  /** Rendering one more row appends its line. */
  lemma CellLinesSnoc(head: seq<string>, rows: seq<string>, len: nat, align: string, i: nat)
    requires i < |rows|
    ensures head + CellLines(rows[..i + 1], len, align) == head + CellLines(rows[..i], len, align) + [Cell(rows[i], len, align)]
  {
    assert rows[..i + 1][..i] == rows[..i];
  }

  /** The columns md_table accepts: at least one, and none shorter than the
      first, whose length is the number of lines. */
  predicate WellShaped(cols: seq<seq<string>>) {
    |cols| >= 1 && forall c :: 0 <= c < |cols| ==> |cols[0]| <= |cols[c]|
  }

  /** The a-th entry of every column, left to right. */
  function RowCells(cols: seq<seq<string>>, a: nat): (cells: seq<string>)
    requires forall c :: 0 <= c < |cols| ==> a < |cols[c]|
    ensures |cells| == |cols|
    ensures forall c :: 0 <= c < |cols| ==> cells[c] == cols[c][a]
  {
    seq(|cols|, c requires 0 <= c < |cols| => cols[c][a])
  }

  /** Line a of the table: the a-th entry of every column, then '|'. */
  function TableLine(cols: seq<seq<string>>, a: nat): (line: string)
    requires forall c :: 0 <= c < |cols| ==> a < |cols[c]|
    ensures |line| >= 1 && line[|line| - 1] == '|'
  {
    Concat(RowCells(cols, a)) + "|"
  }

  function TableLines(cols: seq<seq<string>>): (lines: seq<string>)
    requires WellShaped(cols)
    ensures |lines| == |cols[0]|
    ensures forall a :: 0 <= a < |lines| ==> lines[a] == TableLine(cols, a)
  {
    seq(|cols[0]|, a requires 0 <= a < |cols[0]| => TableLine(cols, a))
  }

  /** The string md_table returns: the lines joined by "\n", plus a final "\n". */
  function MdTableText(cols: seq<seq<string>>): (s: string)
    requires WellShaped(cols)
    ensures |s| >= 1 && s[|s| - 1] == '\n'
  {
    Join("\n", TableLines(cols)) + "\n"
  }

  lemma {:induction false} ConcatSnoc(parts: seq<string>, x: string)
    ensures Concat(parts + [x]) == Concat(parts) + x
  {
    if |parts| > 0 {
      assert (parts + [x])[1..] == parts[1..] + [x];
      ConcatSnoc(parts[1..], x);
    } else {
      assert Concat([x]) == x + Concat([]);
    }
  }

  /** IconOverview::md_table. */
  method MdTable(cols: seq<seq<string>>) returns (s: string)
    requires WellShaped(cols)
    ensures s == MdTableText(cols)
  {
    var lines: seq<string> := [];
    var amount := |cols[0]|;
    for a := 0 to amount
      invariant |lines| == a
      invariant forall k :: 0 <= k < a ==> lines[k] == TableLine(cols, k)
    {
      var line := "";
      for c := 0 to |cols|
        invariant line == Concat(RowCells(cols, a)[..c])
      {
        assert RowCells(cols, a)[..c + 1] == RowCells(cols, a)[..c] + [cols[c][a]];
        ConcatSnoc(RowCells(cols, a)[..c], cols[c][a]);
        line := line + cols[c][a];
      }
      assert RowCells(cols, a)[..|cols|] == RowCells(cols, a);
      line := line + "|";
      lines := lines + [line];
    }
    assert lines == TableLines(cols);
    s := Join("\n", lines) + "\n";
  }

  /** md_table emits one "\n"-terminated line per row of the first column;
      when no cell holds a line break, the text has exactly that many. */
  lemma TableLayout(cols: seq<seq<string>>)
    requires WellShaped(cols) && |cols[0]| >= 1
    ensures MdTableText(cols)
            == Concat(seq(|cols[0]|, a requires 0 <= a < |cols[0]| => TableLine(cols, a) + "\n"))
    ensures (forall c, a :: 0 <= c < |cols| && 0 <= a < |cols[c]| ==> '\n' !in cols[c][a])
            ==> Count('\n', MdTableText(cols)) == |cols[0]|
  {
    var lines := TableLines(cols);
    JoinThenTerminate("\n", lines);
    assert seq(|lines|, i requires 0 <= i < |lines| => lines[i] + "\n")
        == seq(|cols[0]|, a requires 0 <= a < |cols[0]| => TableLine(cols, a) + "\n");
    if forall c, a :: 0 <= c < |cols| && 0 <= a < |cols[c]| ==> '\n' !in cols[c][a] {
      forall a | 0 <= a < |lines| ensures '\n' !in lines[a] {
        NoBreakInLine(cols, a);
      }
      TerminatedLineCount('\n', lines);
      assert seq(|lines|, i requires 0 <= i < |lines| => lines[i] + ['\n'])
          == seq(|lines|, i requires 0 <= i < |lines| => lines[i] + "\n");
    }
  }

  lemma {:induction false} NoBreakInConcat(parts: seq<string>)
    requires forall i :: 0 <= i < |parts| ==> '\n' !in parts[i]
    ensures '\n' !in Concat(parts)
  {
    if |parts| > 0 {
      NoBreakInConcat(parts[1..]);
    }
  }

  lemma NoBreakInLine(cols: seq<seq<string>>, a: nat)
    requires forall c :: 0 <= c < |cols| ==> a < |cols[c]|
    requires forall c :: 0 <= c < |cols| ==> '\n' !in cols[c][a]
    ensures '\n' !in TableLine(cols, a)
  {
    NoBreakInConcat(RowCells(cols, a));
  }

  lemma {:induction false} ConcatSameLengths(p: seq<string>, q: seq<string>)
    requires |p| == |q|
    requires forall i :: 0 <= i < |p| ==> |p[i]| == |q[i]|
    ensures |Concat(p)| == |Concat(q)|
  {
    if |p| > 0 {
      ConcatSameLengths(p[1..], q[1..]);
    }
  }

  /** When within every column all lines have the same width, every line of
      the table has the same width. */
  lemma TableLinesEqualWidth(cols: seq<seq<string>>, a: nat, b: nat)
    requires WellShaped(cols) && a < |cols[0]| && b < |cols[0]|
    requires forall c :: 0 <= c < |cols| ==> |cols[c][a]| == |cols[c][b]|
    ensures |TableLine(cols, a)| == |TableLine(cols, b)|
  {
    ConcatSameLengths(RowCells(cols, a), RowCells(cols, b));
  }

  /** A line of a four-column table, spelled out. */
  lemma TableLineOfFour(cols: seq<seq<string>>, k: nat)
    requires WellShaped(cols) && |cols| == 4 && k < |cols[0]|
    ensures TableLine(cols, k) == cols[0][k] + cols[1][k] + cols[2][k] + cols[3][k] + "|"
  {
    var cells := RowCells(cols, k);
    assert Concat(cells[3..]) == cells[3] by { assert Concat(cells[4..]) == ""; }
    assert Concat(cells[2..]) == cells[2] + Concat(cells[3..]) by { assert cells[2..][1..] == cells[3..]; }
    assert Concat(cells[1..]) == cells[1] + Concat(cells[2..]) by { assert cells[1..][1..] == cells[2..]; }
  }
}
