/** The column layout of print_output: which cell shows which entry, and how wide the rows are. */
module Columns {

  /** Number of columns and rows for `count` entries in columns `colWidth` wide. */
  function NumCols(width: nat, colWidth: nat): (n: nat)
    requires colWidth > 0
    ensures n >= 1
  {
    if width / colWidth == 0 then 1 else width / colWidth
  }

  function NumRows(count: nat, cols: nat): nat
    requires cols > 0
  {
    (count + cols - 1) / cols
  }

  /** How many cells row `row` has. */
  function Cells(count: nat, rows: nat, row: nat): nat
    requires rows > 0
  {
    if row >= count then 0 else (count - 1 - row) / rows + 1
  }

  lemma DivBound(a: nat, b: nat, c: nat)
    requires b > 0
    ensures c <= a / b <==> c * b <= a
  {
    var q := a / b;
    assert a == q * b + a % b;
    if c <= q {
      assert c * b <= q * b;
    } else {
      assert c * b >= (q + 1) * b == q * b + b;
    }
  }

  /** A cell exists exactly when its index is that of an entry. */
  lemma CellExists(count: nat, rows: nat, row: nat, col: nat)
    requires rows > 0
    ensures col < Cells(count, rows, row) <==> col * rows + row < count
  {
    if row < count {
      DivBound(count - 1 - row, rows, col);
    }
  }

  /** The layout has room for every entry. */
  lemma GridCovers(count: nat, cols: nat)
    requires cols > 0
    ensures count <= NumRows(count, cols) * cols
    ensures count > 0 ==> NumRows(count, cols) > 0
  {
    var rows := NumRows(count, cols);
    assert count + cols - 1 == rows * cols + (count + cols - 1) % cols;
    assert rows == 0 ==> rows * cols == 0;
  }

  /** The columns are as many as fit, or a single one when not even that fits; the rows as few as hold every
      entry in that many columns. */
  lemma GridIsTight(count: nat, width: nat, colWidth: nat)
    requires colWidth > 0
    ensures var cols := NumCols(width, colWidth);
            && width < (cols + 1) * colWidth
            && (cols > 1 ==> cols * colWidth <= width)
            && count <= NumRows(count, cols) * cols
            && (count > 0 ==> (NumRows(count, cols) - 1) * cols < count)
  {
    var cols := NumCols(width, colWidth);
    var rows := NumRows(count, cols);
    DivBound(width, colWidth, cols);
    DivBound(width, colWidth, cols + 1);
    GridCovers(count, cols);
    assert rows * cols <= count + cols - 1 by {
      DivBound(count + cols - 1, cols, rows);
    }
    assert (rows - 1) * cols == rows * cols - cols;
  }

  /** No row has more cells than there are columns. */
  lemma RowFits(count: nat, cols: nat, row: nat)
    requires cols > 0 && count > 0
    ensures NumRows(count, cols) > 0 && Cells(count, NumRows(count, cols), row) <= cols
  {
    GridCovers(count, cols);
    var rows := NumRows(count, cols);
    var cells := Cells(count, rows, row);
    CellExists(count, rows, row, cols);
    assert cols * rows == rows * cols;
  }

  /** What row `row` shows, left to right. */
  function Row(count: nat, rows: nat, row: nat): (cells: seq<nat>)
    requires rows > 0
    ensures |cells| == Cells(count, rows, row)
    ensures forall col :: 0 <= col < |cells| ==> cells[col] == col * rows + row
  {
    seq(Cells(count, rows, row), col requires 0 <= col => col * rows + row)
  }

  /** Every entry is shown in exactly one cell, entry `i` in row `i % rows` and column `i / rows`. */
  lemma ShownOnce(count: nat, rows: nat, i: nat)
    requires rows > 0 && i < count
    ensures var row, col := i % rows, i / rows;
            && col < |Row(count, rows, row)| && Row(count, rows, row)[col] == i
            && forall r: nat, c: nat :: r < rows && c < |Row(count, rows, r)| && Row(count, rows, r)[c] == i
                 ==> r == row && c == col
  {
    var row, col := i % rows, i / rows;
    assert col * rows + row == i;
    CellExists(count, rows, row, col);
    forall r: nat, c: nat | r < rows && c < |Row(count, rows, r)| && Row(count, rows, r)[c] == i
      ensures r == row && c == col
    {
      DivBound(i, rows, c);
      DivBound(i, rows, c + 1);
      assert (c + 1) * rows == c * rows + rows;
    }
  }

  /** `longest` is the greatest of the lengths, 0 when there are none. */
  ghost predicate IsLongest(lengths: seq<nat>, longest: nat) {
    && (forall k :: 0 <= k < |lengths| ==> lengths[k] <= longest)
    && (longest == 0 || longest in lengths)
  }

  method Longest(lengths: seq<nat>) returns (longest: nat)
    ensures IsLongest(lengths, longest)
  {
    longest := 0;
    for i := 0 to |lengths|
      invariant IsLongest(lengths[..i], longest)
    {
      assert lengths[..i + 1] == lengths[..i] + [lengths[i]];
      if lengths[i] > longest {
        longest := lengths[i];
      }
    }
    assert lengths[..|lengths|] == lengths;
  }

  method PrintRows(count: nat, cols: nat, rows: nat) returns (lines: seq<seq<nat>>)
    requires cols > 0 && rows == NumRows(count, cols)
    ensures |lines| == rows
    ensures forall row :: 0 <= row < rows ==> lines[row] == Row(count, rows, row)
  {
    lines := [];
    var row := 0;
    while row < rows
      invariant 0 <= row <= rows && |lines| == row
      invariant forall r :: 0 <= r < row ==> lines[r] == Row(count, rows, r)
    {
      var line := PrintRow(count, cols, rows, row);
      lines := lines + [line];
      row := row + 1;
    }
  }

  /** The layout loops: the columns are as wide as the longest name and two more, and line `row` shows
      row `row`. */
  method PrintColumns(nameLengths: seq<nat>, width: nat) returns (lines: seq<seq<nat>>, colWidth: nat)
    ensures colWidth >= 2 && IsLongest(nameLengths, colWidth - 2)
    ensures var count := |nameLengths|;
            var rows := NumRows(count, NumCols(width, colWidth));
            && |lines| == rows && (count > 0 ==> rows > 0)
            && forall row :: 0 <= row < rows ==> lines[row] == Row(count, rows, row)
  {
    var count := |nameLengths|;
    var longest := Longest(nameLengths);
    colWidth := longest + 2;
    var cols := width / colWidth;
    if cols == 0 {
      cols := 1;
    }
    var rows := (count + cols - 1) / cols;
    GridCovers(count, cols);
    lines := PrintRows(count, cols, rows);
  }

  method PrintRow(count: nat, cols: nat, rows: nat, row: nat) returns (line: seq<nat>)
    requires cols > 0 && rows == NumRows(count, cols) && row < rows
    ensures line == Row(count, rows, row)
  {
    line := [];
    var col := 0;
    while col < cols
      invariant 0 <= col <= cols
      invariant line == Row(count, rows, row)[..if col <= Cells(count, rows, row) then col else Cells(count, rows, row)]
    {
      var index := col * rows + row;
      CellExists(count, rows, row, col);
      if index < count {
        line := line + [index];
      }
      col := col + 1;
    }
    if count > 0 {
      RowFits(count, cols, row);
    }
  }

  // ---- Widths -----------------------------------------------------------------------------------------

  /** Characters on a line of `cells` cells: each name is padded to the column width and, with -i, preceded by
      an inode number and a space, `extra` characters. */
  function LineWidth(cells: nat, colWidth: nat, extra: nat): nat {
    cells * (colWidth + extra)
  }

  function Spaces(n: nat): (s: string)
    ensures |s| == n
  {
    seq(n, _ => ' ')
  }

  /** printf's "%-*s" and "%*lu": padded behind or in front, never cut. */
  function PadRight(s: string, width: nat): string {
    if |s| < width then s + Spaces(width - |s|) else s
  }

  function PadLeft(s: string, width: nat): string {
    if |s| < width then Spaces(width - |s|) + s else s
  }

  /** The text of a row: for each cell the inode number in `inodeWidth` characters and a space, with -i, and
      the name in the column's width. */
  function RowText(names: seq<string>, inodes: seq<string>, cells: seq<nat>, colWidth: nat, withInodes: bool,
                   inodeWidth: nat): string
    requires |names| == |inodes| && forall k :: 0 <= k < |cells| ==> cells[k] < |names|
  {
    if cells == [] then ""
    else
      var init, index := cells[..|cells| - 1], cells[|cells| - 1];
      RowText(names, inodes, init, colWidth, withInodes, inodeWidth)
      + (if withInodes then PadLeft(inodes[index], inodeWidth) + " " else "")
      + PadRight(names[index], colWidth)
  }

  lemma OneMore(cells: nat, colWidth: nat, extra: nat)
    ensures LineWidth(cells + 1, colWidth, extra) == LineWidth(cells, colWidth, extra) + extra + colWidth
  {
  }

  /** When the widths are at least the longest name's and inode number's, a row is as wide as its number of cells
      says. */
  lemma {:induction false} RowTextWidth(names: seq<string>, inodes: seq<string>, cells: seq<nat>, colWidth: nat,
                                        withInodes: bool, inodeWidth: nat)
    requires |names| == |inodes| && forall k :: 0 <= k < |cells| ==> cells[k] < |names|
    requires forall k :: 0 <= k < |names| ==> |names[k]| <= colWidth && |inodes[k]| <= inodeWidth
    ensures |RowText(names, inodes, cells, colWidth, withInodes, inodeWidth)|
         == LineWidth(|cells|, colWidth, if withInodes then inodeWidth + 1 else 0)
  {
    if cells != [] {
      var extra := if withInodes then inodeWidth + 1 else 0;
      RowTextWidth(names, inodes, cells[..|cells| - 1], colWidth, withInodes, inodeWidth);
      OneMore(|cells| - 1, colWidth, extra);
    }
  }

  /** The first row is the longest. */
  lemma FirstRowLongest(count: nat, rows: nat, row: nat)
    requires rows > 0
    ensures Cells(count, rows, row) <= Cells(count, rows, 0)
  {
    if 0 < row < count {
      CellExists(count, rows, row, Cells(count, rows, row) - 1);
      CellExists(count, rows, 0, Cells(count, rows, row) - 1);
    }
  }

  lemma LineGrows(a: nat, b: nat, colWidth: nat, extra: nat)
    requires a <= b
    ensures LineWidth(a, colWidth, extra) <= LineWidth(b, colWidth, extra)
  {
    var w := colWidth + extra;
    assert b * w == a * w + (b - a) * w;
  }

  lemma ColumnsFit(width: nat, colWidth: nat)
    requires 0 < colWidth <= width
    ensures LineWidth(NumCols(width, colWidth), colWidth, 0) <= width
  {
    DivBound(width, colWidth, 1);
    DivBound(width, colWidth, width / colWidth);
  }

  lemma RowFitsTerminal(count: nat, width: nat, colWidth: nat, row: nat)
    requires count > 0 && 0 < colWidth <= width && NumRows(count, NumCols(width, colWidth)) > 0
    ensures LineWidth(Cells(count, NumRows(count, NumCols(width, colWidth)), row), colWidth, 0) <= width
  {
    var cols := NumCols(width, colWidth);
    RowFits(count, cols, row);
    ColumnsFit(width, colWidth);
    LineGrows(Cells(count, NumRows(count, cols), row), cols, colWidth, 0);
  }

  lemma FirstRowHasACell(count: nat, rows: nat, colWidth: nat)
    requires count > 0 && rows > 0
    ensures LineWidth(Cells(count, rows, 0), colWidth, 0) >= colWidth
  {
    CellExists(count, rows, 0, 0);
    LineGrows(1, Cells(count, rows, 0), colWidth, 0);
  }

  /** Without inode numbers the rows fit the terminal exactly when a single column does. */
  lemma RowsFitTerminal(count: nat, width: nat, colWidth: nat)
    requires count > 0 && colWidth > 0
    ensures var rows := NumRows(count, NumCols(width, colWidth));
            rows > 0
            && ((forall row: nat :: row < rows ==> LineWidth(Cells(count, rows, row), colWidth, 0) <= width)
                <==> colWidth <= width)
  {
    GridCovers(count, NumCols(width, colWidth));
    var rows := NumRows(count, NumCols(width, colWidth));
    FirstRowHasACell(count, rows, colWidth);
    if colWidth <= width {
      forall row: nat | row < rows ensures LineWidth(Cells(count, rows, row), colWidth, 0) <= width {
        RowFitsTerminal(count, width, colWidth, row);
      }
    }
  }

  /** With inode numbers, which the choice of columns ignores, they fit exactly when the first row does. */
  lemma InodeRowsFit(count: nat, width: nat, colWidth: nat, extra: nat)
    requires count > 0 && colWidth > 0
    ensures var rows := NumRows(count, NumCols(width, colWidth));
            rows > 0
            && ((forall row: nat :: row < rows ==> LineWidth(Cells(count, rows, row), colWidth, extra) <= width)
                <==> LineWidth(Cells(count, rows, 0), colWidth, extra) <= width)
  {
    GridCovers(count, NumCols(width, colWidth));
    var rows := NumRows(count, NumCols(width, colWidth));
    forall row: nat | row < rows
      ensures LineWidth(Cells(count, rows, row), colWidth, extra) <= LineWidth(Cells(count, rows, 0), colWidth, extra)
    {
      FirstRowLongest(count, rows, row);
      LineGrows(Cells(count, rows, row), Cells(count, rows, 0), colWidth, extra);
    }
  }

  /** Two one-letter names with one-digit inode numbers in a terminal of six columns: each name fits with its
      inode number, both fit without, but the row with inode numbers does not. */
  lemma InodeRowTooWide()
    ensures var rows := NumRows(2, NumCols(6, 3));
            && rows == 1 && LineWidth(1, 3, 2) <= 6
            && LineWidth(Cells(2, rows, 0), 3, 0) <= 6 && LineWidth(Cells(2, rows, 0), 3, 2) > 6
  {
  }
}
