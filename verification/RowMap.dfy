/** From visual rows back to log lines (internal/tui/panes/logpanel.go, internal/tui/panes/logpanel_mouse.go). */
module RowMap {
  import opened Wrap
  import opened Seqs

  /** A row on the screen: what it shows, the line it belongs to, and whether it is that line's first. */
  datatype VisualRow = VisualRow(line: Line, origIdx: nat, first: bool)

  function Pieces(line: Line, wrapOn: bool, width: int): (pieces: seq<Line>) {
    if wrapOn && width > 0 then Wrapped(line, width) else [line]
  }

  function RowsOf(pieces: seq<Line>, i: nat): (rows: seq<VisualRow>)
    ensures |rows| == |pieces|
  {
    seq(|pieces|, j requires 0 <= j < |pieces| => VisualRow(pieces[j], i, j == 0))
  }

  /** The visual rows of the first n lines. */
  function Expand(out: seq<Line>, n: nat, wrapOn: bool, width: int): seq<VisualRow>
    requires n <= |out|
  {
    if n == 0 then []
    else Expand(out, n - 1, wrapOn, width) + RowsOf(Pieces(out[n - 1], wrapOn, width), n - 1)
  }

  // ----- The rows of a line are one block -----

  lemma {:induction false} ExpandPrefix(out: seq<Line>, n: nat, m: nat, wrapOn: bool, width: int)
    requires n <= m <= |out|
    ensures Expand(out, n, wrapOn, width) <= Expand(out, m, wrapOn, width)
    decreases m
  {
    if n < m {
      ExpandPrefix(out, n, m - 1, wrapOn, width);
    }
  }

  lemma PiecesNotEmpty(line: Line, wrapOn: bool, width: int)
    ensures |Pieces(line, wrapOn, width)| >= 1
  {
    if wrapOn && 0 < width < Visible(line) {
      WrapFills(line, width);
    }
  }

  /** Where the rows of line i start. */
  function BlockStart(out: seq<Line>, i: nat, wrapOn: bool, width: int): nat
    requires i <= |out|
  {
    |Expand(out, i, wrapOn, width)|
  }

  /** The rows from the start of line i on are the pieces of that line in order; the next line starts behind them. */
  lemma BlockHolds(out: seq<Line>, i: nat, wrapOn: bool, width: int)
    requires i < |out|
    ensures var rows, start, pieces := Expand(out, |out|, wrapOn, width), BlockStart(out, i, wrapOn, width), Pieces(out[i], wrapOn, width);
            && 1 <= |pieces|
            && start + |pieces| == BlockStart(out, i + 1, wrapOn, width) <= |rows|
            && forall j :: 0 <= j < |pieces| ==> rows[start + j] == VisualRow(pieces[j], i, j == 0)
  {
    PiecesNotEmpty(out[i], wrapOn, width);
    ExpandPrefix(out, i + 1, |out|, wrapOn, width);
    var rows, before := Expand(out, |out|, wrapOn, width), Expand(out, i, wrapOn, width);
    var pieces := Pieces(out[i], wrapOn, width);
    assert before + RowsOf(pieces, i) <= rows;
    hide Expand, Pieces;
    forall j | 0 <= j < |pieces| ensures rows[|before| + j] == VisualRow(pieces[j], i, j == 0) {
      Inside(rows, before, RowsOf(pieces, i), j);
    }
  }

  lemma Inside<T>(all: seq<T>, before: seq<T>, mid: seq<T>, j: nat)
    requires before + mid <= all && j < |mid|
    ensures all[|before| + j] == mid[j]
  {
    assert (before + mid)[|before| + j] == mid[j];
  }

  lemma PieceAt(out: seq<Line>, i: nat, j: nat, k: nat, wrapOn: bool, width: int)
    requires i < |out| && j < |Pieces(out[i], wrapOn, width)| && k == BlockStart(out, i, wrapOn, width) + j
    ensures k < |Expand(out, |out|, wrapOn, width)|
    ensures Expand(out, |out|, wrapOn, width)[k] == VisualRow(Pieces(out[i], wrapOn, width)[j], i, j == 0)
  {
    hide *;
    BlockHolds(out, i, wrapOn, width);
  }

  lemma ExpandMore(out: seq<Line>, n: nat, wrapOn: bool, width: int)
    requires n <= |out|
    ensures n == 0 ==> Expand(out, n, wrapOn, width) == []
    ensures 0 < n ==> BlockStart(out, n - 1, wrapOn, width) == |Expand(out, n - 1, wrapOn, width)|
    ensures var size := |Expand(out, n, wrapOn, width)|;
            0 < n ==> size == BlockStart(out, n - 1, wrapOn, width) + |Pieces(out[n - 1], wrapOn, width)|
  {
    hide Pieces;
  }

  /** Every row lies in the block of one line. */
  lemma {:induction false} BlockOf(out: seq<Line>, n: nat, k: nat, wrapOn: bool, width: int) returns (i: nat, j: nat)
    requires n <= |out| && k < |Expand(out, n, wrapOn, width)|
    ensures i < n && j < |Pieces(out[i], wrapOn, width)| && k == BlockStart(out, i, wrapOn, width) + j
    decreases n
  {
    ExpandMore(out, n, wrapOn, width);
    hide *;
    var start := BlockStart(out, n - 1, wrapOn, width);
    if k >= start {
      i, j := n - 1, k - start;
    } else {
      i, j := BlockOf(out, n - 1, k, wrapOn, width);
    }
  }

  /** Row k belongs to line i as its piece j. */
  lemma RowIsPiece(out: seq<Line>, k: nat, wrapOn: bool, width: int) returns (i: nat, j: nat)
    requires k < |Expand(out, |out|, wrapOn, width)|
    ensures i < |out| && j < |Pieces(out[i], wrapOn, width)| && k == BlockStart(out, i, wrapOn, width) + j
    ensures Expand(out, |out|, wrapOn, width)[k] == VisualRow(Pieces(out[i], wrapOn, width)[j], i, j == 0)
  {
    hide *;
    i, j := BlockOf(out, |out|, k, wrapOn, width);
    PieceAt(out, i, j, k, wrapOn, width);
  }

  /** The map goes up by at most one from row to row, exactly at the rows marked first, from line 0 to the last. */
  lemma MapIsBlocks(out: seq<Line>, wrapOn: bool, width: int)
    requires out != []
    ensures var rows := Expand(out, |out|, wrapOn, width);
            && rows != [] && rows[0].origIdx == 0 && rows[0].first && rows[|rows| - 1].origIdx == |out| - 1
            && forall k :: 0 < k < |rows| ==>
                 rows[k].origIdx == rows[k - 1].origIdx + if rows[k].first then 1 else 0
  {
    hide *;
    var rows := Expand(out, |out|, wrapOn, width);
    BlockHolds(out, 0, wrapOn, width);
    FirstBlockStart(out, wrapOn, width);
    PieceAt(out, 0, 0, 0, wrapOn, width);
    LastBlockEnd(out, |out| - 1, wrapOn, width);
    forall k | 0 < k < |rows| ensures rows[k].origIdx == rows[k - 1].origIdx + if rows[k].first then 1 else 0 {
      RowAfter(out, k, wrapOn, width);
    }
  }

  lemma RowAfter(out: seq<Line>, k: nat, wrapOn: bool, width: int)
    requires 0 < k < |Expand(out, |out|, wrapOn, width)|
    ensures var rows := Expand(out, |out|, wrapOn, width);
            rows[k].origIdx == rows[k - 1].origIdx + if rows[k].first then 1 else 0
  {
    hide *;
    var i, j := RowIsPiece(out, k, wrapOn, width);
    if j > 0 {
      PieceAt(out, i, j - 1, k - 1, wrapOn, width);
    } else {
      FirstBlockStart(out, wrapOn, width);
      LastBlockEnd(out, i - 1, wrapOn, width);
    }
  }

  /** The row before the next line's first is the last of line i. */
  lemma LastBlockEnd(out: seq<Line>, i: nat, wrapOn: bool, width: int)
    requires i < |out|
    ensures 0 < BlockStart(out, i + 1, wrapOn, width) <= |Expand(out, |out|, wrapOn, width)|
    ensures Expand(out, |out|, wrapOn, width)[BlockStart(out, i + 1, wrapOn, width) - 1].origIdx == i
    ensures i + 1 == |out| ==> BlockStart(out, i + 1, wrapOn, width) == |Expand(out, |out|, wrapOn, width)|
  {
    BlockHolds(out, i, wrapOn, width);
    var j := |Pieces(out[i], wrapOn, width)| - 1;
    PieceAt(out, i, j, BlockStart(out, i, wrapOn, width) + j, wrapOn, width);
    hide Expand, Pieces;
  }

  lemma FirstBlockStart(out: seq<Line>, wrapOn: bool, width: int)
    ensures BlockStart(out, 0, wrapOn, width) == 0
  {}

  // ----- From a click to a column -----

  /** How many rows right before row k belong to the same line. */
  function RunBefore(lines: seq<int>, k: nat): nat
    requires k < |lines|
  {
    if k > 0 && lines[k - 1] == lines[k] then 1 + RunBefore(lines, k - 1) else 0
  }

  /** The map from rows to lines, as PaintRows stores it. */
  function RawOf(rows: seq<VisualRow>): seq<int> {
    seq(|rows|, k requires 0 <= k < |rows| => rows[k].origIdx)
  }

  /** The column under x in row k: a row starts a whole number of content widths into its line. */
  function ColumnAt(lines: seq<int>, k: nat, wrapOn: bool, width: int, x: int): int
    requires k < |lines|
  {
    (if wrapOn then RunBefore(lines, k) else 0) * width + x
  }

  lemma ColumnInPiece(lines: seq<int>, k: nat, wrapOn: bool, width: int, x: int, j: nat)
    requires k < |lines| && RunBefore(lines, k) == j && (!wrapOn ==> j == 0)
    ensures ColumnAt(lines, k, wrapOn, width, x) == j * width + x
  {
    hide RunBefore;
  }

  function Clamp(col: int, n: nat): (c: nat)
    requires n > 0
  {
    if col < 0 then 0 else if col >= n then n - 1 else col
  }

  /** Clamping takes a column to the nearest one of the text. */
  lemma ClampIsNearest(col: int, n: nat, other: nat)
    requires other < n
    ensures Clamp(col, n) < n && Distance(Clamp(col, n), col) <= Distance(other, col)
  {}

  function Distance(a: int, b: int): nat {
    if a <= b then b - a else a - b
  }

  lemma {:induction false} RunIsPiece(out: seq<Line>, i: nat, j: nat, k: nat, wrapOn: bool, width: int)
    requires i < |out| && j < |Pieces(out[i], wrapOn, width)| && k == BlockStart(out, i, wrapOn, width) + j
    requires k < |Expand(out, |out|, wrapOn, width)|
    ensures RunBefore(RawOf(Expand(out, |out|, wrapOn, width)), k) == j
    decreases j
  {
    var rows := Expand(out, |out|, wrapOn, width);
    PieceAt(out, i, j, k, wrapOn, width);
    hide Expand, Pieces, BlockStart;
    if j > 0 {
      RunIsPiece(out, i, j - 1, k - 1, wrapOn, width);
      PieceAt(out, i, j - 1, k - 1, wrapOn, width);
    } else if k > 0 {
      RowAfter(out, k, wrapOn, width);
    }
  }

  /** Expands each line into the rows it takes. */
  method ExpandLines(out: seq<Line>, wrapOn: bool, contentWidth: int) returns (rows: seq<VisualRow>)
    ensures rows == Expand(out, |out|, wrapOn, contentWidth)
  {
    hide Wrapped;
    rows := [];
    for i := 0 to |out|
      invariant rows == Expand(out, i, wrapOn, contentWidth)
    {
      if wrapOn && contentWidth > 0 {
        var pieces := WrapLine(out[i], contentWidth);
        ghost var before := rows;
        for j := 0 to |pieces|
          invariant rows == before + RowsOf(pieces, i)[..j]
        {
          rows := rows + [VisualRow(pieces[j], i, j == 0)];
        }
        assert RowsOf(pieces, i)[..|pieces|] == RowsOf(pieces, i);
        continue;
      }
      rows := rows + [VisualRow(out[i], i, true)];
      assert RowsOf([out[i]], i) == [VisualRow(out[i], i, true)];
    }
  }

  /** What the panel keeps between a paint and a mouse event. */
  class LogPanel {
    var rawLines: seq<Line>
    var wrapOn: bool
    var vpWidth: int
    var gutterWidth: int
    var rowToRaw: array<int>
    var rowFirst: array<bool>
    var rowCount: nat

    ghost predicate Valid()
      reads this
    {
      rowCount <= rowToRaw.Length == rowFirst.Length
    }

    function ContentWidth(): (w: int)
      reads this
      ensures vpWidth > gutterWidth ==> w + gutterWidth == vpWidth
      ensures vpWidth <= gutterWidth ==> w == 1
    {
      if vpWidth - gutterWidth < 1 then 1 else vpWidth - gutterWidth
    }

    ghost function Map(): seq<int>
      reads this, rowToRaw
      requires Valid()
    {
      rowToRaw[..rowCount]
    }

    /** Expands the decorated lines into rows and rebuilds the map; with no lines the old map stays. */
    method PaintRows(out: seq<Line>) returns (flat: seq<Line>)
      requires Valid() && |out| == |rawLines|
      modifies this`rowToRaw, this`rowFirst, this`rowCount, rowToRaw, rowFirst
      ensures Valid()
      ensures out == [] ==> flat == [] && Map() == old(Map())
      ensures out != [] ==>
        var rows := Expand(out, |out|, wrapOn, ContentWidth());
        && Map() == RawOf(rows)
        && rowFirst[..rowCount] == seq(|rows|, k requires 0 <= k < |rows| => rows[k].first)
        && flat == seq(|rows|, k requires 0 <= k < |rows| => rows[k].line)
    {
      if |rawLines| == 0 {
        return [];
      }
      var rows := ExpandLines(out, wrapOn, ContentWidth());
      if rowToRaw.Length < |rows| {
        rowToRaw := new int[|rows|];
        rowFirst := new bool[|rows|];
      }
      rowCount := |rows|;
      StoreRows(rows);
      flat := seq(|rows|, k requires 0 <= k < |rows| => rows[k].line);
    }

    method StoreRows(rows: seq<VisualRow>)
      requires rowCount == |rows| <= rowToRaw.Length == rowFirst.Length
      modifies rowToRaw, rowFirst
      ensures rowToRaw[..rowCount] == RawOf(rows)
      ensures rowFirst[..rowCount] == seq(|rows|, k requires 0 <= k < |rows| => rows[k].first)
    {
      for k := 0 to |rows|
        invariant forall j :: 0 <= j < k ==> rowToRaw[j] == rows[j].origIdx && rowFirst[j] == rows[j].first
      {
        rowToRaw[k] := rows[k].origIdx;
        rowFirst[k] := rows[k].first;
      }
    }

    /** The stripped column of the raw line under column contentX of a row. */
    method ColForRenderedRow(renderedRow: int, contentX: int) returns (col: int)
      requires Valid()
      ensures !(0 <= renderedRow < rowCount) ==> col == 0
      ensures 0 <= renderedRow < rowCount ==>
        var raw := Map()[renderedRow];
        col == if !(0 <= raw < |rawLines|) || Visible(rawLines[raw]) == 0 then 0
               else Clamp(ColumnAt(Map(), renderedRow, wrapOn, ContentWidth(), contentX), Visible(rawLines[raw]))
    {
      if renderedRow < 0 || renderedRow >= rowCount {
        return 0;
      }
      var raw := rowToRaw[renderedRow];
      if raw < 0 || raw >= |rawLines| {
        return 0;
      }
      var stripped := Text(rawLines[raw]);
      if |stripped| == 0 {
        return 0;
      }
      var wrapPiece: nat := 0;
      if wrapOn {
        var k := renderedRow - 1;
        while k >= 0 && rowToRaw[k] == raw
          invariant -1 <= k < renderedRow
          invariant Map()[k + 1] == raw
          invariant wrapPiece + RunBefore(Map(), k + 1) == RunBefore(Map(), renderedRow)
          decreases k
        {
          wrapPiece := wrapPiece + 1;
          k := k - 1;
        }
      }
      var contentWidth := ContentWidth();
      col := wrapPiece * contentWidth + contentX;
      if col < 0 {
        col := 0;
      }
      if col >= |stripped| {
        col := |stripped| - 1;
      }
    }
  }

  /**
   * With the map of the last paint, byte x of row k is byte col of the raw line, col being what
   * ColForRenderedRow answers: the decorated line shows the raw text, and at most more behind it.
   */
  lemma ClickHitsByte(raw: seq<Line>, out: seq<Line>, wrapOn: bool, width: nat, k: nat, x: nat)
    requires 0 < width && |raw| == |out|
    requires forall i :: 0 <= i < |raw| ==> Text(raw[i]) <= Text(out[i])
    requires k < |Expand(out, |out|, wrapOn, width)|
    requires x < Visible(Expand(out, |out|, wrapOn, width)[k].line)
    ensures Expand(out, |out|, wrapOn, width)[k].origIdx < |raw|
    ensures var row := Expand(out, |out|, wrapOn, width)[k];
            var text := Text(raw[row.origIdx]);
            var col := ColumnAt(RawOf(Expand(out, |out|, wrapOn, width)), k, wrapOn, width, x);
            && 0 <= col < Visible(out[row.origIdx])
            && (col < |text| ==> Clamp(col, |text|) == col && text[col] == Text(row.line)[x])
  {
    hide *;
    var i, j := RowIsPiece(out, k, wrapOn, width);
    RunIsPiece(out, i, j, k, wrapOn, width);
    OnePiece(out[i], wrapOn, width);
    RawLength(Expand(out, |out|, wrapOn, width));
    ColumnInPiece(RawOf(Expand(out, |out|, wrapOn, width)), k, wrapOn, width, x, j);
    PieceByteIs(out[i], wrapOn, width, j, x);
    ClampInside(j * width + x, |Text(raw[i])|);
  }

  lemma RawLength(rows: seq<VisualRow>)
    ensures |RawOf(rows)| == |rows|
  {}

  lemma ClampInside(c: nat, n: nat)
    ensures c < n ==> Clamp(c, n) == c
  {}

  lemma OnePiece(line: Line, wrapOn: bool, width: int)
    ensures !wrapOn ==> |Pieces(line, wrapOn, width)| == 1
  {}

  lemma PieceByteIs(line: Line, wrapOn: bool, width: nat, j: nat, x: nat)
    requires 0 < width && j < |Pieces(line, wrapOn, width)| && x < Visible(Pieces(line, wrapOn, width)[j])
    ensures j * width + x < Visible(line) && Text(Pieces(line, wrapOn, width)[j])[x] == Text(line)[j * width + x]
  {
    hide Wrapped, Text;
    if wrapOn {
      WrappedByte(line, width, j, x);
    } else {
      assert j * width == 0;
    }
  }

  /** And every byte of a raw line is under some column of some row of the line. */
  lemma EveryByteIsShown(raw: seq<Line>, out: seq<Line>, wrapOn: bool, width: nat, i: nat, c: nat) returns (k: nat, x: nat)
    requires 0 < width && i < |raw| == |out| && Text(raw[i]) <= Text(out[i]) && c < Visible(raw[i])
    ensures k < |Expand(out, |out|, wrapOn, width)|
    ensures var row := Expand(out, |out|, wrapOn, width)[k];
            && row.origIdx == i && x < Visible(row.line)
            && c == ColumnAt(RawOf(Expand(out, |out|, wrapOn, width)), k, wrapOn, width, x)
  {
    var j: nat;
    assert c < Visible(out[i]);
    hide *;
    j, x := PieceWith(out[i], wrapOn, width, c);
    k := BlockStart(out, i, wrapOn, width) + j;
    PieceAt(out, i, j, k, wrapOn, width);
    RunIsPiece(out, i, j, k, wrapOn, width);
    OnePiece(out[i], wrapOn, width);
    RawLength(Expand(out, |out|, wrapOn, width));
    ColumnInPiece(RawOf(Expand(out, |out|, wrapOn, width)), k, wrapOn, width, x, j);
  }

  lemma PieceWith(line: Line, wrapOn: bool, width: nat, c: nat) returns (j: nat, x: nat)
    requires 0 < width && c < Visible(line)
    ensures j < |Pieces(line, wrapOn, width)| && x < Visible(Pieces(line, wrapOn, width)[j]) && c == j * width + x
  {
    hide Wrapped, Text;
    if wrapOn {
      j, x := ByteShown(line, width, c);
    } else {
      j, x := 0, c;
      assert j * width == 0;
    }
  }
}
