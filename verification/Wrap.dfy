/** Hard-wrapping of styled log lines (internal/tui/panes/logpanel_wrap.go). */
module Wrap {
  import opened Seqs

  const ESC_BYTE: char := '\U{1b}'

  /** A visible byte, or one escape sequence: the escape byte and the bytes after it. */
  datatype Token = Vis(c: char) | Escape(tail: string)

  type Line = seq<Token>

  // ----- What a terminal shows -----

  /** A terminal's styles: the clean one, and what an escape sequence makes of a style. */
  datatype Terminal<!S> = Terminal(clean: S, apply: (Token, S) -> S)

  /** A control sequence that ends in m selects graphic renditions: colours and attributes. */
  predicate SelectsStyle(t: Token) {
    t.Escape? && t.tail != "" && t.tail[0] == '[' && t.tail[|t.tail| - 1] == 'm'
  }

  /** The two spellings of the instruction that brings back the clean style. */
  const RESET: Token := Escape("[0m")
  const SHORT_RESET: Token := Escape("[m")

  /** What section 8.3.117 of ECMA-48 asks of a terminal: resets reset, and only these sequences change the style. */
  ghost predicate Obeys<S(!new)>(term: Terminal<S>) {
    && (forall st: S :: term.apply(RESET, st) == term.clean && term.apply(SHORT_RESET, st) == term.clean)
    && (forall t: Token, st: S :: t.Escape? && !SelectsStyle(t) ==> term.apply(t, st) == st)
  }

  /** The style after the line, from style st on. */
  function StyleAfter<S>(term: Terminal<S>, line: Line, st: S): S {
    if line == [] then st
    else
      var t, before := line[|line| - 1], StyleAfter(term, line[..|line| - 1], st);
      if t.Escape? then term.apply(t, before) else before
  }

  /** Everything but what selects a style, each with the style it is shown in. */
  function Cells<S>(term: Terminal<S>, line: Line, st: S): seq<(Token, S)> {
    if line == [] then []
    else
      var t, before := line[|line| - 1], line[..|line| - 1];
      Cells(term, before, st) + if SelectsStyle(t) then [] else [(t, StyleAfter(term, before, st))]
  }

  lemma StyleSnoc<S>(term: Terminal<S>, line: Line, t: Token, st: S)
    ensures StyleAfter(term, line + [t], st)
         == if t.Escape? then term.apply(t, StyleAfter(term, line, st)) else StyleAfter(term, line, st)
    ensures Cells(term, line + [t], st)
         == Cells(term, line, st) + if SelectsStyle(t) then [] else [(t, StyleAfter(term, line, st))]
  {
    assert (line + [t])[..|line|] == line;
  }

  // ----- The wrapping -----

  /** The instructions the wrapping keeps track of. */
  predicate IsSGR(t: Token) {
    t.Escape? && |t.tail| >= 2 && t.tail[0] == '[' && t.tail[|t.tail| - 1] == 'm'
  }

  predicate IsSGRReset(t: Token) {
    IsSGR(t) && var body := t.tail[1..|t.tail| - 1]; body == "" || body == "0"
  }

  /** They are those that select a style, and its resets are those of the terminal. */
  lemma TracksAll(t: Token)
    ensures IsSGR(t) <==> SelectsStyle(t)
    ensures IsSGRReset(t) <==> t == RESET || t == SHORT_RESET
  {
    if IsSGRReset(t) {
      assert t.tail == "[" + t.tail[1..|t.tail| - 1] + "m";
    }
    assert SHORT_RESET.tail[1..1] == "" && RESET.tail[1..2] == "0";
  }

  /** The visible bytes of the line. */
  function Text(line: Line): string {
    if line == [] then ""
    else Text(line[..|line| - 1]) + if line[|line| - 1].Vis? then [line[|line| - 1].c] else ""
  }

  function Visible(line: Line): nat {
    |Text(line)|
  }

  lemma TextSnoc(line: Line, t: Token)
    ensures Text(line + [t]) == Text(line) + if t.Vis? then [t.c] else ""
  {
    assert (line + [t])[..|line|] == line;
  }

  /** The rows that are out, the row under way, the open SGR instructions and the visible bytes of the row. */
  datatype Wrapping = Wrapping(rows: seq<Line>, row: Line, active: Line, visible: nat)

  function Flush(w: Wrapping): Wrapping {
    if w.row == [] then w
    else Wrapping(w.rows + [if w.active == [] then w.row else w.row + [RESET]], w.active, w.active, 0)
  }

  /** One token joins the row under way; an SGR instruction opens, a reset closes all that are open. */
  function Take(w: Wrapping, t: Token): Wrapping {
    if t.Vis? then w.(row := w.row + [t], visible := w.visible + 1)
    else w.(row := w.row + [t],
            active := if IsSGRReset(t) then [] else if IsSGR(t) then w.active + [t] else w.active)
  }

  function Put(w: Wrapping, t: Token, width: nat): Wrapping {
    var next := Take(w, t);
    if t.Vis? && next.visible >= width then Flush(next) else next
  }

  /** The state after the first k tokens of the line. */
  function Walk(line: Line, k: nat, width: nat): Wrapping
    requires k <= |line|
  {
    if k == 0 then Wrapping([], [], [], 0) else Put(Walk(line, k - 1, width), line[k - 1], width)
  }

  function Wrapped(line: Line, width: int): seq<Line> {
    if width <= 0 || Visible(line) <= width then [line] else Flush(Walk(line, |line|, width)).rows
  }

  // ----- Meaning -----

  function AllCells<S>(term: Terminal<S>, rows: seq<Line>): seq<(Token, S)> {
    Flatten(seq(|rows|, k requires 0 <= k < |rows| => Cells(term, rows[k], term.clean)))
  }

  lemma AllCellsSnoc<S>(term: Terminal<S>, rows: seq<Line>, row: Line)
    ensures AllCells(term, rows + [row]) == AllCells(term, rows) + Cells(term, row, term.clean)
  {
    var cells := seq(|rows|, k requires 0 <= k < |rows| => Cells(term, rows[k], term.clean));
    var last := Cells(term, row, term.clean);
    assert seq(|rows + [row]|, k requires 0 <= k < |rows + [row]| => Cells(term, (rows + [row])[k], term.clean))
        == cells + [last];
    FlattenAppend(cells, [last]);
    assert Flatten([last]) == last + Flatten([]);
  }

  /** Nothing but open SGR instructions. */
  predicate OnlySGR(line: Line) {
    forall k :: 0 <= k < |line| ==> SelectsStyle(line[k])
  }

  lemma {:induction false} OnlySGRShowsNothing<S>(term: Terminal<S>, line: Line, st: S)
    requires OnlySGR(line)
    ensures Cells(term, line, st) == [] && Text(line) == ""
  {
    if line != [] {
      OnlySGRShowsNothing(term, line[..|line| - 1], st);
    }
  }

  /** What is out and under way shows the line read so far; the active instructions alone give its style. */
  ghost predicate Kept<S>(term: Terminal<S>, w: Wrapping, line: Line) {
    && AllCells(term, w.rows) + Cells(term, w.row, term.clean) == Cells(term, line, term.clean)
    && StyleAfter(term, w.row, term.clean) == StyleAfter(term, line, term.clean)
    && StyleAfter(term, w.active, term.clean) == StyleAfter(term, line, term.clean)
    && OnlySGR(w.active)
    && forall k :: 0 <= k < |w.rows| ==> StyleAfter(term, w.rows[k], term.clean) == term.clean
  }

  /** Flushing moves the row out, and leaves the terminal clean behind it. */
  lemma FlushKeeps<S(!new)>(term: Terminal<S>, w: Wrapping, line: Line)
    requires Obeys(term) && Kept(term, w, line)
    ensures Kept(term, Flush(w), line)
  {
    if w.row != [] {
      var out := if w.active == [] then w.row else w.row + [RESET];
      StyleSnoc(term, w.row, RESET, term.clean);
      AllCellsSnoc(term, w.rows, out);
      OnlySGRShowsNothing(term, w.active, term.clean);
      hide AllCells, Cells, StyleAfter, OnlySGR;
      assert StyleAfter(term, [], term.clean) == term.clean by { CleanStart(term); }
      assert Cells(term, out, term.clean) == Cells(term, w.row, term.clean);
      assert AllCells(term, w.rows + [out]) + [] == AllCells(term, w.rows) + Cells(term, w.row, term.clean);
    }
  }

  lemma CleanStart<S>(term: Terminal<S>)
    ensures StyleAfter(term, [], term.clean) == term.clean && Cells(term, [], term.clean) == []
    ensures AllCells(term, []) == []
  {}

  lemma KeptShown<S>(term: Terminal<S>, w: Wrapping, line: Line)
    requires Kept(term, w, line)
    ensures AllCells(term, w.rows) + Cells(term, w.row, term.clean) == Cells(term, line, term.clean)
    ensures StyleAfter(term, w.row, term.clean) == StyleAfter(term, line, term.clean)
    ensures StyleAfter(term, w.active, term.clean) == StyleAfter(term, line, term.clean)
  {
    hide AllCells, Cells, StyleAfter, OnlySGR;
  }

  /** The open instructions stay those that give the style. */
  lemma TakeActive<S(!new)>(term: Terminal<S>, w: Wrapping, line: Line, t: Token)
    requires Obeys(term) && OnlySGR(w.active)
    requires StyleAfter(term, w.active, term.clean) == StyleAfter(term, line, term.clean)
    ensures OnlySGR(Take(w, t).active)
    ensures StyleAfter(term, Take(w, t).active, term.clean) == StyleAfter(term, line + [t], term.clean)
  {
    hide StyleAfter;
    StyleSnoc(term, line, t, term.clean);
    StyleSnoc(term, w.active, t, term.clean);
    CleanStart(term);
    TracksAll(t);
    hide IsSGR, IsSGRReset, SelectsStyle;
  }

  lemma TakeKeeps<S(!new)>(term: Terminal<S>, w: Wrapping, line: Line, t: Token)
    requires Obeys(term) && Kept(term, w, line)
    ensures Kept(term, Take(w, t), line + [t])
  {
    KeptShown(term, w, line);
    TakeActive(term, w, line, t);
    hide AllCells, Cells, StyleAfter, OnlySGR, SelectsStyle, IsSGR, IsSGRReset, Obeys;
    StyleSnoc(term, w.row, t, term.clean);
    StyleSnoc(term, line, t, term.clean);
    var shown := if SelectsStyle(t) then [] else [(t, StyleAfter(term, line, term.clean))];
    Regroup(AllCells(term, w.rows), Cells(term, w.row, term.clean), shown);
  }

  lemma PutKeeps<S(!new)>(term: Terminal<S>, w: Wrapping, line: Line, t: Token, width: nat)
    requires Obeys(term) && Kept(term, w, line)
    ensures Kept(term, Put(w, t, width), line + [t])
  {
    hide Kept, Take, Flush, Obeys;
    TakeKeeps(term, w, line, t);
    FlushKeeps(term, Take(w, t), line + [t]);
  }

  lemma {:induction false} WalkKeeps<S(!new)>(term: Terminal<S>, line: Line, k: nat, width: nat)
    requires Obeys(term) && k <= |line|
    ensures Kept(term, Walk(line, k, width), line[..k])
  {
    if k == 0 {
      CleanStart(term);
    } else {
      WalkKeeps(term, line, k - 1, width);
      PutKeeps(term, Walk(line, k - 1, width), line[..k - 1], line[k - 1], width);
      assert line[..k - 1] + [line[k - 1]] == line[..k];
    }
  }

  /**
   * Wrapping keeps the meaning of a line: for every such terminal, the rows shown one after the other, each
   * from the clean style, show the same bytes and escapes in the same styles as the line.
   */
  lemma WrapKeepsMeaning<S(!new)>(term: Terminal<S>, line: Line, width: int)
    requires Obeys(term)
    ensures AllCells(term, Wrapped(line, width)) == Cells(term, line, term.clean)
  {
    if width <= 0 || Visible(line) <= width {
      CleanStart(term);
      AllCellsSnoc(term, [], line);
      assert [] + [line] == [line];
    } else {
      WrapEnd(term, line, width);
    }
  }

  /** A line that is wrapped leaves the terminal clean after each of its rows. */
  lemma WrapDoesNotBleed<S(!new)>(term: Terminal<S>, line: Line, width: int)
    requires Obeys(term) && 0 < width < Visible(line)
    ensures forall k :: 0 <= k < |Wrapped(line, width)| ==>
              StyleAfter(term, Wrapped(line, width)[k], term.clean) == term.clean
  {
    WrapEnd(term, line, width);
  }

  lemma WrapEnd<S(!new)>(term: Terminal<S>, line: Line, width: nat)
    requires Obeys(term)
    ensures var rows := Flush(Walk(line, |line|, width)).rows;
            && AllCells(term, rows) == Cells(term, line, term.clean)
            && forall k :: 0 <= k < |rows| ==> StyleAfter(term, rows[k], term.clean) == term.clean
  {
    WalkKeeps(term, line, |line|, width);
    assert line[..|line|] == line;
    var w := Walk(line, |line|, width);
    FlushKeeps(term, w, line);
    var end := Flush(w);
    CleanStart(term);
    OnlySGRShowsNothing(term, w.active, term.clean);
    assert end.row == [] || end.row == w.active;
    hide AllCells, Cells, StyleAfter, OnlySGR, Walk, Flush;
    assert AllCells(term, end.rows) + [] == AllCells(term, end.rows);
  }

  // ----- Widths -----

  function Texts(rows: seq<Line>): seq<string> {
    seq(|rows|, k requires 0 <= k < |rows| => Text(rows[k]))
  }

  /** Every row that is out is full, the one under way is not, and together they hold the text so far. */
  ghost predicate Full(w: Wrapping, line: Line, width: nat) {
    && (forall k :: 0 <= k < |w.rows| ==> Visible(w.rows[k]) == width)
    && w.visible == Visible(w.row) < width
    && OnlySGR(w.active)
    && Flatten(Texts(w.rows)) + Text(w.row) == Text(line)
  }

  lemma TextsSnoc(rows: seq<Line>, row: Line)
    ensures Flatten(Texts(rows + [row])) == Flatten(Texts(rows)) + Text(row)
  {
    assert Texts(rows + [row]) == Texts(rows) + [Text(row)];
    FlattenAppend(Texts(rows), [Text(row)]);
    assert Flatten([Text(row)]) == Text(row) + Flatten([]);
  }

  lemma ActiveHasNoText(active: Line)
    requires OnlySGR(active)
    ensures Text(active) == ""
  {
    OnlySGRShowsNothing(Terminal((), (t, u) => ()), active, ());
  }

  /** A flush moves the text of the row out. */
  lemma FlushText(w: Wrapping)
    requires OnlySGR(w.active) && w.row != []
    ensures var v := Flush(w);
            && |v.rows| == |w.rows| + 1 && v.rows[..|w.rows|] == w.rows
            && Text(v.rows[|w.rows|]) == Text(w.row)
            && Text(v.row) == "" && v.visible == 0 && v.active == w.active
            && Flatten(Texts(v.rows)) == Flatten(Texts(w.rows)) + Text(w.row)
  {
    var out := if w.active == [] then w.row else w.row + [RESET];
    TextSnoc(w.row, RESET);
    ActiveHasNoText(w.active);
    hide Text, OnlySGR, Texts;
    TextsSnoc(w.rows, out);
  }

  lemma PutFull(w: Wrapping, line: Line, t: Token, width: nat)
    requires Full(w, line, width)
    ensures Full(Put(w, t, width), line + [t], width)
  {
    TextSnoc(w.row, t);
    TextSnoc(line, t);
    hide Text, Texts;
    var seen := if t.Vis? then [t.c] else "";
    Regroup(Flatten(Texts(w.rows)), Text(w.row), seen);
    if t.Vis? && w.visible + 1 >= width {
      var next := w.(row := w.row + [t], visible := w.visible + 1);
      FlushText(next);
      hide OnlySGR, Flush;
      assert Flatten(Texts(Flush(next).rows)) + "" == Text(line + [t]);
      forall k | 0 <= k < |Flush(next).rows| ensures Visible(Flush(next).rows[k]) == width {
        if k < |w.rows| {
          assert Flush(next).rows[k] == Flush(next).rows[..|w.rows|][k];
        }
      }
    }
  }

  lemma {:induction false} WalkFull(line: Line, k: nat, width: nat)
    requires k <= |line| && 0 < width
    ensures Full(Walk(line, k, width), line[..k], width)
  {
    if k > 0 {
      WalkFull(line, k - 1, width);
      PutFull(Walk(line, k - 1, width), line[..k - 1], line[k - 1], width);
      assert line[..k - 1] + [line[k - 1]] == line[..k];
    }
  }

  /** When a line is wrapped, the rows hold its text in order, all but the last exactly as wide as asked. */
  lemma WrapFills(line: Line, width: int)
    requires 0 < width < Visible(line)
    ensures var rows := Wrapped(line, width);
            && |rows| >= 2
            && (forall k :: 0 <= k < |rows| - 1 ==> Visible(rows[k]) == width)
            && Visible(rows[|rows| - 1]) <= width
            && Flatten(Texts(rows)) == Text(line)
  {
    WalkFull(line, |line|, width);
    assert line[..|line|] == line;
    var w := Walk(line, |line|, width);
    assert Full(w, line, width);
    hide Walk, Text, Texts;
    if w.row != [] {
      FlushText(w);
      var rows := Flush(w).rows;
      hide Flush;
      forall k | 0 <= k < |rows| - 1 ensures Visible(rows[k]) == width {
        assert rows[k] == rows[..|w.rows|][k];
      }
    } else {
      assert Text([]) == "" by { TextSnoc([], RESET); EmptyText(); }
      assert Flatten(Texts(w.rows)) + "" == Flatten(Texts(w.rows));
    }
  }

  lemma EmptyText()
    ensures Text([]) == ""
  {}

  /** In pieces of width w, byte x of piece k is byte k * w + x of the whole. */
  lemma {:induction false} PieceByte(ss: seq<string>, w: nat, k: nat, x: nat)
    requires k < |ss| && x < |ss[k]| && forall j :: 0 <= j < k ==> |ss[j]| == w
    ensures k * w + x < |Flatten(ss)| && Flatten(ss)[k * w + x] == ss[k][x]
    decreases k
  {
    if k > 0 {
      PieceByte(ss[1..], w, k - 1, x);
      assert k * w == w + (k - 1) * w;
    }
  }

  /** Byte x of row k of a wrapped line is byte k * width + x of its text. */
  lemma WrappedByte(line: Line, width: nat, k: nat, x: nat)
    requires 0 < width && k < |Wrapped(line, width)| && x < Visible(Wrapped(line, width)[k])
    ensures k * width + x < Visible(line) && Text(Wrapped(line, width)[k])[x] == Text(line)[k * width + x]
  {
    if Visible(line) <= width {
      assert k * width == 0;
    } else {
      WrapFills(line, width);
      var rows := Wrapped(line, width);
      hide Wrapped, Text, Flatten;
      PieceByte(Texts(rows), width, k, x);
    }
  }

  lemma {:induction false} ByteInPiece(ss: seq<string>, w: nat, c: nat) returns (k: nat, x: nat)
    requires c < |Flatten(ss)| && forall j :: 0 <= j < |ss| - 1 ==> |ss[j]| == w
    ensures k < |ss| && x < |ss[k]| && c == k * w + x
    decreases |ss|
  {
    if c < |ss[0]| {
      k, x := 0, c;
    } else {
      k, x := ByteInPiece(ss[1..], w, c - |ss[0]|);
      assert (k + 1) * w == w + k * w;
      k := k + 1;
    }
  }

  /** Every visible byte of the line is in some row. */
  lemma ByteShown(line: Line, width: nat, c: nat) returns (k: nat, x: nat)
    requires 0 < width && c < Visible(line)
    ensures k < |Wrapped(line, width)| && x < Visible(Wrapped(line, width)[k]) && c == k * width + x
  {
    if Visible(line) <= width {
      k, x := 0, c;
    } else {
      WrapFills(line, width);
      var rows := Wrapped(line, width);
      hide Wrapped, Text, Flatten;
      k, x := ByteInPiece(Texts(rows), width, c);
    }
  }

  // ----- The fast path -----

  predicate HasEscape(line: Line) {
    exists k :: 0 <= k < |line| && (line[k].Escape? || line[k].c == ESC_BYTE)
  }

  /** Pieces of the given width from i on, the last one possibly shorter. */
  function Chunks(line: Line, i: nat, width: nat): seq<Line>
    requires 0 < width
    decreases |line| - i
  {
    if i >= |line| then []
    else [line[i..if i + width > |line| then |line| else i + width]] + Chunks(line, i + width, width)
  }

  lemma {:induction false} NoEscapeText(line: Line)
    requires forall k :: 0 <= k < |line| ==> line[k].Vis?
    ensures Visible(line) == |line|
  {
    if line != [] {
      NoEscapeText(line[..|line| - 1]);
    }
  }

  /** Without escapes, the rows out are the chunks of what was read, and the row under way is the rest. */
  ghost predicate Chunked(w: Wrapping, line: Line, k: nat, width: nat)
    requires 0 < width
  {
    && w.active == []
    && w.visible == |w.row| < width
    && |w.row| <= k <= |line|
    && w.row == line[k - |w.row|..k]
    && w.rows + Chunks(line, k - |w.row|, width) == Chunks(line, 0, width)
  }

  lemma TakeChunk(line: Line, i: nat, width: nat, rows: seq<Line>)
    requires 0 < width && i + width <= |line|
    ensures rows + Chunks(line, i, width) == rows + [line[i..i + width]] + Chunks(line, i + width, width)
  {
    Regroup(rows, [line[i..i + width]], Chunks(line, i + width, width));
  }

  lemma PutChunked(w: Wrapping, line: Line, k: nat, width: nat)
    requires 0 < width && k < |line| && line[k].Vis? && Chunked(w, line, k, width)
    ensures Chunked(Put(w, line[k], width), line, k + 1, width)
  {
    hide Chunks;
    var i := k - |w.row|;
    assert w.row + [line[k]] == line[i..k + 1];
    if w.visible + 1 == width {
      TakeChunk(line, i, width, w.rows);
    }
  }

  lemma {:induction false} WalkChunked(line: Line, k: nat, width: nat)
    requires 0 < width && k <= |line| && forall j :: 0 <= j < |line| ==> line[j].Vis?
    ensures Chunked(Walk(line, k, width), line, k, width)
  {
    hide *;
    if k > 0 {
      WalkChunked(line, k - 1, width);
      PutChunked(Walk(line, k - 1, width), line, k - 1, width);
      WalkStep(line, k - 1, width);
    } else {
      StartChunked(line, width);
    }
  }

  lemma StartChunked(line: Line, width: nat)
    requires 0 < width
    ensures Chunked(Walk(line, 0, width), line, 0, width)
  {
    hide Chunks, Walk;
    WalkStart(line, width);
    var none: Line := line[0..0];
    assert none == [];
    assert [] + Chunks(line, 0, width) == Chunks(line, 0, width);
  }

  /** The fast path for lines without escapes does what the general loop does. */
  lemma FastIsGeneral(line: Line, width: nat)
    requires 0 < width < |line| && forall j :: 0 <= j < |line| ==> line[j].Vis?
    ensures Chunks(line, 0, width) == Wrapped(line, width)
  {
    NoEscapeText(line);
    WalkChunked(line, |line|, width);
    var w := Walk(line, |line|, width);
    hide Text, Walk;
    var i := |line| - |w.row|;
    if w.row == [] {
      assert Chunks(line, i, width) == [];
    } else {
      assert Chunks(line, i + width, width) == [];
      assert Chunks(line, i, width) == [line[i..|line|]];
    }
  }

  // ----- The code -----

  lemma WalkStart(line: Line, width: nat)
    ensures Walk(line, 0, width) == Wrapping([], [], [], 0)
  {}

  lemma WalkStep(line: Line, k: nat, width: nat)
    requires k < |line|
    ensures Walk(line, k + 1, width) == Put(Walk(line, k, width), line[k], width)
  {
    hide Put;
  }

  lemma PutCases(w: Wrapping, t: Token, width: nat)
    ensures t.Escape? ==> Put(w, t, width) == w.(row := w.row + [t],
              active := if IsSGRReset(t) then [] else if IsSGR(t) then w.active + [t] else w.active)
    ensures t.Vis? ==> var next := w.(row := w.row + [t], visible := w.visible + 1);
              Put(w, t, width) == if next.visible >= width then Flush(next) else next
    ensures IsSGRReset(t) ==> IsSGR(t)
  {
    hide Flush;
  }

  method FlushRow(rows: seq<Line>, row: Line, active: Line, visible: nat)
    returns (rows': seq<Line>, row': Line, visible': nat)
    ensures Wrapping(rows', row', active, visible') == Flush(Wrapping(rows, row, active, visible))
  {
    rows', row', visible' := rows, row, visible;
    if |row| == 0 {
      return;
    }
    var s := row;
    if |active| > 0 {
      s := s + [RESET];
    }
    rows' := rows + [s];
    row' := [];
    visible' := 0;
    if |active| > 0 {
      row' := row' + active;
    }
  }

  function Size(line: Line): nat {
    if line == [] then 0
    else Size(line[..|line| - 1]) + if line[|line| - 1].Vis? then 1 else 1 + |line[|line| - 1].tail|
  }

  lemma SizeSnoc(line: Line, k: nat)
    requires k < |line|
    ensures Size(line[..k + 1]) == Size(line[..k]) + if line[k].Vis? then 1 else 1 + |line[k].tail|
    ensures Visible(line[..k + 1]) == Visible(line[..k]) + if line[k].Vis? then 1 else 0
  {
    assert line[..k + 1][..k] == line[..k];
  }

  /** The bytes of the line less those of its escapes. */
  method VisibleColumns(line: Line) returns (cols: int)
    ensures cols == Visible(line)
  {
    cols := Size(line);
    for k := 0 to |line|
      invariant cols == Size(line) - Size(line[..k]) + Visible(line[..k])
    {
      SizeSnoc(line, k);
      match line[k]
      case Vis(_) =>
      case Escape(tail) => cols := cols - (1 + |tail|);
    }
    assert line[..|line|] == line;
  }

  lemma FitsUnlessWide(line: Line)
    requires !HasEscape(line)
    ensures Visible(line) == |line|
  {
    NoEscapeText(line);
  }

  lemma RowsOut(line: Line, width: nat)
    requires 0 < width < Visible(line)
    ensures |Flush(Walk(line, |line|, width)).rows| >= 2
  {
    WrapFills(line, width);
  }

  method WrapLine(line: Line, width: int) returns (rows: seq<Line>)
    ensures rows == Wrapped(line, width)
  {
    hide Walk, Put, Text, IsSGR, IsSGRReset;
    if width <= 0 {
      return [line];
    }
    if !HasEscape(line) {
      FitsUnlessWide(line);
      if |line| <= width {
        return [line];
      }
      rows := [];
      var i := 0;
      while i < |line|
        invariant 0 <= i && rows + Chunks(line, i, width) == Chunks(line, 0, width)
        decreases |line| - i
      {
        var end := i + width;
        if end > |line| {
          end := |line|;
        }
        Regroup(rows, [line[i..end]], Chunks(line, i + width, width));
        rows := rows + [line[i..end]];
        i := i + width;
      }
      FastIsGeneral(line, width);
      return;
    }
    var cols := VisibleColumns(line);
    if cols <= width {
      return [line];
    }
    rows := [];
    var row: Line, active: Line := [], [];
    var visible: nat := 0;
    var i := 0;
    WalkStart(line, width);
    while i < |line|
      invariant 0 <= i <= |line|
      invariant Wrapping(rows, row, active, visible) == Walk(line, i, width)
    {
      var t := line[i];
      WalkStep(line, i, width);
      PutCases(Walk(line, i, width), t, width);
      if t.Escape? {
        row := row + [t];
        if IsSGR(t) {
          if IsSGRReset(t) {
            active := [];
          } else {
            active := active + [t];
          }
        }
        i := i + 1;
        continue;
      }
      row := row + [t];
      visible := visible + 1;
      i := i + 1;
      if visible >= width {
        rows, row, visible := FlushRow(rows, row, active, visible);
      }
    }
    rows, row, visible := FlushRow(rows, row, active, visible);
    RowsOut(line, width);
    if |rows| == 0 {
      return [line];
    }
  }
}
