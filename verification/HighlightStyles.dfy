/** Highlighted text as a styled line: what a terminal shows of it, and what a click on it hits. */
module HighlightStyles {
  import opened Highlight
  import opened Seqs
  import R = RowMap
  import W = Wrap

  type Line = W.Line

  // ----- A text with its escape sequences as a line of tokens -----

  /** The index of the escape sequence that holds byte p, -1 for a visible byte. */
  function SeqAt(seqs: seq<Loc>, p: nat): (k: int)
    ensures -1 <= k < |seqs|
  {
    if seqs == [] then -1
    else if seqs[|seqs| - 1].start <= p < seqs[|seqs| - 1].end then |seqs| - 1
    else SeqAt(seqs[..|seqs| - 1], p)
  }

  /** The token that ends with byte p, if one does. */
  function TokenAt(s: string, seqs: seq<Loc>, p: nat): Line
    requires p < |s|
  {
    var k := SeqAt(seqs, p);
    if k < 0 then [W.Vis(s[p])]
    else if seqs[k].end == p + 1 then [W.Escape(Cut(s, seqs[k].start + 1, seqs[k].end))]
    else []
  }

  function TokensIn(s: string, seqs: seq<Loc>, lo: nat, hi: nat): Line
    decreases hi
  {
    if lo >= hi || hi > |s| then [] else TokensIn(s, seqs, lo, hi - 1) + TokenAt(s, seqs, hi - 1)
  }

  function LineOf(s: string, seqs: seq<Loc>): Line {
    TokensIn(s, seqs, 0, |s|)
  }

  lemma {:induction false} TokensSplit(s: string, seqs: seq<Loc>, lo: nat, mid: nat, hi: nat)
    requires lo <= mid <= hi <= |s|
    ensures TokensIn(s, seqs, lo, hi) == TokensIn(s, seqs, lo, mid) + TokensIn(s, seqs, mid, hi)
    decreases hi
  {
    TokensUnfold(s, seqs, lo, hi);
    TokensUnfold(s, seqs, mid, hi);
    hide *;
    if mid == hi {
      assert TokensIn(s, seqs, lo, mid) + [] == TokensIn(s, seqs, lo, mid);
    } else {
      TokensSplit(s, seqs, lo, mid, hi - 1);
      Regroup(TokensIn(s, seqs, lo, mid), TokensIn(s, seqs, mid, hi - 1), TokenAt(s, seqs, hi - 1));
    }
  }

  lemma {:induction false} TextAppend(a: Line, b: Line)
    ensures W.Text(a + b) == W.Text(a) + W.Text(b)
    decreases |b|
  {
    if b == [] {
      assert a + b == a;
    } else {
      var init, t := b[..|b| - 1], b[|b| - 1];
      TextAppend(a, init);
      assert a + b == a + init + [t];
      W.TextSnoc(a + init, t);
    }
  }

  lemma {:induction false} SeqAtIs(seqs: seq<Loc>, p: nat)
    ensures SeqAt(seqs, p) >= 0 <==> Inside(seqs, p)
  {
    if seqs != [] {
      var init, r := seqs[..|seqs| - 1], seqs[|seqs| - 1];
      SeqAtIs(init, p);
      InsideSnoc(init, r, p);
      assert seqs == init + [r];
    }
  }

  lemma TokenText(s: string, seqs: seq<Loc>, p: nat)
    requires p < |s|
    ensures W.Text(TokenAt(s, seqs, p)) == if Inside(seqs, p) then "" else [s[p]]
  {
    SeqAtIs(seqs, p);
    hide Inside, SeqAt;
    var t := TokenAt(s, seqs, p);
    if t != [] {
      assert t == [] + [t[0]];
      W.TextSnoc([], t[0]);
    }
  }

  lemma TokensUnfold(s: string, seqs: seq<Loc>, lo: nat, hi: nat)
    requires lo <= hi <= |s|
    ensures lo == hi ==> TokensIn(s, seqs, lo, hi) == []
    ensures lo < hi ==> TokensIn(s, seqs, lo, hi) == TokensIn(s, seqs, lo, hi - 1) + TokenAt(s, seqs, hi - 1)
  {
    hide TokenAt;
  }

  lemma {:induction false} HiddenText(s: string, seqs: seq<Loc>, lo: nat, hi: nat)
    requires lo <= hi <= |s| && forall p :: lo <= p < hi ==> Inside(seqs, p)
    ensures W.Text(TokensIn(s, seqs, lo, hi)) == ""
    decreases hi
  {
    hide *;
    TokensUnfold(s, seqs, lo, hi);
    if lo == hi {
      W.EmptyText();
    } else {
      HiddenText(s, seqs, lo, hi - 1);
      TokenText(s, seqs, hi - 1);
      TextAppend(TokensIn(s, seqs, lo, hi - 1), TokenAt(s, seqs, hi - 1));
    }
  }

  /** Of the sequences, those before k end by from, and the rest start there or later. */
  ghost predicate Behind(s: string, seqs: seq<Loc>, k: nat, from: nat) {
    && k <= |seqs| && from <= |s| && Escapes(seqs, 0, |s|) && Escapes(seqs[k..], from, |s|)
    && forall j :: 0 <= j < k ==> seqs[j].end <= from
  }

  lemma BehindStep(s: string, seqs: seq<Loc>, k: nat, from: nat)
    requires Behind(s, seqs, k, from) && from < |s|
    ensures k < |seqs| && seqs[k].start == from ==>
              && from < seqs[k].end <= |s| && Behind(s, seqs, k + 1, seqs[k].end)
              && forall p :: from <= p < seqs[k].end ==> Inside(seqs, p)
    ensures !(k < |seqs| && seqs[k].start == from) ==> Behind(s, seqs, k, from + 1) && !Inside(seqs, from)
  {
    assert k < |seqs| ==> seqs[k..][0] == seqs[k] && seqs[k..][1..] == seqs[k + 1..];
    PositionsUnfold(|s|, from, seqs[k..]);
    if !(k < |seqs| && seqs[k].start == from) {
      forall j | 0 <= j < |seqs| ensures !(seqs[j].start <= from < seqs[j].end) {
        if j >= k {
          assert seqs[j] == seqs[k..][j - k];
        }
      }
    }
  }

  /** The visible bytes of the line from there on are the stripped text. */
  lemma {:induction false} TextFrom(s: string, seqs: seq<Loc>, k: nat, from: nat)
    requires Behind(s, seqs, k, from)
    ensures Escapes(seqs[k..], from, |s|) && from <= |s|
    ensures W.Text(TokensIn(s, seqs, from, |s|)) == Strip(s, from, seqs[k..])
    decreases |s| - from
  {
    BehindFacts(s, seqs, k, from);
    if from == |s| {
      StripEnd(s, seqs[k..]);
      W.EmptyText();
    } else {
      BehindStep(s, seqs, k, from);
      hide *;
      if k < |seqs| && seqs[k].start == from {
        var end := seqs[k].end;
        TextFrom(s, seqs, k + 1, end);
        assert seqs[k..][0] == seqs[k] && seqs[k..][1..] == seqs[k + 1..];
        StripEscape(s, from, seqs[k..]);
        TokensSplit(s, seqs, from, end, |s|);
        TextAppend(TokensIn(s, seqs, from, end), TokensIn(s, seqs, end, |s|));
        HiddenText(s, seqs, from, end);
      } else {
        TextFrom(s, seqs, k, from + 1);
        BehindFacts(s, seqs, k, from + 1);
        StripByte(s, from, seqs[k..]);
        TokensSplit(s, seqs, from, from + 1, |s|);
        OneToken(s, seqs, from);
        TextAppend(TokensIn(s, seqs, from, from + 1), TokensIn(s, seqs, from + 1, |s|));
        TokenText(s, seqs, from);
      }
    }
  }

  lemma OneToken(s: string, seqs: seq<Loc>, p: nat)
    requires p < |s|
    ensures TokensIn(s, seqs, p, p + 1) == TokenAt(s, seqs, p)
  {
    hide TokenAt;
  }

  lemma BehindFacts(s: string, seqs: seq<Loc>, k: nat, from: nat)
    requires Behind(s, seqs, k, from)
    ensures k <= |seqs| && from <= |s| && Escapes(seqs, 0, |s|) && Escapes(seqs[k..], from, |s|)
  {}

  /** The line shows exactly the stripped text. */
  lemma LineText(s: string, seqs: seq<Loc>)
    requires Escapes(seqs, 0, |s|)
    ensures W.Text(LineOf(s, seqs)) == Strip(s, 0, seqs)
  {
    assert seqs[0..] == seqs;
    TextFrom(s, seqs, 0, 0);
  }

  // ----- The highlighted text as a line -----

  /** The escape sequences that start and end a highlight. */
  function MarkTokens(m: Mark): Line {
    match m
    case Raw(_) => []
    case On(current) => if current then [W.Escape("[48;5;220m"), W.Escape("[30m")] else [W.Escape("[7m")]
    case Off(current) => if current then [W.Escape("[39;49m")] else [W.Escape("[27m")]
  }

  function OnTokens(current: bool): Line {
    MarkTokens(On(current))
  }

  function OffTokens(current: bool): Line {
    MarkTokens(Off(current))
  }

  /** The tokens of a highlighted text over the text s. */
  function OutLine(out: seq<Mark>, s: string, seqs: seq<Loc>): Line {
    if out == [] then []
    else
      var init, m := out[..|out| - 1], out[|out| - 1];
      OutLine(init, s, seqs)
      + if m.Raw? then (if |Erase(init)| < |s| then TokenAt(s, seqs, |Erase(init)|) else []) else MarkTokens(m)
  }

  lemma OutSnoc(out: seq<Mark>, m: Mark, s: string, seqs: seq<Loc>)
    ensures OutLine(out + [m], s, seqs)
         == OutLine(out, s, seqs)
          + if m.Raw? then (if |Erase(out)| < |s| then TokenAt(s, seqs, |Erase(out)|) else []) else MarkTokens(m)
  {
    assert (out + [m])[..|out|] == out;
  }

  lemma RawsCut(out: seq<Mark>, s: string, lo: nat, hi: nat)
    requires lo <= hi <= |s|
    ensures lo == hi ==> out + Raws(Cut(s, lo, hi)) == out
    ensures lo < hi ==> out + Raws(Cut(s, lo, hi)) == out + Raws(Cut(s, lo, hi - 1)) + [Raw(s[hi - 1])]
    ensures |Erase(out + Raws(Cut(s, lo, hi)))| == |Erase(out)| + hi - lo
  {
    RawsSnoc(out, Cut(s, lo, hi));
    hide Erase;
    if lo < hi {
      assert Raws(Cut(s, lo, hi)) == Raws(Cut(s, lo, hi - 1)) + [Raw(s[hi - 1])];
      Regroup(out, Raws(Cut(s, lo, hi - 1)), [Raw(s[hi - 1])]);
    } else {
      assert out + Raws(Cut(s, lo, hi)) == out;
    }
  }

  /** Text that is taken over as it is keeps its tokens. */
  lemma {:induction false} OutRaws(out: seq<Mark>, s: string, seqs: seq<Loc>, lo: nat, hi: nat)
    requires lo <= hi <= |s| && |Erase(out)| == lo
    ensures OutLine(out + Raws(Cut(s, lo, hi)), s, seqs) == OutLine(out, s, seqs) + TokensIn(s, seqs, lo, hi)
    ensures |Erase(out + Raws(Cut(s, lo, hi)))| == hi
    decreases hi
  {
    hide *;
    TokensUnfold(s, seqs, lo, hi);
    RawsCut(out, s, lo, hi);
    var line := OutLine(out, s, seqs);
    if lo == hi {
      assert line + [] == line;
    } else {
      OutRaws(out, s, seqs, lo, hi - 1);
      OutRaw(out + Raws(Cut(s, lo, hi - 1)), s, seqs, hi - 1);
      Regroup(line, TokensIn(s, seqs, lo, hi - 1), TokenAt(s, seqs, hi - 1));
    }
  }

  lemma OutRaw(init: seq<Mark>, s: string, seqs: seq<Loc>, p: nat)
    requires |Erase(init)| == p < |s|
    ensures OutLine(init + [Raw(s[p])], s, seqs) == OutLine(init, s, seqs) + TokenAt(s, seqs, p)
  {
    hide Erase, OutLine, TokenAt;
    OutSnoc(init, Raw(s[p]), s, seqs);
  }

  /** Up to the end of the last range: gaps as they are, each range between the start and the end of a highlight. */
  function ShadedLine(s: string, seqs: seq<Loc>, ranges: seq<Loc>, current: bool): Line {
    if ranges == [] then []
    else
      var init, r := ranges[..|ranges| - 1], ranges[|ranges| - 1];
      ShadedLine(s, seqs, init, current) + TokensIn(s, seqs, EndAt(init), r.start)
      + OnTokens(current) + TokensIn(s, seqs, r.start, r.end) + OffTokens(current)
  }

  /** Ranges in order: the last one behind all others. */
  lemma RangesInit(ranges: seq<Loc>, n: nat)
    requires Matches(ranges, n) && ranges != []
    ensures var init, r := ranges[..|ranges| - 1], ranges[|ranges| - 1];
            Matches(init, n) && EndAt(init) <= r.start <= r.end <= n && EndAt(ranges) == r.end
  {}

  lemma {:induction false} MarkedLine(s: string, seqs: seq<Loc>, ranges: seq<Loc>, current: bool)
    requires Matches(ranges, |s|)
    ensures EndAt(ranges) <= |s|
    ensures var out := Marked(s, ranges, current);
            OutLine(out, s, seqs) == ShadedLine(s, seqs, ranges, current) && |Erase(out)| == EndAt(ranges)
  {
    if ranges != [] {
      var init, r := ranges[..|ranges| - 1], ranges[|ranges| - 1];
      RangesInit(ranges, |s|);
      MarkedLine(s, seqs, init, current);
      var a := Marked(s, init, current);
      assert Marked(s, ranges, current) == Shade(a, Cut(s, EndAt(init), r.start), Cut(s, r.start, r.end), current);
      assert ShadedLine(s, seqs, ranges, current)
          == ShadedLine(s, seqs, init, current) + TokensIn(s, seqs, EndAt(init), r.start)
           + OnTokens(current) + TokensIn(s, seqs, r.start, r.end) + OffTokens(current);
      hide *;
      ShadeLine(a, s, seqs, EndAt(init), r, current);
    }
  }

  lemma ShadeLine(a: seq<Mark>, s: string, seqs: seq<Loc>, lo: nat, r: Loc, current: bool)
    requires |Erase(a)| == lo <= r.start <= r.end <= |s|
    ensures var out := Shade(a, Cut(s, lo, r.start), Cut(s, r.start, r.end), current);
            && OutLine(out, s, seqs) == OutLine(a, s, seqs) + TokensIn(s, seqs, lo, r.start)
                                      + OnTokens(current) + TokensIn(s, seqs, r.start, r.end) + OffTokens(current)
            && |Erase(out)| == r.end
  {
    hide Erase, OutLine, Raws, Cut, TokensIn, MarkTokens;
    var b := a + Raws(Cut(s, lo, r.start));
    OutRaws(a, s, seqs, lo, r.start);
    OutSnoc(b, On(current), s, seqs);
    MarkSnoc(b, On(current));
    var c := b + [On(current)];
    OutRaws(c, s, seqs, r.start, r.end);
    var d := c + Raws(Cut(s, r.start, r.end));
    OutSnoc(d, Off(current), s, seqs);
    MarkSnoc(d, Off(current));
  }

  lemma HighlightedLine(s: string, seqs: seq<Loc>, ranges: seq<Loc>, current: bool)
    requires Matches(ranges, |s|)
    ensures EndAt(ranges) <= |s|
    ensures OutLine(Highlighted(s, ranges, current), s, seqs)
         == ShadedLine(s, seqs, ranges, current) + TokensIn(s, seqs, EndAt(ranges), |s|)
  {
    hide OutLine, Erase, Marked, ShadedLine, TokensIn, Cut, Raws;
    MarkedLine(s, seqs, ranges, current);
    OutRaws(Marked(s, ranges, current), s, seqs, EndAt(ranges), |s|);
  }

  // ----- The text of a highlighted line -----

  lemma MarkText(current: bool)
    ensures W.Text(OnTokens(current)) == "" && W.Text(OffTokens(current)) == ""
  {
    W.EmptyText();
    W.TextSnoc([], W.Escape("[7m"));
    W.TextSnoc([], W.Escape("[27m"));
    W.TextSnoc([], W.Escape("[39;49m"));
    W.TextSnoc([], W.Escape("[48;5;220m"));
    W.TextSnoc([W.Escape("[48;5;220m")], W.Escape("[30m"));
    assert [] + [W.Escape("[7m")] == [W.Escape("[7m")] && [] + [W.Escape("[27m")] == [W.Escape("[27m")];
    assert [] + [W.Escape("[39;49m")] == [W.Escape("[39;49m")];
    assert [] + [W.Escape("[48;5;220m")] == [W.Escape("[48;5;220m")];
    assert [W.Escape("[48;5;220m")] + [W.Escape("[30m")] == OnTokens(true);
  }

  lemma FiveTexts(a: Line, b: Line, c: Line, d: Line, e: Line)
    ensures W.Text(a + b + c + d + e) == W.Text(a) + W.Text(b) + W.Text(c) + W.Text(d) + W.Text(e)
  {
    TextAppend(a + b + c + d, e);
    TextAppend(a + b + c, d);
    TextAppend(a + b, c);
    TextAppend(a, b);
  }

  lemma {:induction false} ShadedText(s: string, seqs: seq<Loc>, ranges: seq<Loc>, current: bool)
    requires Matches(ranges, |s|)
    ensures EndAt(ranges) <= |s|
    ensures W.Text(ShadedLine(s, seqs, ranges, current)) == W.Text(TokensIn(s, seqs, 0, EndAt(ranges)))
  {
    if ranges == [] {
    } else {
      var init, r := ranges[..|ranges| - 1], ranges[|ranges| - 1];
      RangesInit(ranges, |s|);
      ShadedText(s, seqs, init, current);
      var lo := EndAt(init);
      var a, b, c := TokensIn(s, seqs, 0, lo), TokensIn(s, seqs, lo, r.start), TokensIn(s, seqs, r.start, r.end);
      FiveTexts(ShadedLine(s, seqs, init, current), b, OnTokens(current), c, OffTokens(current));
      MarkText(current);
      hide W.Text, TokensIn, MarkTokens, OnTokens, OffTokens, Matches;
      TokensSplit(s, seqs, 0, lo, r.end);
      TokensSplit(s, seqs, lo, r.start, r.end);
      TextAppend(a, TokensIn(s, seqs, lo, r.end));
      TextAppend(b, c);
      TextsEqual(W.Text(a), W.Text(b), W.Text(c));
    }
  }

  lemma TextsEqual(a: string, b: string, c: string)
    ensures a + b + "" + c + "" == a + (b + c)
  {}

  /** Highlighting changes no visible byte of a line. */
  lemma HighlightKeepsText(s: string, seqs: seq<Loc>, ranges: seq<Loc>, current: bool)
    requires Matches(ranges, |s|)
    ensures W.Text(OutLine(Highlighted(s, ranges, current), s, seqs)) == W.Text(LineOf(s, seqs))
  {
    hide OutLine, ShadedLine, Highlighted, W.Text, Matches, EndAt, TokensIn;
    HighlightedLine(s, seqs, ranges, current);
    ShadedText(s, seqs, ranges, current);
    var end := EndAt(ranges);
    TextAppend(ShadedLine(s, seqs, ranges, current), TokensIn(s, seqs, end, |s|));
    TokensSplit(s, seqs, 0, end, |s|);
    TextAppend(TokensIn(s, seqs, 0, end), TokensIn(s, seqs, end, |s|));
  }

  lemma RangeBounds(matches: seq<Loc>, offs: seq<nat>, k: nat)
    requires |offs| > 0 && Matches(matches, |offs| - 1) && Rising(offs) && k < |matches|
    ensures matches[k].start <= matches[k].end < |offs| && k < |Ranges(matches, |matches|, offs)|
    ensures var r := Ranges(matches, |matches|, offs)[k];
            r.start == offs[matches[k].start] && r.end == offs[matches[k].end] && r.start <= r.end <= offs[|offs| - 1]
  {
    MatchBounds(matches, k, |offs| - 1);
    RisingOrder(offs, matches[k].start, matches[k].end);
    RisingOrder(offs, matches[k].end, |offs| - 1);
    hide Matches, Rising;
  }

  lemma MatchOrder(matches: seq<Loc>, n: int, j: nat, k: nat)
    requires Matches(matches, n) && j < k < |matches|
    ensures matches[j].end <= matches[k].start
  {}

  lemma MakeMatches(ranges: seq<Loc>, n: int)
    requires forall k :: 0 <= k < |ranges| ==> ranges[k].start <= ranges[k].end <= n
    requires forall j, k :: 0 <= j < k < |ranges| ==> ranges[j].end <= ranges[k].start
    ensures Matches(ranges, n)
  {}

  /** The ranges that matches map to are in order, and none starts or ends inside an escape sequence. */
  lemma RangesInOrder(s: string, seqs: seq<Loc>, matches: seq<Loc>)
    requires Escapes(seqs, 0, |s|) && Matches(matches, |Strip(s, 0, seqs)|)
    ensures |Offsets(s, seqs)| == |Strip(s, 0, seqs)| + 1
    ensures var ranges := Ranges(matches, |matches|, Offsets(s, seqs));
            && Matches(ranges, |s|)
            && forall k :: 0 <= k < |ranges| ==> Clear(seqs, ranges[k].start) && Clear(seqs, ranges[k].end)
  {
    hide *;
    OffsetsAreMap(s, seqs);
    var offs := Offsets(s, seqs);
    var ranges := Ranges(matches, |matches|, offs);
    RangesCount(matches, offs);
    forall k | 0 <= k < |ranges|
      ensures ranges[k].start <= ranges[k].end <= |s|
      ensures Clear(seqs, ranges[k].start) && Clear(seqs, ranges[k].end)
    {
      RangeBounds(matches, offs, k);
      OffsetIsClear(s, seqs, matches[k].start);
      OffsetIsClear(s, seqs, matches[k].end);
    }
    forall j, k | 0 <= j < k < |ranges| ensures ranges[j].end <= ranges[k].start {
      RangeBounds(matches, offs, j);
      RangeBounds(matches, offs, k);
      MatchOrder(matches, |offs| - 1, j, k);
      RisingOrder(offs, matches[j].end, matches[k].start);
    }
    MakeMatches(ranges, |s|);
  }

  lemma RangesCount(matches: seq<Loc>, offs: seq<nat>)
    requires Matches(matches, |offs| - 1)
    ensures |Ranges(matches, |matches|, offs)| == |matches|
  {}

  /** Not inside an escape sequence: in front of one, behind one, or at a visible byte. */
  predicate Clear(seqs: seq<Loc>, p: nat) {
    forall j :: 0 <= j < |seqs| ==> !(seqs[j].start < p < seqs[j].end)
  }

  lemma OffsetIsClear(s: string, seqs: seq<Loc>, v: nat)
    requires Escapes(seqs, 0, |s|) && v < |Offsets(s, seqs)|
    ensures Clear(seqs, Offsets(s, seqs)[v])
  {
    var p := Offsets(s, seqs)[v];
    PositionsRise(|s|, 0, seqs);
    if p < |s| {
      assert p in Positions(|s|, 0, seqs);
      PositionsAreVisible(|s|, 0, seqs, p);
    }
    hide Positions;
  }

  /** So the line HighlightLine makes shows exactly the stripped text. */
  lemma HighlightLineText(s: string, seqs: seq<Loc>, hasRx: bool, matches: seq<Loc>, current: bool, out: seq<Mark>)
    requires Escapes(seqs, 0, |s|) && Matches(matches, |Strip(s, 0, seqs)|)
    requires |Offsets(s, seqs)| == |Strip(s, 0, seqs)| + 1
    requires out == if hasRx && s != "" then Highlighted(s, Ranges(matches, |matches|, Offsets(s, seqs)), current) else Raws(s)
    ensures W.Text(OutLine(out, s, seqs)) == Strip(s, 0, seqs)
  {
    LineText(s, seqs);
    NoneHighlighted(s, current);
    assert Matches([], |s|);
    RangesInOrder(s, seqs, matches);
    hide *;
    if hasRx && s != "" {
      HighlightKeepsText(s, seqs, Ranges(matches, |matches|, Offsets(s, seqs)), current);
    } else {
      HighlightKeepsText(s, seqs, [], current);
    }
  }

  // ----- A click on a highlighted line -----

  /** A log line: its bytes and where its escape sequences lie. */
  datatype LogLine = LogLine(text: string, seqs: seq<Loc>) {
    ghost predicate Valid() {
      Escapes(seqs, 0, |text|)
    }

    function Tokens(): Line {
      LineOf(text, seqs)
    }

    /** The line with the given ranges of its text highlighted. */
    function Painted(ranges: seq<Loc>, current: bool): Line {
      OutLine(Highlighted(text, ranges, current), text, seqs)
    }
  }

  /** All lines as painted, the ranges of line i highlighted, those of the current line in its own way. */
  function PaintedLines(lines: seq<LogLine>, hits: seq<seq<Loc>>, currentLine: int): (out: seq<Line>)
    requires |lines| == |hits|
    ensures |out| == |lines|
  {
    seq(|lines|, i requires 0 <= i < |lines| => lines[i].Painted(hits[i], i == currentLine))
  }

  function RawLines(lines: seq<LogLine>): (raw: seq<Line>)
    ensures |raw| == |lines|
  {
    seq(|lines|, i requires 0 <= i < |lines| => lines[i].Tokens())
  }

  lemma PaintedKeepsText(lines: seq<LogLine>, hits: seq<seq<Loc>>, currentLine: int)
    requires |lines| == |hits| && forall i :: 0 <= i < |lines| ==> Matches(hits[i], |lines[i].text|)
    ensures forall i :: 0 <= i < |lines| ==>
              W.Text(RawLines(lines)[i]) == W.Text(PaintedLines(lines, hits, currentLine)[i])
  {
    hide W.Text, OutLine, LineOf, Highlighted, Matches;
    forall i | 0 <= i < |lines|
      ensures W.Text(RawLines(lines)[i]) == W.Text(PaintedLines(lines, hits, currentLine)[i])
    {
      HighlightKeepsText(lines[i].text, lines[i].seqs, hits[i], i == currentLine);
    }
  }

  /** Through any highlights and wrapping, visible byte x of a row is the byte of the raw line that the click names. */
  lemma ClickThroughHighlights(lines: seq<LogLine>, hits: seq<seq<Loc>>, currentLine: int, wrapOn: bool, width: nat, k: nat, x: nat)
    requires |lines| == |hits| && 0 < width
    requires forall i :: 0 <= i < |lines| ==> Matches(hits[i], |lines[i].text|)
    requires k < |R.Expand(PaintedLines(lines, hits, currentLine), |lines|, wrapOn, width)|
    requires x < W.Visible(R.Expand(PaintedLines(lines, hits, currentLine), |lines|, wrapOn, width)[k].line)
    ensures R.Expand(PaintedLines(lines, hits, currentLine), |lines|, wrapOn, width)[k].origIdx < |lines|
    ensures var rows := R.Expand(PaintedLines(lines, hits, currentLine), |lines|, wrapOn, width);
            var text := W.Text(lines[rows[k].origIdx].Tokens());
            var col := R.ColumnAt(R.RawOf(rows), k, wrapOn, width, x);
            0 <= col < |text| && R.Clamp(col, |text|) == col && text[col] == W.Text(rows[k].line)[x]
  {
    var raw, out := RawLines(lines), PaintedLines(lines, hits, currentLine);
    PaintedKeepsText(lines, hits, currentLine);
    hide W.Text, R.Expand, R.RunBefore, R.RawOf, R.ColumnAt, LineOf, OutLine, Highlighted, Matches;
    R.ClickHitsByte(raw, out, wrapOn, width, k, x);
  }

  // ----- The styles of a highlighted line -----

  lemma {:induction false} StyleAppend<S>(term: W.Terminal<S>, a: Line, b: Line, st: S)
    ensures W.StyleAfter(term, a + b, st) == W.StyleAfter(term, b, W.StyleAfter(term, a, st))
    decreases |b|
  {
    if b == [] {
      assert a + b == a;
    } else {
      var init, t := b[..|b| - 1], b[|b| - 1];
      StyleAppend(term, a, init, st);
      assert a + b == a + init + [t];
      W.StyleSnoc(term, a + init, t, st);
    }
  }

  /** In style st the highlight of hit leaves no trace behind it. */
  predicate Transparent<S(==)>(term: W.Terminal<S>, st: S, hit: Line, current: bool) {
    W.StyleAfter(term, OnTokens(current) + hit + OffTokens(current), st) == W.StyleAfter(term, hit, st)
  }

  /** The style in front of byte p of the text. */
  function StyleAt<S>(term: W.Terminal<S>, s: string, seqs: seq<Loc>, p: nat): S {
    W.StyleAfter(term, TokensIn(s, seqs, 0, p), term.clean)
  }

  /** Every match leaves no trace, in the style the line itself has in front of it. */
  ghost predicate AllTransparent<S>(term: W.Terminal<S>, s: string, seqs: seq<Loc>, ranges: seq<Loc>, current: bool) {
    forall k :: 0 <= k < |ranges| ==>
      Transparent(term, StyleAt(term, s, seqs, ranges[k].start), TokensIn(s, seqs, ranges[k].start, ranges[k].end), current)
  }

  /** What the highlighted line has in front of byte p, behind the first k ranges. */
  function Front(s: string, seqs: seq<Loc>, ranges: seq<Loc>, k: nat, p: nat, current: bool): Line
    requires k <= |ranges|
  {
    ShadedLine(s, seqs, ranges[..k], current) + TokensIn(s, seqs, EndAt(ranges[..k]), p)
  }

  /** Byte p, or the end of the text, lies behind the first k ranges and outside the next. */
  predicate InGap(ranges: seq<Loc>, k: nat, n: nat, p: nat) {
    k <= |ranges| && EndAt(ranges[..k]) <= p <= if k < |ranges| then ranges[k].start else n
  }

  /** Everything outside the matches is shown in the style it has without highlights. */
  ghost predicate SameOutside<S>(term: W.Terminal<S>, s: string, seqs: seq<Loc>, ranges: seq<Loc>, current: bool) {
    forall k: nat, p: nat :: k <= |ranges| && InGap(ranges, k, |s|, p) ==>
      W.StyleAfter(term, Front(s, seqs, ranges, k, p, current), term.clean) == StyleAt(term, s, seqs, p)
  }

  /** The front really is what the whole highlighted line starts with. */
  lemma {:induction false} FrontIsPrefix(s: string, seqs: seq<Loc>, ranges: seq<Loc>, k: nat, p: nat, current: bool)
    requires Matches(ranges, |s|) && InGap(ranges, k, |s|, p)
    ensures Front(s, seqs, ranges, k, p, current) <= OutLine(Highlighted(s, ranges, current), s, seqs)
    decreases |ranges| - k
  {
    hide *;
    GapStop(ranges, |s|, k, p);
    GapBounds(ranges, |s|, k);
    var stop := if k < |ranges| then ranges[k].start else |s|;
    FrontGrows(s, seqs, ranges, k, p, stop, current);
    if k == |ranges| {
      FrontWhole(s, seqs, ranges, current);
    } else {
      GapStart(ranges, |s|, k + 1);
      GapBounds(ranges, |s|, k + 1);
      FrontIsPrefix(s, seqs, ranges, k + 1, ranges[k].end, current);
      FrontNext(s, seqs, ranges, k, current);
    }
  }

  lemma GapStop(ranges: seq<Loc>, n: nat, k: nat, p: nat)
    requires InGap(ranges, k, n, p)
    ensures k <= |ranges| && EndAt(ranges[..k]) <= p <= if k < |ranges| then ranges[k].start else n
  {}

  /** Where the first k ranges end, the gap starts. */
  lemma GapStart(ranges: seq<Loc>, n: nat, k: nat)
    requires Matches(ranges, n) && 0 < k <= |ranges|
    ensures InGap(ranges, k, n, ranges[k - 1].end)
  {
    GapBounds(ranges, n, k - 1);
    GapBounds(ranges, n, k);
    hide Matches;
  }

  lemma FrontGrows(s: string, seqs: seq<Loc>, ranges: seq<Loc>, k: nat, p: nat, stop: nat, current: bool)
    requires k <= |ranges| && EndAt(ranges[..k]) <= p <= stop <= |s|
    ensures Front(s, seqs, ranges, k, p, current) <= Front(s, seqs, ranges, k, stop, current)
  {
    var end := EndAt(ranges[..k]);
    TokensSplit(s, seqs, end, p, stop);
    hide TokensIn, ShadedLine, EndAt;
    Regroup(ShadedLine(s, seqs, ranges[..k], current), TokensIn(s, seqs, end, p), TokensIn(s, seqs, p, stop));
  }

  lemma FrontWhole(s: string, seqs: seq<Loc>, ranges: seq<Loc>, current: bool)
    requires Matches(ranges, |s|)
    ensures Front(s, seqs, ranges, |ranges|, |s|, current) == OutLine(Highlighted(s, ranges, current), s, seqs)
  {
    assert ranges[..|ranges|] == ranges;
    HighlightedLine(s, seqs, ranges, current);
    hide TokensIn, ShadedLine, OutLine, Highlighted, Matches;
  }

  lemma FrontNext(s: string, seqs: seq<Loc>, ranges: seq<Loc>, k: nat, current: bool)
    requires Matches(ranges, |s|) && k < |ranges|
    ensures Front(s, seqs, ranges, k, ranges[k].start, current) <= Front(s, seqs, ranges, k + 1, ranges[k].end, current)
  {
    ShadedMore(s, seqs, ranges, k, current);
    GapBounds(ranges, |s|, k);
    hide TokensIn, ShadedLine, Matches, OnTokens, OffTokens, EndAt;
  }

  /** The style right behind the first k ranges is that of the line itself. */
  predicate SameBehind<S(==)>(term: W.Terminal<S>, s: string, seqs: seq<Loc>, ranges: seq<Loc>, k: nat, current: bool)
    requires k <= |ranges|
  {
    W.StyleAfter(term, ShadedLine(s, seqs, ranges[..k], current), term.clean) == StyleAt(term, s, seqs, EndAt(ranges[..k]))
  }

  lemma GapBounds(ranges: seq<Loc>, n: nat, k: nat)
    requires Matches(ranges, n) && k <= |ranges|
    ensures EndAt(ranges[..k]) <= n
    ensures k < |ranges| ==> EndAt(ranges[..k]) <= ranges[k].start <= ranges[k].end <= n
    ensures k < |ranges| ==> ranges[..k + 1][..k] == ranges[..k] && EndAt(ranges[..k + 1]) == ranges[k].end
  {}

  /** In a gap the styles agree as they do at its start. */
  lemma GapStyle<S>(term: W.Terminal<S>, s: string, seqs: seq<Loc>, ranges: seq<Loc>, k: nat, p: nat, current: bool)
    requires k <= |ranges| && EndAt(ranges[..k]) <= p <= |s| && SameBehind(term, s, seqs, ranges, k, current)
    ensures W.StyleAfter(term, Front(s, seqs, ranges, k, p, current), term.clean) == StyleAt(term, s, seqs, p)
  {
    var end := EndAt(ranges[..k]);
    TokensSplit(s, seqs, 0, end, p);
    hide W.StyleAfter, TokensIn, ShadedLine, EndAt;
    StyleAppend(term, ShadedLine(s, seqs, ranges[..k], current), TokensIn(s, seqs, end, p), term.clean);
    StyleAppend(term, TokensIn(s, seqs, 0, end), TokensIn(s, seqs, end, p), term.clean);
  }

  /** Behind one more match they agree exactly if the match leaves no trace. */
  lemma MatchStyle<S>(term: W.Terminal<S>, s: string, seqs: seq<Loc>, ranges: seq<Loc>, k: nat, current: bool)
    requires Matches(ranges, |s|) && k < |ranges| && SameBehind(term, s, seqs, ranges, k, current)
    ensures SameBehind(term, s, seqs, ranges, k + 1, current) <==>
              Transparent(term, StyleAt(term, s, seqs, ranges[k].start), TokensIn(s, seqs, ranges[k].start, ranges[k].end), current)
  {
    var r := ranges[k];
    GapBounds(ranges, |s|, k);
    ShadedMore(s, seqs, ranges, k, current);
    GapStyle(term, s, seqs, ranges, k, r.start, current);
    TokensSplit(s, seqs, 0, r.start, r.end);
    var front, hit := Front(s, seqs, ranges, k, r.start, current), TokensIn(s, seqs, r.start, r.end);
    hide W.StyleAfter, TokensIn, ShadedLine, EndAt, Front, OnTokens, OffTokens, Matches;
    StyleAppend(term, front, OnTokens(current) + hit + OffTokens(current), term.clean);
    StyleAppend(term, TokensIn(s, seqs, 0, r.start), hit, term.clean);
  }

  lemma ShadedMore(s: string, seqs: seq<Loc>, ranges: seq<Loc>, k: nat, current: bool)
    requires k < |ranges|
    ensures ShadedLine(s, seqs, ranges[..k + 1], current)
         == Front(s, seqs, ranges, k, ranges[k].start, current)
          + (OnTokens(current) + TokensIn(s, seqs, ranges[k].start, ranges[k].end) + OffTokens(current))
  {
    assert ranges[..k + 1][..k] == ranges[..k];
    hide TokensIn, OnTokens, OffTokens, EndAt;
    var front, hit := Front(s, seqs, ranges, k, ranges[k].start, current), TokensIn(s, seqs, ranges[k].start, ranges[k].end);
    assert ShadedLine(s, seqs, ranges[..k + 1], current) == front + OnTokens(current) + hit + OffTokens(current);
    Regroup(front, OnTokens(current) + hit, OffTokens(current));
    Regroup(front, OnTokens(current), hit);
  }

  lemma {:induction false} BehindAll<S>(term: W.Terminal<S>, s: string, seqs: seq<Loc>, ranges: seq<Loc>, k: nat, current: bool)
    requires Matches(ranges, |s|) && k <= |ranges| && AllTransparent(term, s, seqs, ranges, current)
    ensures SameBehind(term, s, seqs, ranges, k, current)
    decreases k
  {
    hide *;
    if k > 0 {
      TransparentAt(term, s, seqs, ranges, k - 1, current);
      BehindAll(term, s, seqs, ranges, k - 1, current);
      MatchStyle(term, s, seqs, ranges, k - 1, current);
    } else {
      BehindNone(term, s, seqs, ranges, current);
    }
  }

  lemma TransparentAt<S>(term: W.Terminal<S>, s: string, seqs: seq<Loc>, ranges: seq<Loc>, k: nat, current: bool)
    requires k < |ranges| && AllTransparent(term, s, seqs, ranges, current)
    ensures Transparent(term, StyleAt(term, s, seqs, ranges[k].start), TokensIn(s, seqs, ranges[k].start, ranges[k].end), current)
  {
    hide Transparent, StyleAt, TokensIn;
  }

  lemma BehindNone<S>(term: W.Terminal<S>, s: string, seqs: seq<Loc>, ranges: seq<Loc>, current: bool)
    ensures SameBehind(term, s, seqs, ranges, 0, current)
  {
    TokensUnfold(s, seqs, 0, 0);
    assert ranges[..0] == [];
  }

  /**
   * The exact condition: all that lies outside the matches keeps its style, for a given terminal, if and
   * only if every match leaves no trace in the style the line has in front of it.
   */
  lemma OutsideStyles<S>(term: W.Terminal<S>, s: string, seqs: seq<Loc>, ranges: seq<Loc>, current: bool)
    requires Matches(ranges, |s|)
    ensures SameOutside(term, s, seqs, ranges, current) <==> AllTransparent(term, s, seqs, ranges, current)
  {
    hide Transparent, TokensIn, StyleAt, ShadedLine, W.StyleAfter, Matches;
    if AllTransparent(term, s, seqs, ranges, current) {
      forall k: nat, p: nat | k <= |ranges| && InGap(ranges, k, |s|, p)
        ensures W.StyleAfter(term, Front(s, seqs, ranges, k, p, current), term.clean) == StyleAt(term, s, seqs, p)
      {
        GapBounds(ranges, |s|, k);
        BehindAll(term, s, seqs, ranges, k, current);
        GapStyle(term, s, seqs, ranges, k, p, current);
      }
    }
    if SameOutside(term, s, seqs, ranges, current) {
      forall k | 0 <= k < |ranges|
        ensures Transparent(term, StyleAt(term, s, seqs, ranges[k].start), TokensIn(s, seqs, ranges[k].start, ranges[k].end), current)
      {
        OutsideBehind(term, s, seqs, ranges, k, current);
        OutsideBehind(term, s, seqs, ranges, k + 1, current);
        MatchStyle(term, s, seqs, ranges, k, current);
      }
    }
  }

  lemma OutsideBehind<S>(term: W.Terminal<S>, s: string, seqs: seq<Loc>, ranges: seq<Loc>, k: nat, current: bool)
    requires Matches(ranges, |s|) && k <= |ranges| && SameOutside(term, s, seqs, ranges, current)
    ensures SameBehind(term, s, seqs, ranges, k, current)
  {
    hide TokensIn, StyleAt, ShadedLine, W.StyleAfter;
    GapBounds(ranges, |s|, k);
    var end := EndAt(ranges[..k]);
    assert InGap(ranges, k, |s|, end);
    assert TokensIn(s, seqs, end, end) == [] by { TokensUnfold(s, seqs, end, end); }
    assert Front(s, seqs, ranges, k, end, current) == ShadedLine(s, seqs, ranges[..k], current);
  }

  /** On a terminal where the end of a highlight undoes its start, plain text keeps its style everywhere. */
  lemma PlainTextIsTransparent<S>(term: W.Terminal<S>, s: string, ranges: seq<Loc>, current: bool)
    requires Matches(ranges, |s|)
    requires W.StyleAfter(term, OnTokens(current) + OffTokens(current), term.clean) == term.clean
    ensures SameOutside(term, s, [], ranges, current)
  {
    hide SameOutside, W.StyleAfter, TokensIn, OnTokens, OffTokens;
    forall k | 0 <= k < |ranges|
      ensures Transparent(term, StyleAt(term, s, [], ranges[k].start), TokensIn(s, [], ranges[k].start, ranges[k].end), current)
    {
      GapBounds(ranges, |s|, k);
      var r := ranges[k];
      var hit := TokensIn(s, [], r.start, r.end);
      PlainStyle(term, s, 0, r.start, term.clean);
      PlainStyle(term, s, r.start, r.end, term.clean);
      StyleAppend(term, OnTokens(current), OffTokens(current), term.clean);
      StyleAppend(term, OnTokens(current) + hit, OffTokens(current), term.clean);
      StyleAppend(term, OnTokens(current), hit, term.clean);
      PlainStyle(term, s, r.start, r.end, W.StyleAfter(term, OnTokens(current), term.clean));
    }
    OutsideStyles(term, s, [], ranges, current);
  }

  lemma {:induction false} PlainStyle<S>(term: W.Terminal<S>, s: string, lo: nat, hi: nat, st: S)
    requires lo <= hi <= |s|
    ensures W.StyleAfter(term, TokensIn(s, [], lo, hi), st) == st
    decreases hi
  {
    TokensUnfold(s, [], lo, hi);
    if lo < hi {
      PlainStyle(term, s, lo, hi - 1, st);
      W.StyleSnoc(term, TokensIn(s, [], lo, hi - 1), W.Vis(s[hi - 1]), st);
    }
  }
}
