/** Match highlighting over styled text (internal/tui/panes/logpanel.go). A char stands for one byte. */
module Highlight {
  import opened Seqs

  /** A half-open range of byte positions. */
  datatype Loc = Loc(start: nat, end: nat)

  /** The escape sequences of a text from position from on: apart, in order and not empty. */
  ghost predicate Escapes(seqs: seq<Loc>, from: nat, n: nat) {
    && (forall k :: 0 <= k < |seqs| ==> from <= seqs[k].start < seqs[k].end <= n)
    && (forall j, k :: 0 <= j < k < |seqs| ==> seqs[j].end <= seqs[k].start)
  }

  /** The matches in a text: in order and without overlap, possibly empty. */
  ghost predicate Matches(matches: seq<Loc>, n: int) {
    && (forall k :: 0 <= k < |matches| ==> matches[k].start <= matches[k].end <= n)
    && (forall j, k :: 0 <= j < k < |matches| ==> matches[j].end <= matches[k].start)
  }

  predicate Inside(locs: seq<Loc>, p: int) {
    exists k :: 0 <= k < |locs| && locs[k].start <= p < locs[k].end
  }

  /** The text from there on with its escape sequences cut out. */
  function Strip(s: string, from: nat, seqs: seq<Loc>): string
    requires from <= |s| && Escapes(seqs, from, |s|)
    decreases |seqs|
  {
    if seqs == [] then s[from..]
    else s[from..seqs[0].start] + Strip(s, seqs[0].end, seqs[1..])
  }

  // ----- The map from stripped to rendered positions -----

  /** The positions from there on that are in no escape sequence. */
  function Positions(n: nat, from: nat, seqs: seq<Loc>): (ps: seq<nat>)
    requires from <= n && Escapes(seqs, from, n)
    ensures |ps| <= n - from
    decreases n - from
  {
    if from == n then []
    else if seqs != [] && seqs[0].start == from then Positions(n, seqs[0].end, seqs[1..])
    else [from] + Positions(n, from + 1, seqs)
  }

  /** One step of the walk: a sequence is jumped, any other byte is visible. */
  lemma PositionsUnfold(n: nat, from: nat, seqs: seq<Loc>)
    requires from < n && Escapes(seqs, from, n)
    ensures seqs != [] && seqs[0].start == from ==>
              && from < seqs[0].end <= n && Escapes(seqs[1..], seqs[0].end, n)
              && Positions(n, from, seqs) == Positions(n, seqs[0].end, seqs[1..])
    ensures !(seqs != [] && seqs[0].start == from) ==>
              Escapes(seqs, from + 1, n) && Positions(n, from, seqs) == [from] + Positions(n, from + 1, seqs)
  {}

  lemma PositionsEnd(n: nat, seqs: seq<Loc>)
    requires Escapes(seqs, n, n)
    ensures Positions(n, n, seqs) == []
  {}

  lemma {:induction false} PositionsRise(n: nat, from: nat, seqs: seq<Loc>)
    requires from <= n && Escapes(seqs, from, n)
    ensures var ps := Positions(n, from, seqs);
            && (forall v :: 0 <= v < |ps| ==> from <= ps[v] < n)
            && (forall v, w :: 0 <= v < w < |ps| ==> ps[v] < ps[w])
    decreases n - from
  {
    hide *;
    if from == n {
      PositionsEnd(n, seqs);
    } else {
      PositionsUnfold(n, from, seqs);
      if seqs != [] && seqs[0].start == from {
        PositionsRise(n, seqs[0].end, seqs[1..]);
      } else {
        PositionsRise(n, from + 1, seqs);
      }
    }
  }

  lemma InsideHead(seqs: seq<Loc>, n: nat, p: nat)
    requires seqs != [] && Escapes(seqs, seqs[0].start, n) && seqs[0].start <= p
    ensures p < seqs[0].end ==> Inside(seqs, p)
    ensures seqs[0].end <= p ==> Inside(seqs[1..], p) == Inside(seqs, p)
  {
    if seqs[0].end <= p {
      assert forall k :: 0 < k < |seqs| ==> seqs[k] == seqs[1..][k - 1];
      assert forall k :: 0 <= k < |seqs[1..]| ==> seqs[1..][k] == seqs[k + 1];
    }
  }

  lemma NotInside(seqs: seq<Loc>, from: nat, n: nat, p: nat)
    requires Escapes(seqs, from, n) && p < from
    ensures !Inside(seqs, p)
  {}

  /** They are all the visible positions, and no other. */
  lemma {:induction false} PositionsAreVisible(n: nat, from: nat, seqs: seq<Loc>, p: nat)
    requires from <= n && Escapes(seqs, from, n) && from <= p < n
    ensures p in Positions(n, from, seqs) <==> !Inside(seqs, p)
    decreases n - from
  {
    hide *;
    PositionsUnfold(n, from, seqs);
    if seqs != [] && seqs[0].start == from {
      var end := seqs[0].end;
      InsideHead(seqs, n, p);
      if p < end {
        PositionsRise(n, end, seqs[1..]);
      } else {
        PositionsAreVisible(n, end, seqs[1..], p);
      }
    } else if p == from {
      NotInside(seqs, from + 1, n, p);
    } else {
      PositionsAreVisible(n, from + 1, seqs, p);
    }
  }

  /** Byte v of the stripped text is the byte at the v-th visible position. */
  lemma {:induction false} PositionsHoldText(s: string, from: nat, seqs: seq<Loc>)
    requires from <= |s| && Escapes(seqs, from, |s|)
    ensures var ps, text := Positions(|s|, from, seqs), Strip(s, from, seqs);
            && |ps| == |text|
            && forall v :: 0 <= v < |ps| ==> ps[v] < |s| && s[ps[v]] == text[v]
    decreases |s| - from
  {
    hide *;
    if from == |s| {
      PositionsEnd(from, seqs);
      StripEnd(s, seqs);
    } else {
      PositionsUnfold(|s|, from, seqs);
      if seqs != [] && seqs[0].start == from {
        PositionsHoldText(s, seqs[0].end, seqs[1..]);
        StripEscape(s, from, seqs);
      } else {
        PositionsHoldText(s, from + 1, seqs);
        StripByte(s, from, seqs);
      }
    }
  }

  lemma StripEnd(s: string, seqs: seq<Loc>)
    requires Escapes(seqs, |s|, |s|)
    ensures Strip(s, |s|, seqs) == ""
  {}

  lemma StripEscape(s: string, from: nat, seqs: seq<Loc>)
    requires from <= |s| && Escapes(seqs, from, |s|) && seqs != [] && seqs[0].start == from
    ensures Escapes(seqs[1..], seqs[0].end, |s|) && Strip(s, from, seqs) == Strip(s, seqs[0].end, seqs[1..])
  {
    assert s[from..from] == "";
  }

  lemma StripByte(s: string, from: nat, seqs: seq<Loc>)
    requires from < |s| && Escapes(seqs, from + 1, |s|) && Escapes(seqs, from, |s|)
    ensures Strip(s, from, seqs) == [s[from]] + Strip(s, from + 1, seqs)
  {
    if seqs == [] {
      assert s[from..] == [s[from]] + s[from + 1..];
    } else {
      assert Escapes(seqs[1..], seqs[0].end, |s|);
      var rest := Strip(s, seqs[0].end, seqs[1..]);
      Regroup([s[from]], s[from + 1..seqs[0].start], rest);
      hide Escapes;
      assert s[from..seqs[0].start] == [s[from]] + s[from + 1..seqs[0].start];
    }
  }

  /** One walk over the text: the visible positions go to the array, and the array is never outrun. */
  method Walk(rendered: string, seqs: seq<Loc>, out: array<int>) returns (si: nat)
    requires Escapes(seqs, 0, |rendered|) && out.Length == |Strip(rendered, 0, seqs)| + 1
    modifies out
    ensures si == out.Length - 1
    ensures out[..] == Positions(|rendered|, 0, seqs) + [|rendered|]
  {
    hide *;
    ghost var all := Positions(|rendered|, 0, seqs);
    PositionsHoldText(rendered, 0, seqs);
    si := 0;
    var ri, seqIdx := 0, 0;
    assert seqs[0..] == seqs && all[..0] + all == all;
    while ri < |rendered|
      invariant 0 <= ri <= |rendered| && 0 <= seqIdx <= |seqs| && 0 <= si <= |all|
      invariant Escapes(seqs[seqIdx..], ri, |rendered|)
      invariant all[..si] + Positions(|rendered|, ri, seqs[seqIdx..]) == all
      invariant out[..si] == all[..si]
      decreases |rendered| - ri
    {
      PositionsUnfold(|rendered|, ri, seqs[seqIdx..]);
      if seqIdx < |seqs| && seqs[seqIdx].start == ri {
        assert seqs[seqIdx..][1..] == seqs[seqIdx + 1..];
        ri := seqs[seqIdx].end;
        seqIdx := seqIdx + 1;
        continue;
      }
      NextPosition(all, si, ri, Positions(|rendered|, ri + 1, seqs[seqIdx..]));
      out[si] := ri;
      si := si + 1;
      ri := ri + 1;
    }
    PositionsEnd(|rendered|, seqs[seqIdx..]);
    assert all[..si] == all;
    out[si] := |rendered|;
  }

  lemma NextPosition(all: seq<nat>, si: nat, p: nat, rest: seq<nat>)
    requires si <= |all| && all[..si] + ([p] + rest) == all
    ensures si < |all| && all[si] == p && all[..si + 1] + rest == all && all[..si + 1] == all[..si] + [p]
  {}

  /** The map of the panel's cursor and selection overlays; the fallback for a drifting map is dead code. */
  method MapStrippedToRendered(rendered: string, seqs: seq<Loc>) returns (out: array<int>)
    requires Escapes(seqs, 0, |rendered|)
    ensures fresh(out) && out[..] == Positions(|rendered|, 0, seqs) + [|rendered|]
  {
    var stripped := Strip(rendered, 0, seqs);
    out := new int[|stripped| + 1];
    var si := Walk(rendered, seqs, out);
    if si != |stripped| {
      assert false;
    }
  }

  // ----- Highlighted text -----

  /** A byte of the text, or the start or end of a highlight, of the current match or of another. */
  datatype Mark = Raw(b: char) | On(current: bool) | Off(current: bool)

  /** The text without its highlights. */
  function Erase(out: seq<Mark>): string {
    if out == [] then ""
    else Erase(out[..|out| - 1]) + if out[|out| - 1].Raw? then [out[|out| - 1].b] else ""
  }

  /** The text ends in an open highlight. */
  predicate Open(out: seq<Mark>) {
    out != [] && (out[|out| - 1].On? || (out[|out| - 1].Raw? && Open(out[..|out| - 1])))
  }

  /** For every byte of the text, whether it is highlighted. */
  function Lit(out: seq<Mark>): seq<bool> {
    if out == [] then []
    else Lit(out[..|out| - 1]) + if out[|out| - 1].Raw? then [Open(out[..|out| - 1])] else []
  }

  /** All highlights are of one kind: those of the current match, or those of the others. */
  predicate Styled(out: seq<Mark>, current: bool) {
    forall k :: 0 <= k < |out| ==> out[k].Raw? || out[k].current == current
  }

  lemma MarkSnoc(out: seq<Mark>, m: Mark)
    ensures Erase(out + [m]) == Erase(out) + if m.Raw? then [m.b] else ""
    ensures Lit(out + [m]) == Lit(out) + if m.Raw? then [Open(out)] else []
    ensures Open(out + [m]) == (m.On? || (m.Raw? && Open(out)))
  {
    assert (out + [m])[..|out|] == out;
  }

  function Raws(s: string): seq<Mark> {
    seq(|s|, i requires 0 <= i < |s| => Raw(s[i]))
  }

  lemma {:induction false} RawsSnoc(out: seq<Mark>, s: string)
    ensures Erase(out + Raws(s)) == Erase(out) + s
    ensures Lit(out + Raws(s)) == Lit(out) + seq(|s|, _ => Open(out))
    ensures Open(out + Raws(s)) == Open(out)
    decreases |s|
  {
    hide Erase, Lit, Open;
    if s == "" {
      assert out + Raws(s) == out;
    } else {
      var init, last := s[..|s| - 1], s[|s| - 1];
      RawsSnoc(out, init);
      MarkSnoc(out + Raws(init), Raw(last));
      assert out + Raws(init) + [Raw(last)] == out + Raws(s);
      assert init + [last] == s;
    }
  }

  /** The first k matches as ranges of the rendered text. */
  function Ranges(matches: seq<Loc>, k: nat, offs: seq<nat>): seq<Loc>
    requires k <= |matches| && Matches(matches, |offs| - 1)
  {
    seq(k, j requires 0 <= j < k => Loc(offs[matches[j].start], offs[matches[j].end]))
  }

  predicate Rising(offs: seq<nat>) {
    forall v, w :: 0 <= v < w < |offs| ==> offs[v] < offs[w]
  }

  /** The text up to cursor is out, and highlighted exactly in the ranges; all of them end by cursor. */
  ghost predicate Painted(out: seq<Mark>, rendered: string, cursor: nat, ranges: seq<Loc>, current: bool) {
    && cursor <= |rendered|
    && Erase(out) == rendered[..cursor]
    && !Open(out)
    && Styled(out, current)
    && |Lit(out)| == cursor
    && LitIn(Lit(out), ranges)
    && forall k :: 0 <= k < |ranges| ==> ranges[k].end <= cursor
  }

  lemma InsideSnoc(ranges: seq<Loc>, r: Loc, p: int)
    ensures Inside(ranges + [r], p) <==> Inside(ranges, p) || r.start <= p < r.end
  {
    var all := ranges + [r];
    assert all[|ranges|] == r;
    assert forall k :: 0 <= k < |ranges| ==> all[k] == ranges[k];
  }

  /** What one match adds: the text before it as it is, the match between a start and an end of a highlight. */
  function Shade(out: seq<Mark>, before: string, hit: string, current: bool): seq<Mark> {
    out + Raws(before) + [On(current)] + Raws(hit) + [Off(current)]
  }

  function Cut(s: string, lo: nat, hi: nat): string {
    if lo <= hi <= |s| then s[lo..hi] else ""
  }

  function EndAt(ranges: seq<Loc>): nat {
    if ranges == [] then 0 else ranges[|ranges| - 1].end
  }

  /** The text up to the end of the last range, all ranges highlighted. */
  function Marked(rendered: string, ranges: seq<Loc>, current: bool): seq<Mark> {
    if ranges == [] then []
    else
      var init, r := ranges[..|ranges| - 1], ranges[|ranges| - 1];
      Shade(Marked(rendered, init, current), Cut(rendered, EndAt(init), r.start), Cut(rendered, r.start, r.end), current)
  }

  /** The whole text, all ranges highlighted. */
  function Highlighted(rendered: string, ranges: seq<Loc>, current: bool): seq<Mark> {
    Marked(rendered, ranges, current) + Raws(Cut(rendered, EndAt(ranges), |rendered|))
  }

  lemma MarkedSnoc(rendered: string, ranges: seq<Loc>, r: Loc, current: bool)
    requires EndAt(ranges) <= r.start <= r.end <= |rendered|
    ensures Marked(rendered, ranges + [r], current)
         == Shade(Marked(rendered, ranges, current), rendered[EndAt(ranges)..r.start], rendered[r.start..r.end], current)
    ensures EndAt(ranges + [r]) == r.end
  {
    assert (ranges + [r])[..|ranges|] == ranges;
    hide Shade;
  }

  lemma MarkedNothing(rendered: string, current: bool)
    ensures Marked(rendered, [], current) == [] && EndAt([]) == 0
  {}

  lemma HighlightedIs(rendered: string, ranges: seq<Loc>, current: bool)
    requires EndAt(ranges) <= |rendered|
    ensures Highlighted(rendered, ranges, current) == Marked(rendered, ranges, current) + Raws(rendered[EndAt(ranges)..])
  {
    hide Marked, EndAt;
    assert rendered[EndAt(ranges)..|rendered|] == rendered[EndAt(ranges)..];
  }

  /** Nothing to highlight leaves the text as it is. */
  lemma NoneHighlighted(rendered: string, current: bool)
    ensures Highlighted(rendered, [], current) == Raws(rendered)
  {
    assert rendered[0..|rendered|] == rendered;
    assert [] + Raws(rendered) == Raws(rendered);
  }

  lemma ShadeShows(out: seq<Mark>, before: string, hit: string, current: bool)
    requires !Open(out)
    ensures var next := Shade(out, before, hit, current);
            && Erase(next) == Erase(out) + before + hit
            && Lit(next) == Lit(out) + seq(|before|, _ => false) + seq(|hit|, _ => true)
            && !Open(next)
  {
    hide Erase, Lit, Open, Raws;
    var a := out + Raws(before);
    RawsSnoc(out, before);
    MarkSnoc(a, On(current));
    var b := a + [On(current)];
    RawsSnoc(b, hit);
    MarkSnoc(b + Raws(hit), Off(current));
  }

  lemma PaintMatch(out: seq<Mark>, rendered: string, cursor: nat, ranges: seq<Loc>, r: Loc, current: bool)
    requires Painted(out, rendered, cursor, ranges, current) && cursor <= r.start <= r.end <= |rendered|
    ensures Painted(Shade(out, rendered[cursor..r.start], rendered[r.start..r.end], current), rendered, r.end, ranges + [r], current)
  {
    var before, hit := rendered[cursor..r.start], rendered[r.start..r.end];
    ShadeShows(out, before, hit, current);
    ShadeStyled(out, before, hit, current);
    hide Erase, Lit, Open, Shade, Inside, Styled, LitIn;
    assert rendered[..cursor] + before + hit == rendered[..r.end];
    LitNext(Lit(out), cursor, ranges, r);
  }

  ghost predicate LitIn(lit: seq<bool>, ranges: seq<Loc>) {
    forall p :: 0 <= p < |lit| ==> lit[p] == Inside(ranges, p)
  }

  lemma LitNext(lit: seq<bool>, cursor: nat, ranges: seq<Loc>, r: Loc)
    requires |lit| == cursor <= r.start <= r.end && LitIn(lit, ranges)
    requires forall k :: 0 <= k < |ranges| ==> ranges[k].end <= cursor
    ensures LitIn(lit + seq(r.start - cursor, _ => false) + seq(r.end - r.start, _ => true), ranges + [r])
  {
    var next := lit + seq(r.start - cursor, _ => false) + seq(r.end - r.start, _ => true);
    hide Inside;
    forall p | 0 <= p < |next| ensures next[p] == Inside(ranges + [r], p) {
      InsideSnoc(ranges, r, p);
      if p >= cursor {
        PastRanges(ranges, cursor, p);
      }
    }
  }

  lemma PastRanges(ranges: seq<Loc>, cursor: nat, p: nat)
    requires cursor <= p && forall k :: 0 <= k < |ranges| ==> ranges[k].end <= cursor
    ensures !Inside(ranges, p)
  {}

  lemma ShadeIs(out: seq<Mark>, before: string, hit: string, current: bool)
    ensures Shade(out, before, hit, current) == out + Raws(before) + [On(current)] + Raws(hit) + [Off(current)]
  {}

  lemma ShadeStyled(out: seq<Mark>, before: string, hit: string, current: bool)
    requires Styled(out, current)
    ensures Styled(Shade(out, before, hit, current), current)
  {}

  lemma PaintRest(out: seq<Mark>, rendered: string, cursor: nat, ranges: seq<Loc>, current: bool)
    requires Painted(out, rendered, cursor, ranges, current)
    ensures Painted(out + Raws(rendered[cursor..]), rendered, |rendered|, ranges, current)
  {
    var rest := rendered[cursor..];
    RawsSnoc(out, rest);
    hide Erase, Lit, Open, Inside, Raws;
    assert rendered[..cursor] + rest == rendered[..|rendered|];
    forall p | cursor <= p < |rendered| ensures !Inside(ranges, p) {
      PastRanges(ranges, cursor, p);
    }
  }

  lemma PaintNothing(rendered: string, current: bool)
    ensures Painted([], rendered, 0, [], current)
  {}

  /** A visible byte is in a range of the rendered text exactly when its stripped position is in the match. */
  lemma RangesAreMatches(matches: seq<Loc>, offs: seq<nat>, v: nat)
    requires Matches(matches, |offs| - 1) && Rising(offs) && v < |offs|
    ensures Inside(Ranges(matches, |matches|, offs), offs[v]) <==> Inside(matches, v)
  {
    var ranges := Ranges(matches, |matches|, offs);
    hide Rising, Matches;
    forall k | 0 <= k < |matches|
      ensures ranges[k].start <= offs[v] < ranges[k].end <==> matches[k].start <= v < matches[k].end
    {
      MatchBounds(matches, k, |offs| - 1);
      RisingOrder(offs, matches[k].start, v);
      RisingOrder(offs, matches[k].end, v);
    }
  }

  lemma MatchBounds(matches: seq<Loc>, k: nat, n: int)
    requires Matches(matches, n) && k < |matches|
    ensures matches[k].start <= matches[k].end <= n
  {}

  lemma RisingOrder(offs: seq<nat>, a: nat, v: nat)
    requires Rising(offs) && a < |offs| && v < |offs|
    ensures offs[a] <= offs[v] <==> a <= v
  {}

  /** Where each stripped position and the end lie in the rendered text. */
  function Offsets(rendered: string, seqs: seq<Loc>): seq<nat>
    requires Escapes(seqs, 0, |rendered|)
  {
    Positions(|rendered|, 0, seqs) + [|rendered|]
  }

  /** The map rises strictly, points at the right byte for every stripped position, and ends at the end. */
  lemma OffsetsAreMap(rendered: string, seqs: seq<Loc>)
    requires Escapes(seqs, 0, |rendered|)
    ensures var offs, stripped := Offsets(rendered, seqs), Strip(rendered, 0, seqs);
            && |offs| == |stripped| + 1 && Rising(offs) && offs[|stripped|] == |rendered|
            && forall v :: 0 <= v < |stripped| ==> offs[v] < |rendered| && rendered[offs[v]] == stripped[v]
  {
    PositionsRise(|rendered|, 0, seqs);
    PositionsHoldText(rendered, 0, seqs);
    hide Positions, Strip, Escapes;
  }

  /**
   * Only highlights are inserted, and a visible byte is highlighted exactly when it is in a match; hasRx
   * is false without an expression to search for, and the matches are those in the stripped text. What
   * is between the start and the end of a highlight are the ranges of the text the matches map to.
   */
  method HighlightLine(rendered: string, seqs: seq<Loc>, hasRx: bool, matches: seq<Loc>, current: bool)
    returns (out: seq<Mark>)
    requires Escapes(seqs, 0, |rendered|) && Matches(matches, |Strip(rendered, 0, seqs)|)
    ensures Erase(out) == rendered && !Open(out) && Styled(out, current) && |Lit(out)| == |rendered|
    ensures |Offsets(rendered, seqs)| == |Strip(rendered, 0, seqs)| + 1
    ensures forall v :: 0 <= v < |Strip(rendered, 0, seqs)| ==>
              Offsets(rendered, seqs)[v] < |rendered|
              && Lit(out)[Offsets(rendered, seqs)[v]] == (hasRx && Inside(matches, v))
    ensures out == if hasRx && rendered != ""
                   then Highlighted(rendered, Ranges(matches, |matches|, Offsets(rendered, seqs)), current)
                   else Raws(rendered)
  {
    hide *;
    ghost var offs := Offsets(rendered, seqs);
    OffsetsAreMap(rendered, seqs);
    if !hasRx || rendered == "" {
      out := Raws(rendered);
      PlainLine(rendered, current);
      EmptyStrip(rendered, seqs);
      return;
    }
    var stripped := Strip(rendered, 0, seqs);
    if |matches| == 0 {
      out := Raws(rendered);
      PlainLine(rendered, current);
      NoneInside(matches);
      RangesStart(matches, offs);
      NoneHighlighted(rendered, current);
      return;
    }
    var renderedOfStripped := new int[|stripped| + 1];
    var si := Walk(rendered, seqs, renderedOfStripped);
    OffsetsUnfold(rendered, seqs);
    if si != |stripped| {
      assert false;
    }
    out := [];
    var cursor: nat := 0;
    PaintNothing(rendered, current);
    RangesStart(matches, offs);
    MarkedNothing(rendered, current);
    MatchBounds(matches, 0, |stripped|);
    var k := 0;
    while k < |matches|
      invariant 0 <= k <= |matches|
      invariant renderedOfStripped[..] == offs && cursor <= |rendered|
      invariant Painted(out, rendered, cursor, Ranges(matches, k, offs), current)
      invariant out == Marked(rendered, Ranges(matches, k, offs), current) && cursor == EndAt(Ranges(matches, k, offs))
      invariant k < |matches| ==> matches[k].start <= matches[k].end < |offs| && cursor <= offs[matches[k].start]
      decreases |matches| - k
    {
      MatchBounds(matches, k, |stripped|);
      var s, e := renderedOfStripped[matches[k].start], renderedOfStripped[matches[k].end];
      assert s == offs[matches[k].start] && e == offs[matches[k].end];
      RisingOrder(offs, matches[k].start, matches[k].end);
      RisingOrder(offs, matches[k].end, |stripped|);
      if k + 1 < |matches| {
        MatchBounds(matches, k + 1, |stripped|);
        NextMatch(matches, k, offs);
      }
      if s >= cursor {
        PaintMatch(out, rendered, cursor, Ranges(matches, k, offs), Loc(s, e), current);
        RangesSnoc(matches, k, offs);
        MarkedSnoc(rendered, Ranges(matches, k, offs), Loc(s, e), current);
        ShadeIs(out, rendered[cursor..s], rendered[s..e], current);
        out := out + Raws(rendered[cursor..s]);
        out := out + [On(current)];
        out := out + Raws(rendered[s..e]);
        out := out + [Off(current)];
        cursor := e;
      }
      k := k + 1;
    }
    PaintRest(out, rendered, cursor, Ranges(matches, |matches|, offs), current);
    HighlightedIs(rendered, Ranges(matches, |matches|, offs), current);
    out := out + Raws(rendered[cursor..]);
    PaintedLine(out, rendered, matches, offs, current);
  }

  lemma OffsetsUnfold(rendered: string, seqs: seq<Loc>)
    requires Escapes(seqs, 0, |rendered|)
    ensures Offsets(rendered, seqs) == Positions(|rendered|, 0, seqs) + [|rendered|]
  {}

  lemma PlainLine(rendered: string, current: bool)
    ensures var out := Raws(rendered);
            Erase(out) == rendered && !Open(out) && Styled(out, current) && Lit(out) == seq(|rendered|, _ => false)
  {
    assert [] + Raws(rendered) == Raws(rendered);
    RawsSnoc([], rendered);
  }

  lemma NoneInside(matches: seq<Loc>)
    requires matches == []
    ensures forall v: int :: !Inside(matches, v)
  {}

  lemma EmptyStrip(rendered: string, seqs: seq<Loc>)
    requires Escapes(seqs, 0, |rendered|)
    ensures rendered == "" ==> Strip(rendered, 0, seqs) == ""
  {
    if rendered == "" {
      StripEnd(rendered, seqs);
    }
  }

  lemma RangesStart(matches: seq<Loc>, offs: seq<nat>)
    requires Matches(matches, |offs| - 1)
    ensures Ranges(matches, 0, offs) == []
  {}

  lemma RangesSnoc(matches: seq<Loc>, k: nat, offs: seq<nat>)
    requires k < |matches| && Matches(matches, |offs| - 1)
    ensures matches[k].start <= matches[k].end < |offs|
    ensures Ranges(matches, k + 1, offs)
         == Ranges(matches, k, offs) + [Loc(offs[matches[k].start], offs[matches[k].end])]
  {}

  lemma NextMatch(matches: seq<Loc>, k: nat, offs: seq<nat>)
    requires k + 1 < |matches| && Matches(matches, |offs| - 1) && Rising(offs)
    ensures matches[k].end < |offs| && matches[k + 1].start <= matches[k + 1].end < |offs|
    ensures offs[matches[k].end] <= offs[matches[k + 1].start]
  {
    RisingOrder(offs, matches[k].end, matches[k + 1].start);
  }

  lemma PaintedLine(out: seq<Mark>, rendered: string, matches: seq<Loc>, offs: seq<nat>, current: bool)
    requires |offs| > 0 && Matches(matches, |offs| - 1) && Rising(offs) && offs[|offs| - 1] == |rendered|
    requires Painted(out, rendered, |rendered|, Ranges(matches, |matches|, offs), current)
    ensures Erase(out) == rendered && !Open(out) && Styled(out, current) && |Lit(out)| == |rendered|
    ensures forall v :: 0 <= v < |offs| - 1 ==> offs[v] < |rendered| && Lit(out)[offs[v]] == Inside(matches, v)
  {
    hide Erase, Open, Lit, Inside, Ranges, Matches, Styled;
    forall v | 0 <= v < |offs| - 1 ensures offs[v] < |rendered| && Lit(out)[offs[v]] == Inside(matches, v) {
      RangesAreMatches(matches, offs, v);
    }
  }
}
