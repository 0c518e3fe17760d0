/** The chunked line splitter (internal/log/linebuffer.go). */
module LineBuffers {
  import opened Bytes
  import opened Seqs

  const LF: byte := 0x0a
  const CR: byte := 0x0d

  datatype Line = Line(bytes: seq<byte>, partial: bool)

  // ----- The byte-at-a-time automaton -----

  /** What the splitter reads: a line terminator, a bare CR, or an ordinary byte. */
  datatype Token = End | Overwrite | B(b: byte)

  function TokenLen(s: seq<byte>): (n: nat)
    requires s != []
    ensures 0 < n <= |s|
  {
    if s[0] == CR && |s| > 1 && s[1] == LF then 2 else 1
  }

  function FirstToken(s: seq<byte>): Token
    requires s != []
  {
    if s[0] == LF || TokenLen(s) == 2 then End else if s[0] == CR then Overwrite else B(s[0])
  }

  function Tokens(s: seq<byte>): seq<Token>
    decreases |s|
  {
    if s == [] then [] else [FirstToken(s)] + Tokens(s[TokenLen(s)..])
  }

  predicate Continuation(b: byte) {
    b / 0x40 == 2
  }

  /** Walks left from off over at most 3 - n continuation bytes. */
  function Back(buf: seq<byte>, off: nat, floor: nat, n: nat): (r: nat)
    requires floor <= off
    ensures floor <= r <= off
    decreases off
  {
    if n < 3 && off > floor && off < |buf| && Continuation(buf[off]) then Back(buf, off - 1, floor, n + 1) else off
  }

  function SafeSplit(buf: seq<byte>, cap: nat, floor: nat): (r: nat)
    requires floor < cap
    ensures floor < r <= cap
  {
    var off := Back(buf, cap, floor, 0);
    if off == floor then cap else off
  }

  /** Lines emitted, and the text of the line still being collected. */
  datatype Out = Out(lines: seq<Line>, tail: seq<byte>)

  function Step(max: nat, tail: seq<byte>, t: Token): Out
    requires 0 < max
  {
    match t
    case End => Out([Line(tail, false)], [])
    case Overwrite => Out([], [])
    case B(b) =>
      if |tail| >= max then
        var k := SafeSplit(tail + [b], max, 0);
        Out([Line(tail[..k], true)], tail[k..] + [b])
      else Out([], tail + [b])
  }

  function Run(max: nat, tail: seq<byte>, ts: seq<Token>): Out
    requires 0 < max
    decreases |ts|
  {
    if ts == [] then Out([], tail)
    else
      var a := Step(max, tail, ts[0]);
      var b := Run(max, a.tail, ts[1..]);
      Out(a.lines + b.lines, b.tail)
  }

  lemma {:induction false} RunAppend(max: nat, tail: seq<byte>, x: seq<Token>, y: seq<Token>)
    requires 0 < max
    ensures Run(max, tail, x + y).lines == Run(max, tail, x).lines + Run(max, Run(max, tail, x).tail, y).lines
    ensures Run(max, tail, x + y).tail == Run(max, Run(max, tail, x).tail, y).tail
    decreases |x|
  {
    if x == [] {
      assert x + y == y;
    } else {
      assert (x + y)[1..] == x[1..] + y;
      RunAppend(max, Step(max, tail, x[0]).tail, x[1..], y);
    }
  }

  /** What the retained tail always looks like. */
  predicate TailOk(max: nat, tail: seq<byte>) {
    |tail| <= max && CR !in tail && LF !in tail
  }

  /** The retained text never holds a terminator and never outgrows the limit; forced splits are never empty. */
  lemma {:induction false} RunTail(max: nat, tail: seq<byte>, ts: seq<Token>)
    requires 0 < max && TailOk(max, tail)
    requires forall t :: t in ts && t.B? ==> t.b != CR && t.b != LF
    ensures TailOk(max, Run(max, tail, ts).tail)
    ensures forall l :: l in Run(max, tail, ts).lines ==> TailOk(max, l.bytes) && (l.partial ==> l.bytes != [])
    decreases |ts|
  {
    if ts != [] {
      RunTail(max, Step(max, tail, ts[0]).tail, ts[1..]);
    }
  }

  lemma {:induction false} TokensClean(s: seq<byte>)
    ensures forall t :: t in Tokens(s) && t.B? ==> t.b != CR && t.b != LF
    decreases |s|
  {
    if s != [] {
      TokensClean(s[1..]);
      if |s| > 1 {
        TokensClean(s[2..]);
      }
    }
  }

  // ----- Feed -----

  /** A copy of s[lo..hi]. */
  function Dup(s: seq<byte>, lo: nat, hi: nat): seq<byte>
    requires lo <= hi <= |s|
  {
    s[lo..hi]
  }

  /** Text without terminators that fits is simply collected. */
  lemma {:induction false} RunCollect(max: nat, tail: seq<byte>, x: seq<byte>, rest: seq<byte>)
    requires 0 < max && CR !in x && LF !in x && |tail| + |x| <= max
    ensures Run(max, tail, Tokens(x + rest)) == Run(max, tail + x, Tokens(rest))
    decreases |x|
  {
    if x == [] {
      assert x + rest == rest && tail + x == tail;
    } else {
      assert (x + rest)[1..] == x[1..] + rest;
      assert x[0] in x;
      var ts := Tokens(x[1..] + rest);
      assert Tokens(x + rest) == [B(x[0])] + ts;
      assert ([B(x[0])] + ts)[1..] == ts;
      RunCollect(max, tail + [x[0]], x[1..], rest);
      assert tail + [x[0]] + x[1..] == tail + x;
    }
  }

  lemma {:induction false} BackShift(buf: seq<byte>, seg: seq<byte>, start: nat, off: nat, n: nat)
    requires start + |seg| <= |buf| && seg == buf[start..start + |seg|] && off < |seg|
    ensures Back(buf, start + off, start, n) == start + Back(seg, off, 0, n)
    decreases off
  {
    assert buf[start + off] == seg[off];
    if n < 3 && off > 0 && Continuation(seg[off]) {
      BackShift(buf, seg, start, off - 1, n + 1);
    }
  }

  /** One step of the scan: the token at i, and what the scan still has to read. */
  lemma TokensAt(s: seq<byte>, i: nat)
    requires i < |s|
    ensures s[i] != CR && s[i] != LF ==> Tokens(s[i..]) == [B(s[i])] + Tokens(s[i + 1..])
    ensures s[i] == LF ==> Tokens(s[i..]) == [End] + Tokens(s[i + 1..])
    ensures s[i] == CR && i + 1 < |s| && s[i + 1] == LF ==> Tokens(s[i..]) == [End] + Tokens(s[i + 2..])
    ensures s[i] == CR && !(i + 1 < |s| && s[i + 1] == LF) ==> Tokens(s[i..]) == [Overwrite] + Tokens(s[i + 1..])
  {
    assert s[i..][1..] == s[i + 1..];
    if i + 1 < |s| {
      assert s[i..][2..] == s[i + 2..];
    }
  }

  /**
   * The state of the scan over s: lines are emitted, s[lineStart..i] is being collected, and scanning
   * the rest will complete the outcome all.
   */
  ghost predicate Scanning(max: nat, lines: seq<Line>, s: seq<byte>, lineStart: nat, i: nat, all: Out)
    requires 0 < max
  {
    && lineStart <= i <= |s| && i - lineStart <= max
    && all.lines == lines + Run(max, s[lineStart..i], Tokens(s[i..])).lines
    && all.tail == Run(max, s[lineStart..i], Tokens(s[i..])).tail
  }

  lemma ScanStep(max: nat, lines: seq<Line>, s: seq<byte>, lineStart: nat, i: nat, all: Out, t: Token, start: nat, next: nat)
    requires 0 < max && Scanning(max, lines, s, lineStart, i, all)
    requires start <= next <= |s| && next - start <= max
    requires Tokens(s[i..]) == [t] + Tokens(s[next..])
    requires Step(max, s[lineStart..i], t).tail == s[start..next]
    ensures Scanning(max, lines + Step(max, s[lineStart..i], t).lines, s, start, next, all)
  {
    var ts := Tokens(s[next..]);
    assert ([t] + ts)[1..] == ts;
    var o := Run(max, s[start..next], ts);
    var first := Step(max, s[lineStart..i], t).lines;
    assert lines + (first + o.lines) == lines + first + o.lines;
  }

  /** The lines with a copy of s[lo..hi] behind them. */
  function Emitted(lines: seq<Line>, s: seq<byte>, lo: nat, hi: nat, partial: bool): seq<Line>
    requires lo <= hi <= |s|
  {
    lines + [Line(Dup(s, lo, hi), partial)]
  }

  /** At a terminator the line is complete and the scan restarts after it. */
  lemma ScanEnd(max: nat, lines: seq<Line>, s: seq<byte>, lineStart: nat, i: nat, all: Out, next: nat)
    requires 0 < max && Scanning(max, lines, s, lineStart, i, all)
    requires i < next <= |s|
    requires (s[i] == LF && next == i + 1) || (s[i] == CR && next == i + 2 && s[i + 1] == LF)
    ensures Scanning(max, Emitted(lines, s, lineStart, i, false), s, next, next, all)
  {
    TokensAt(s, i);
    assert s[next..next] == [];
    ScanStep(max, lines, s, lineStart, i, all, End, next, next);
  }

  /** A bare CR drops what was collected. */
  lemma ScanOverwrite(max: nat, lines: seq<Line>, s: seq<byte>, lineStart: nat, i: nat, all: Out)
    requires 0 < max && Scanning(max, lines, s, lineStart, i, all)
    requires i < |s| && s[i] == CR && (i + 1 < |s| ==> s[i + 1] != LF)
    ensures Scanning(max, lines, s, i + 1, i + 1, all)
  {
    TokensAt(s, i);
    assert s[i + 1..i + 1] == [];
    ScanStep(max, lines, s, lineStart, i, all, Overwrite, i + 1, i + 1);
    assert lines + [] == lines;
  }

  /** An ordinary byte extends the line while there is room. */
  lemma ScanByte(max: nat, lines: seq<Line>, s: seq<byte>, lineStart: nat, i: nat, all: Out)
    requires 0 < max && Scanning(max, lines, s, lineStart, i, all)
    requires i < |s| && s[i] != CR && s[i] != LF && i - lineStart < max
    ensures Scanning(max, lines, s, lineStart, i + 1, all)
  {
    TokensAt(s, i);
    assert s[lineStart..i] + [s[i]] == s[lineStart..i + 1];
    ScanStep(max, lines, s, lineStart, i, all, B(s[i]), lineStart, i + 1);
    assert lines + [] == lines;
  }

  /** A full line is force-split before the byte is added. */
  lemma ScanFull(max: nat, lines: seq<Line>, s: seq<byte>, lineStart: nat, i: nat, all: Out, safe: nat)
    requires 0 < max && Scanning(max, lines, s, lineStart, i, all)
    requires i < |s| && s[i] != CR && s[i] != LF && i - lineStart == max && safe == SafeSplit(s, i, lineStart)
    ensures Scanning(max, Emitted(lines, s, lineStart, safe, true), s, safe, i + 1, all)
  {
    TokensAt(s, i);
    SplitShift(s, lineStart, i, max);
    hide SafeSplit;
    assert s[lineStart..i][..safe - lineStart] == s[lineStart..safe];
    assert s[lineStart..i][safe - lineStart..] + [s[i]] == s[safe..i + 1];
    ScanStep(max, lines, s, lineStart, i, all, B(s[i]), safe, i + 1);
  }

  lemma SplitShift(s: seq<byte>, lineStart: nat, i: nat, max: nat)
    requires lineStart + max == i < |s| && 0 < max
    ensures SafeSplit(s, i, lineStart) == lineStart + SafeSplit(s[lineStart..i] + [s[i]], max, 0)
  {
    assert s[lineStart..i] + [s[i]] == s[lineStart..i + 1];
    BackShift(s, s[lineStart..i + 1], lineStart, max, 0);
  }

  /** Rescanning the retained tail in front of a chunk changes nothing. */
  lemma ScanStart(max: nat, tail: seq<byte>, chunk: seq<byte>, combined: seq<byte>)
    requires 0 < max && TailOk(max, tail) && IsConcat(combined, tail, chunk)
    ensures Scanning(max, [], combined, 0, 0, Run(max, tail, Tokens(chunk)))
  {
    RunCollect(max, [], tail, chunk);
    assert [] + tail == tail;
    assert (tail + chunk)[0..] == tail + chunk && (tail + chunk)[0..0] == [];
    var lines := Run(max, tail, Tokens(chunk)).lines;
    assert [] + lines == lines;
  }

  lemma ScanDone(max: nat, lines: seq<Line>, s: seq<byte>, lineStart: nat, i: nat, all: Out)
    requires 0 < max && Scanning(max, lines, s, lineStart, i, all) && i == |s|
    ensures all.lines == lines && all.tail == Dup(s, lineStart, i)
  {
    assert s[i..] == [];
    assert lines + [] == lines;
  }

  predicate IsConcat(out: seq<byte>, a: seq<byte>, b: seq<byte>) {
    out == a + b
  }

  method Concat(a: seq<byte>, b: seq<byte>) returns (out: seq<byte>)
    ensures IsConcat(out, a, b)
  {
    out := a + b;
  }

  lemma FeedTail(max: nat, tail: seq<byte>, chunk: seq<byte>)
    requires 0 < max && TailOk(max, tail)
    ensures TailOk(max, Run(max, tail, Tokens(chunk)).tail)
  {
    TokensClean(chunk);
    RunTail(max, tail, Tokens(chunk));
  }

  method SafeSplitOffset(buf: seq<byte>, cap: nat, floor: nat) returns (r: nat)
    requires floor < cap
    ensures r == SafeSplit(buf, cap, floor)
  {
    var off := cap;
    var n := 0;
    while n < 3 && off > floor
      invariant 0 <= n <= 3 && floor <= off
      invariant Back(buf, off, floor, n) == Back(buf, cap, floor, 0)
    {
      if off >= |buf| || !Continuation(buf[off]) {
        break;
      }
      off := off - 1;
      n := n + 1;
    }
    if off == floor {
      return cap;
    }
    return off;
  }

  class LineBuffer {
    const maxLineSize: nat
    var buf: seq<byte>

    ghost predicate Valid()
      reads this
    {
      0 < maxLineSize && TailOk(maxLineSize, buf)
    }

    constructor (max: int)
      ensures Valid() && buf == []
      ensures maxLineSize == if max <= 0 then 64 * 1024 else max
    {
      maxLineSize := if max <= 0 then 64 * 1024 else max;
      buf := [];
    }

    lemma ValidParts()
      requires Valid()
      ensures 0 < maxLineSize && TailOk(maxLineSize, buf)
    {}

    lemma MakeValid()
      requires 0 < maxLineSize && TailOk(maxLineSize, buf)
      ensures Valid()
    {}

    /** Feed refines the automaton: it continues from the retained tail over the tokens of the chunk. */
    method Feed(chunk: seq<byte>) returns (lines: seq<Line>)
      requires Valid()
      modifies this
      ensures Valid()
      ensures lines == Run(maxLineSize, old(buf), Tokens(chunk)).lines
      ensures buf == Run(maxLineSize, old(buf), Tokens(chunk)).tail
    {
      if |chunk| == 0 {
        return [];
      }
      hide *;
      ValidParts();
      ghost var all := Run(maxLineSize, buf, Tokens(chunk));
      FeedTail(maxLineSize, buf, chunk);
      var combined := Concat(buf, chunk);
      ScanStart(maxLineSize, buf, chunk, combined);
      lines := [];
      var lineStart := 0;
      var i := 0;
      while i < |combined|
        invariant 0 <= lineStart <= i <= |combined| && i - lineStart <= maxLineSize
        invariant Scanning(maxLineSize, lines, combined, lineStart, i, all)
      {
        var b := combined[i];
        if b == CR {
          if i + 1 < |combined| && combined[i + 1] == LF {
            ScanEnd(maxLineSize, lines, combined, lineStart, i, all, i + 2);
            lines := Emitted(lines, combined, lineStart, i, false);
            i := i + 2;
            lineStart := i;
            continue;
          }
          ScanOverwrite(maxLineSize, lines, combined, lineStart, i, all);
          lineStart := i + 1;
          i := i + 1;
          continue;
        } else if b == LF {
          ScanEnd(maxLineSize, lines, combined, lineStart, i, all, i + 1);
          lines := Emitted(lines, combined, lineStart, i, false);
          i := i + 1;
          lineStart := i;
          continue;
        }
        if i - lineStart >= maxLineSize {
          var cap := lineStart + maxLineSize;
          var safe := SafeSplitOffset(combined, cap, lineStart);
          ScanFull(maxLineSize, lines, combined, lineStart, i, all, safe);
          lines := Emitted(lines, combined, lineStart, safe, true);
          lineStart := safe;
        } else {
          ScanByte(maxLineSize, lines, combined, lineStart, i, all);
        }
        i := i + 1;
      }
      ScanDone(maxLineSize, lines, combined, lineStart, i, all);
      buf := Dup(combined, lineStart, |combined|);
      MakeValid();
    }

    /** Any trailing partial line, leaving the buffer empty. */
    method Flush() returns (line: seq<Line>)
      requires Valid()
      modifies this
      ensures Valid() && buf == []
      ensures line == if old(buf) == [] then [] else [Line(old(buf), true)]
    {
      if |buf| == 0 {
        return [];
      }
      line := [Line(buf, true)];
      buf := [];
    }
  }
}
