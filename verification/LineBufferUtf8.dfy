/** Forced splits never cut a character, and the lines rejoin to the stream. */
module LineBufferUtf8 {
  import opened Bytes
  import opened Seqs
  import opened LineBuffers
  import opened LineBufferLaws

  // ----- UTF-8, section 4 of RFC 3629 -----

  /** The length of the well-formed character s starts with, or 0 when there is none. */
  function CharLen(s: seq<byte>): (n: nat)
    ensures n <= |s| && n <= 4
  {
    if s == [] then 0
    else if s[0] < 0x80 then 1
    else if 0xC2 <= s[0] <= 0xDF then
      if |s| > 1 && Continuation(s[1]) then 2 else 0
    else if 0xE0 <= s[0] <= 0xEF then
      if |s| > 2 && Second(s[0], s[1]) && Continuation(s[2]) then 3 else 0
    else if 0xF0 <= s[0] <= 0xF4 then
      if |s| > 3 && Second(s[0], s[1]) && Continuation(s[2]) && Continuation(s[3]) then 4 else 0
    else 0
  }

  /** The second byte of a long character: no overlong forms, no surrogates, nothing past U+10FFFF. */
  predicate Second(lead: byte, b: byte) {
    if lead == 0xE0 then 0xA0 <= b <= 0xBF
    else if lead == 0xED then 0x80 <= b <= 0x9F
    else if lead == 0xF0 then 0x90 <= b <= 0xBF
    else if lead == 0xF4 then 0x80 <= b <= 0x8F
    else Continuation(b)
  }

  predicate Utf8(s: seq<byte>)
    decreases |s|
  {
    s == [] || (0 < CharLen(s) && Utf8(s[CharLen(s)..]))
  }

  lemma CharPrefix(c: seq<byte>, s: seq<byte>)
    requires 0 < CharLen(c) && c <= s
    ensures CharLen(s) == CharLen(c)
  {
    assert forall i :: 0 <= i < |c| ==> s[i] == c[i];
  }

  lemma CharTake(s: seq<byte>)
    requires 0 < CharLen(s)
    ensures CharLen(s[..CharLen(s)]) == CharLen(s)
  {}

  lemma CharBytes(c: seq<byte>)
    requires 0 < CharLen(c)
    ensures !Continuation(c[0])
    ensures forall i :: 1 <= i < CharLen(c) ==> Continuation(c[i])
    ensures CharLen(c) > 1 ==> c[0] >= 0x80
  {}

  lemma {:induction false} Utf8Append(a: seq<byte>, b: seq<byte>)
    requires Utf8(a) && Utf8(b)
    ensures Utf8(a + b)
    decreases |a|
  {
    if a == [] {
      assert a + b == b;
    } else {
      CharPrefix(a, a + b);
      assert (a + b)[CharLen(a)..] == a[CharLen(a)..] + b;
      Utf8Append(a[CharLen(a)..], b);
    }
  }

  lemma Utf8Char(c: seq<byte>)
    requires 0 < CharLen(c) == |c|
    ensures Utf8(c)
  {
    assert c[|c|..] == [];
  }

  // ----- One character through the automaton -----

  function AsTokens(c: seq<byte>): seq<Token> {
    seq(|c|, i requires 0 <= i < |c| => B(c[i]))
  }

  lemma RunByte(max: nat, tail: seq<byte>, x: seq<byte>)
    requires 0 < max && x != [] && |tail| < max
    ensures Run(max, tail, AsTokens(x)).lines == Run(max, tail + [x[0]], AsTokens(x[1..])).lines
    ensures Run(max, tail, AsTokens(x)).tail == Run(max, tail + [x[0]], AsTokens(x[1..])).tail
  {
    var rest := AsTokens(x[1..]);
    assert AsTokens(x)[1..] == rest;
    var lines := Run(max, tail + [x[0]], rest).lines;
    assert [] + lines == lines;
  }

  lemma RunNone(max: nat, tail: seq<byte>)
    requires 0 < max
    ensures Run(max, tail, AsTokens([])).lines == [] && Run(max, tail, AsTokens([])).tail == tail
  {}

  lemma {:induction false} RunFits(max: nat, tail: seq<byte>, x: seq<byte>)
    requires 0 < max && |tail| + |x| <= max
    ensures Run(max, tail, AsTokens(x)).lines == [] && Run(max, tail, AsTokens(x)).tail == tail + x
    decreases |x|
  {
    hide *;
    if x == [] {
      RunNone(max, tail);
      assert tail + x == tail;
    } else {
      RunFits(max, tail + [x[0]], x[1..]);
      RunByte(max, tail, x);
      assert tail + [x[0]] + x[1..] == tail + x;
    }
  }

  /** From k bytes into a character the split point backs up to where the character starts. */
  lemma {:induction false} BackChar(buf: seq<byte>, start: nat, k: nat, n: nat)
    requires k + n <= 3 && start + k < |buf| && (k == 0 || 0 < start)
    requires !Continuation(buf[start]) && forall i :: start < i <= start + k ==> Continuation(buf[i])
    ensures Back(buf, start + k, 0, n) == start
    decreases k
  {
    if k > 0 {
      BackChar(buf, start, k - 1, n + 1);
    }
  }

  /** A character is collected whole; when it does not fit, the split falls in front of it. */
  lemma AddChar(max: nat, tail: seq<byte>, c: seq<byte>)
    requires 4 <= max && |tail| <= max && 0 < CharLen(c) == |c|
    ensures |tail| + |c| <= max ==>
              Run(max, tail, AsTokens(c)).lines == [] && Run(max, tail, AsTokens(c)).tail == tail + c
    ensures |tail| + |c| > max ==>
              Run(max, tail, AsTokens(c)).lines == [Line(tail, true)] && Run(max, tail, AsTokens(c)).tail == c
  {
    if |tail| + |c| <= max {
      RunFits(max, tail, c);
    } else {
      var j := max - |tail|;
      CharBytes(c);
      assert c == c[..j] + [c[j]] + c[j + 1..];
      AddSplit(max, tail, c[..j], c[j], c[j + 1..]);
    }
  }

  /** A character x + [y] + z whose byte y is the first that does not fit. */
  lemma AddSplit(max: nat, tail: seq<byte>, x: seq<byte>, y: byte, z: seq<byte>)
    requires 4 <= max && |tail| + |x| == max && |x| + 1 + |z| <= 4
    requires var c := x + [y] + z;
             !Continuation(c[0]) && forall i :: 1 <= i < |c| ==> Continuation(c[i])
    ensures Run(max, tail, AsTokens(x + [y] + z)).lines == [Line(tail, true)]
    ensures Run(max, tail, AsTokens(x + [y] + z)).tail == x + [y] + z
  {
    hide *;
    SplitFull(max, tail, x, y, z);
    RunFits(max, tail, x);
    RunFits(max, x + [y], z);
    Halves(tail, x);
    RunSplit(max, tail + x, y, x + [y], tail);
    RunTwo(max, tail, AsTokens(x), [B(y)], AsTokens(z));
    TokensThree(x, y, z);
    assert [] + [Line(tail, true)] + [] == [Line(tail, true)];
  }

  lemma Halves<T>(a: seq<T>, b: seq<T>)
    ensures (a + b)[..|a|] == a && (a + b)[|a|..] == b
  {}

  lemma TokensThree(x: seq<byte>, y: byte, z: seq<byte>)
    ensures AsTokens(x) + [B(y)] + AsTokens(z) == AsTokens(x + [y] + z)
  {}

  lemma SplitFull(max: nat, tail: seq<byte>, x: seq<byte>, y: byte, z: seq<byte>)
    requires 4 <= max && |tail| + |x| == max && |x| + 1 + |z| <= 4
    requires var c := x + [y] + z;
             !Continuation(c[0]) && forall i :: 1 <= i < |c| ==> Continuation(c[i])
    ensures SafeSplit(tail + x + [y], max, 0) == |tail|
  {
    var c, buf := x + [y] + z, tail + x + [y];
    hide *;
    assert buf[|tail|] == c[0];
    forall i | |tail| < i <= |tail| + |x| ensures Continuation(buf[i]) {
      assert buf[i] == c[i - |tail|];
    }
    BackChar(buf, |tail|, |x|, 0);
    SplitBack(buf, max);
  }

  lemma SplitBack(buf: seq<byte>, cap: nat)
    requires 0 < cap
    ensures SafeSplit(buf, cap, 0) == if Back(buf, cap, 0, 0) == 0 then cap else Back(buf, cap, 0, 0)
  {
    hide Back;
  }

  lemma RunSplit(max: nat, full: seq<byte>, b: byte, next: seq<byte>, line: seq<byte>)
    requires 0 < max == |full| && |line| == SafeSplit(full + [b], max, 0)
    requires line == full[..|line|] && next == full[|line|..] + [b]
    ensures Run(max, full, [B(b)]).lines == [Line(line, true)] && Run(max, full, [B(b)]).tail == next
  {
    assert [B(b)][1..] == [];
  }

  // ----- Every stream -----

  /** The bytes of the first n tokens, up to the first that is not an ordinary byte. */
  function Lead(ts: seq<Token>, n: nat): (s: seq<byte>)
    ensures |s| <= |ts| && forall i :: 0 <= i < |s| ==> ts[i] == B(s[i])
    decreases n
  {
    if n == 0 || ts == [] || !ts[0].B? then [] else [ts[0].b] + Lead(ts[1..], n - 1)
  }

  /** Ordinary bytes between terminators form well-formed characters. */
  predicate Utf8Tokens(ts: seq<Token>)
    decreases |ts|
  {
    ts == [] ||
    if ts[0].B? then
      var k := CharLen(Lead(ts, 4));
      0 < k && Utf8Tokens(ts[k..])
    else Utf8Tokens(ts[1..])
  }

  predicate GoodLine(max: nat, l: Line) {
    Utf8(l.bytes) && |l.bytes| <= max && (l.partial ==> l.bytes != [])
  }

  /** A character at the front of the tokens. */
  lemma FrontChar(ts: seq<Token>) returns (c: seq<byte>)
    requires Utf8Tokens(ts) && ts != [] && ts[0].B?
    ensures 0 < CharLen(c) == |c| <= |ts| && Utf8(c)
    ensures ts == AsTokens(c) + ts[|c|..] && Utf8Tokens(ts[|c|..])
  {
    var k := CharLen(Lead(ts, 4));
    c := Lead(ts, 4)[..k];
    CharTake(Lead(ts, 4));
    Utf8Char(c);
    hide CharLen, Lead, Utf8;
    assert ts[..k] == AsTokens(c);
    assert ts == ts[..k] + ts[k..];
  }

  lemma {:induction false} RunUtf8(max: nat, tail: seq<byte>, ts: seq<Token>)
    requires 4 <= max && Utf8(tail) && |tail| <= max && Utf8Tokens(ts)
    ensures Utf8(Run(max, tail, ts).tail) && |Run(max, tail, ts).tail| <= max
    ensures forall l :: l in Run(max, tail, ts).lines ==> GoodLine(max, l)
    decreases |ts|
  {
    if ts == [] {
    } else if ts[0].B? {
      hide Run, Utf8, Utf8Tokens, CharLen, Lead, AsTokens;
      var c := FrontChar(ts);
      AddChar(max, tail, c);
      Utf8Append(tail, c);
      RunAppend(max, tail, AsTokens(c), ts[|c|..]);
      RunUtf8(max, Run(max, tail, AsTokens(c)).tail, ts[|c|..]);
    } else {
      hide Utf8, CharLen, Lead;
      RunUtf8(max, [], ts[1..]);
    }
  }

  /** ts reads s, with any CRLF taken either as one terminator or as a bare CR and a terminator. */
  ghost predicate Reads(s: seq<byte>, ts: seq<Token>)
    decreases |s|
  {
    if s == [] then ts == []
    else
      && ts != []
      && if s[0] == LF then ts[0].End? && Reads(s[1..], ts[1..])
         else if s[0] == CR then
           || (ts[0].Overwrite? && Reads(s[1..], ts[1..]))
           || (|s| > 1 && s[1] == LF && ts[0].End? && Reads(s[2..], ts[1..]))
         else ts[0] == B(s[0]) && Reads(s[1..], ts[1..])
  }

  lemma {:induction false} ReadsAppend(a: seq<byte>, x: seq<Token>, b: seq<byte>, y: seq<Token>)
    requires Reads(a, x) && Reads(b, y)
    ensures Reads(a + b, x + y)
    decreases |a|
  {
    if a == [] {
      assert a + b == b && x + y == y;
    } else {
      assert (a + b)[1..] == a[1..] + b && (x + y)[1..] == x[1..] + y;
      if a[0] == CR && !x[0].Overwrite? {
        assert (a + b)[2..] == a[2..] + b;
        ReadsAppend(a[2..], x[1..], b, y);
      } else {
        ReadsAppend(a[1..], x[1..], b, y);
      }
    }
  }

  lemma {:induction false} TokensRead(s: seq<byte>)
    ensures Reads(s, Tokens(s))
    decreases |s|
  {
    if s != [] {
      var ts := Tokens(s[TokenLen(s)..]);
      TokensRead(s[TokenLen(s)..]);
      assert ([FirstToken(s)] + ts)[1..] == ts;
    }
  }

  lemma {:induction false} ChunksRead(chunks: seq<seq<byte>>)
    ensures Reads(Flatten(chunks), ChunkTokens(chunks))
    decreases |chunks|
  {
    if chunks != [] {
      TokensRead(chunks[0]);
      ChunksRead(chunks[1..]);
      ReadsAppend(chunks[0], Tokens(chunks[0]), Flatten(chunks[1..]), ChunkTokens(chunks[1..]));
    }
  }

  lemma {:induction false} ReadsBytes(s: seq<byte>, ts: seq<Token>, k: nat)
    requires Reads(s, ts) && k <= |s| && forall i :: 0 <= i < k ==> s[i] != CR && s[i] != LF
    ensures k <= |ts| && Reads(s[k..], ts[k..])
    ensures forall i :: 0 <= i < k ==> ts[i] == B(s[i])
    decreases k
  {
    if k > 0 {
      ReadsBytes(s[1..], ts[1..], k - 1);
      assert s[1..][k - 1..] == s[k..] && ts[1..][k - 1..] == ts[k..];
      forall i | 0 <= i < k
        ensures ts[i] == B(s[i])
      {
        if i > 0 {
          assert ts[i] == ts[1..][i - 1] && s[i] == s[1..][i - 1];
        }
      }
    } else {
      assert s[0..] == s && ts[0..] == ts;
    }
  }

  lemma {:induction false} LeadTakes(s: seq<byte>, ts: seq<Token>, k: nat, n: nat)
    requires k <= n && k <= |s| && k <= |ts| && forall i :: 0 <= i < k ==> ts[i] == B(s[i])
    ensures s[..k] <= Lead(ts, n)
    decreases n
  {
    if k > 0 {
      assert forall i :: 0 <= i < k - 1 ==> ts[1..][i] == B(s[1..][i]);
      LeadTakes(s[1..], ts[1..], k - 1, n - 1);
      assert s[..k] == [s[0]] + s[1..][..k - 1];
    }
  }

  lemma {:induction false} ReadsUtf8(s: seq<byte>, ts: seq<Token>)
    requires Reads(s, ts) && Utf8(s)
    ensures Utf8Tokens(ts)
    decreases |s|
  {
    if s != [] {
      var k := CharLen(s);
      if s[0] == LF || s[0] == CR {
        if s[0] == CR && ts[0].End? {
          assert s[1..][1..] == s[2..];
          ReadsUtf8(s[2..], ts[1..]);
        } else {
          ReadsUtf8(s[1..], ts[1..]);
        }
      } else {
        CharBytes(s);
        ReadsBytes(s, ts, k);
        LeadTakes(s, ts, k, 4);
        CharTake(s);
        CharPrefix(s[..k], Lead(ts, 4));
        ReadsUtf8(s[k..], ts[k..]);
      }
    }
  }

  /**
   * Whatever the chunking of a valid UTF-8 stream, every line and the final flush is valid UTF-8 of at
   * most max bytes, and no forced split is empty.
   */
  lemma LinesAreUtf8(max: nat, chunks: seq<seq<byte>>)
    requires 4 <= max && Utf8(Flatten(chunks))
    ensures Utf8(FeedAll(max, [], chunks).tail) && |FeedAll(max, [], chunks).tail| <= max
    ensures forall l :: l in FeedAll(max, [], chunks).lines ==> GoodLine(max, l)
  {
    ChunksRead(chunks);
    ReadsUtf8(Flatten(chunks), ChunkTokens(chunks));
    RunUtf8(max, [], ChunkTokens(chunks));
    FeedAllIsRun(max, [], chunks);
  }

  /** The limit of four is exact: any smaller one cuts the four-byte character U+10000. */
  lemma SmallLimitCutsCharacter(max: nat)
    requires 0 < max < 4
    ensures var s: seq<byte> := [0xF0, 0x90, 0x80, 0x80];
            var lines := Run(max, [], Tokens(s)).lines;
            Utf8(s) && lines != [] && !Utf8(lines[0].bytes)
  {
    var s: seq<byte> := [0xF0, 0x90, 0x80, 0x80];
    var x, y, z := s[..max], s[max], s[max + 1..];
    FourBytes(s, max);
    hide *;
    SplitWhole(max, x, y, z);
    assert s == x + [y] + z;
  }

  /** A byte that does not fit behind x, where the split is at the limit, forces all of x out as a line. */
  lemma SplitWhole(max: nat, x: seq<byte>, y: byte, z: seq<byte>)
    requires 0 < max == |x| && SafeSplit(x + [y], max, 0) == max
    ensures var lines := Run(max, [], AsTokens(x + [y] + z)).lines;
            lines != [] && lines[0] == Line(x, true)
  {
    hide *;
    RunFits(max, [], x);
    assert [] + x == x && x[..max] == x;
    RunSplit(max, x, y, x[max..] + [y], x);
    RunTwo(max, [], AsTokens(x), [B(y)], AsTokens(z));
    TokensThree(x, y, z);
    FirstLine(Line(x, true), Run(max, x[max..] + [y], AsTokens(z)).lines);
  }

  lemma FirstLine(l: Line, rest: seq<Line>)
    ensures var lines := [] + [l] + rest; lines != [] && lines[0] == l
  {}

  /** The character itself is well-formed, no proper prefix of it is, and every split of it is at the limit. */
  lemma FourBytes(s: seq<byte>, max: nat)
    requires s == [0xF0, 0x90, 0x80, 0x80] && 0 < max < 4
    ensures Utf8(s) && !Utf8(s[..max]) && Tokens(s) == AsTokens(s)
    ensures SafeSplit(s[..max] + [s[max]], max, 0) == max
  {
    var x := s[..max];
    assert s[4..] == [];
    TokensOfBytes(s);
    assert CharLen(x) == 0;
    BackToFloor(x + [s[max]], max, 0);
  }

  lemma {:induction false} BackToFloor(buf: seq<byte>, off: nat, n: nat)
    requires off + n <= 3 && off < |buf| && forall i :: 0 < i < |buf| ==> Continuation(buf[i])
    ensures Back(buf, off, 0, n) == 0
    decreases off
  {
    if off > 0 {
      BackToFloor(buf, off - 1, n + 1);
    }
  }

  lemma {:induction false} TokensOfBytes(s: seq<byte>)
    requires CR !in s && LF !in s
    ensures Tokens(s) == AsTokens(s)
    decreases |s|
  {
    if s != [] {
      assert s[0] in s;
      TokensOfBytes(s[1..]);
      assert AsTokens(s) == [B(s[0])] + AsTokens(s[1..]);
    }
  }

  // ----- Rejoining -----

  function Rejoin(lines: seq<Line>): seq<byte> {
    if lines == [] then []
    else lines[0].bytes + (if lines[0].partial then [] else [LF]) + Rejoin(lines[1..])
  }

  function Content(ts: seq<Token>): seq<byte> {
    if ts == [] then []
    else (match ts[0] { case End => [LF] case Overwrite => [] case B(b) => [b] }) + Content(ts[1..])
  }

  lemma {:induction false} RejoinAppend(a: seq<Line>, b: seq<Line>)
    ensures Rejoin(a + b) == Rejoin(a) + Rejoin(b)
    decreases |a|
  {
    if a == [] {
      assert a + b == b;
    } else {
      assert (a + b)[1..] == a[1..] + b;
      RejoinAppend(a[1..], b);
    }
  }

  lemma {:induction false} RunRejoins(max: nat, tail: seq<byte>, ts: seq<Token>)
    requires 0 < max && Overwrite !in ts
    ensures Rejoin(Run(max, tail, ts).lines) + Run(max, tail, ts).tail == tail + Content(ts)
    decreases |ts|
  {
    if ts == [] {
      assert [] + tail == tail + [];
    } else {
      var a := Step(max, tail, ts[0]);
      var b := Run(max, a.tail, ts[1..]);
      StepRejoins(max, tail, ts[0]);
      RunRejoins(max, a.tail, ts[1..]);
      RejoinAppend(a.lines, b.lines);
      var item := match ts[0] { case End => [LF] case Overwrite => [] case B(b) => [b] };
      JoinTwice(Rejoin(a.lines), a.tail, Rejoin(b.lines), b.tail, tail, item, Content(ts[1..]));
    }
  }

  lemma JoinTwice<T>(x: seq<T>, xt: seq<T>, y: seq<T>, yt: seq<T>, tail: seq<T>, item: seq<T>, rest: seq<T>)
    requires x + xt == tail + item && y + yt == xt + rest
    ensures x + y + yt == tail + (item + rest)
  {
    assert x + y + yt == x + (y + yt) == x + xt + rest;
  }

  lemma StepRejoins(max: nat, tail: seq<byte>, t: Token)
    requires 0 < max && !t.Overwrite?
    ensures Rejoin(Step(max, tail, t).lines) + Step(max, tail, t).tail
         == tail + (match t { case End => [LF] case Overwrite => [] case B(b) => [b] })
  {
    var a := Step(max, tail, t);
    if a.lines != [] {
      assert a.lines[1..] == [];
    }
  }

  /** The text with every CRLF as LF. */
  function Unix(s: seq<byte>): seq<byte>
    decreases |s|
  {
    if s == [] then []
    else if TokenLen(s) == 2 then [LF] + Unix(s[2..])
    else [s[0]] + Unix(s[1..])
  }

  predicate NoBareCR(s: seq<byte>) {
    forall i :: 0 <= i < |s| && s[i] == CR ==> i + 1 < |s| && s[i + 1] == LF
  }

  lemma {:induction false} TokensUnix(s: seq<byte>)
    requires NoBareCR(s)
    ensures Overwrite !in Tokens(s) && Content(Tokens(s)) == Unix(s)
    decreases |s|
  {
    if s != [] {
      var rest := s[TokenLen(s)..];
      TokensUnix(rest);
      assert ([FirstToken(s)] + Tokens(rest))[1..] == Tokens(rest);
    }
  }

  /** Without bare CRs and without a cut that loses a line, nothing but the CRs of CRLFs is lost. */
  lemma LinesRejoin(max: nat, chunks: seq<seq<byte>>)
    requires 0 < max && NoBareCR(Flatten(chunks)) && CleanCuts([], chunks)
    ensures Rejoin(FeedAll(max, [], chunks).lines) + FeedAll(max, [], chunks).tail == Unix(Flatten(chunks))
  {
    ChunkIndependence(max, [], [], chunks);
    TokensUnix(Flatten(chunks));
    RunRejoins(max, [], Tokens(Flatten(chunks)));
    assert [] + Content(Tokens(Flatten(chunks))) == Content(Tokens(Flatten(chunks)));
  }
}
