/** What the line splitter guarantees over a whole stream, however it is cut into chunks. */
module LineBufferLaws {
  import opened Bytes
  import opened Seqs
  import opened LineBuffers

  /** The tokens seen when each chunk is fed on its own. */
  function ChunkTokens(chunks: seq<seq<byte>>): seq<Token> {
    if chunks == [] then [] else Tokens(chunks[0]) + ChunkTokens(chunks[1..])
  }

  /** Feeding the chunks one after the other, as the Feed contract chains them. */
  function FeedAll(max: nat, tail: seq<byte>, chunks: seq<seq<byte>>): Out
    requires 0 < max
    decreases |chunks|
  {
    if chunks == [] then Out([], tail)
    else
      var a := Run(max, tail, Tokens(chunks[0]));
      var b := FeedAll(max, a.tail, chunks[1..]);
      Out(a.lines + b.lines, b.tail)
  }

  lemma {:induction false} FeedAllIsRun(max: nat, tail: seq<byte>, chunks: seq<seq<byte>>)
    requires 0 < max
    ensures FeedAll(max, tail, chunks).lines == Run(max, tail, ChunkTokens(chunks)).lines
    ensures FeedAll(max, tail, chunks).tail == Run(max, tail, ChunkTokens(chunks)).tail
    decreases |chunks|
  {
    if chunks != [] {
      FeedAllIsRun(max, Run(max, tail, Tokens(chunks[0])).tail, chunks[1..]);
      RunAppend(max, tail, Tokens(chunks[0]), ChunkTokens(chunks[1..]));
    }
  }

  // ----- Chunk independence -----

  predicate EndsCR(s: seq<byte>) {
    s != [] && s[|s| - 1] == CR
  }

  predicate StartsLF(s: seq<byte>) {
    s != [] && s[0] == LF
  }

  /** No text has been collected since the last terminator or bare CR. */
  predicate AtLineStart(s: seq<byte>) {
    s == [] || s[|s| - 1] == LF || s[|s| - 1] == CR
  }

  /** A cut between a CR and its LF that makes the splitter drop the line they terminate. */
  predicate LosesLine(before: seq<byte>, after: seq<byte>) {
    EndsCR(before) && StartsLF(after) && !AtLineStart(before[..|before| - 1])
  }

  /** No cut between chunks, all of them after the text already fed, loses a line. */
  predicate CleanCuts(fed: seq<byte>, chunks: seq<seq<byte>>)
    decreases |chunks|
  {
    chunks == [] ||
    (!(chunks[0] != [] && LosesLine(fed + chunks[0], Flatten(chunks[1..]))) && CleanCuts(fed + chunks[0], chunks[1..]))
  }

  /** A cut anywhere else leaves the tokens alone. */
  lemma {:induction false} TokensAppend(a: seq<byte>, b: seq<byte>)
    requires !(EndsCR(a) && StartsLF(b))
    ensures Tokens(a + b) == Tokens(a) + Tokens(b)
    decreases |a|
  {
    if a == [] {
      assert a + b == b;
    } else {
      var n := TokenLen(a);
      FirstSame(a, b);
      assert (a + b)[n..] == a[n..] + b;
      RestEnds(a, n, b);
      TokensAppend(a[n..], b);
      TokensUnfold(a);
      TokensUnfold(a + b);
      hide *;
      Regroup([FirstToken(a)], Tokens(a[n..]), Tokens(b));
    }
  }

  lemma FirstSame(a: seq<byte>, b: seq<byte>)
    requires a != [] && !(EndsCR(a) && StartsLF(b))
    ensures TokenLen(a + b) == TokenLen(a) && FirstToken(a + b) == FirstToken(a)
  {
    assert (a + b)[0] == a[0] && (|a| > 1 ==> (a + b)[1] == a[1]);
    assert |a| == 1 && b != [] ==> (a + b)[1] == b[0];
  }

  lemma RestEnds(a: seq<byte>, n: nat, b: seq<byte>)
    requires 0 < n <= |a| && !(EndsCR(a) && StartsLF(b))
    ensures !(EndsCR(a[n..]) && StartsLF(b))
  {
    if a[n..] != [] {
      assert a[n..][|a[n..]| - 1] == a[|a| - 1];
    }
  }

  lemma TokensUnfold(s: seq<byte>)
    requires s != []
    ensures Tokens(s) == [FirstToken(s)] + Tokens(s[TokenLen(s)..])
  {
    hide TokenLen, FirstToken;
  }

  lemma CrLfTokens(rest: seq<byte>)
    ensures Tokens([CR]) == [Overwrite]
    ensures Tokens([LF] + rest) == [End] + Tokens(rest)
    ensures Tokens([CR, LF] + rest) == [End] + Tokens(rest)
  {
    assert [CR][1..] == [] && ([LF] + rest)[1..] == rest && ([CR, LF] + rest)[2..] == rest;
  }

  /** The same text, cut between a CR and its LF: a bare CR, then a terminator. */
  lemma TokensCut(head: seq<byte>, rest: seq<byte>)
    ensures Tokens(head + [CR]) + Tokens([LF] + rest) == Tokens(head) + [Overwrite, End] + Tokens(rest)
    ensures Tokens(head + [CR] + ([LF] + rest)) == Tokens(head) + [End] + Tokens(rest)
  {
    hide Tokens, TokenLen, FirstToken;
    CrLfTokens(rest);
    TokensAppend(head, [CR]);
    TokensAppend(head, [CR, LF] + rest);
    assert head + [CR] + ([LF] + rest) == head + ([CR, LF] + rest);
    hide *;
    var h, t := Tokens(head), Tokens(rest);
    assert h + [Overwrite] + ([End] + t) == h + [Overwrite, End] + t;
    Regroup(h, [End], t);
  }

  /** Each line is the same, except that some may have been lost and replaced by an empty one. */
  ghost predicate Blanked(x: seq<Line>, y: seq<Line>) {
    |x| == |y| && forall i :: 0 <= i < |x| ==> x[i] == y[i] || x[i] == Line([], false)
  }

  /** What cutting a stream once into a and b does to its outcome. */
  ghost predicate CutEffect(max: nat, tail: seq<byte>, a: seq<byte>, b: seq<byte>, same: bool)
    requires 0 < max
  {
    var cut := Run(max, tail, Tokens(a) + Tokens(b));
    var whole := Run(max, tail, Tokens(a + b));
    && cut.tail == whole.tail
    && Blanked(cut.lines, whole.lines)
    && (cut.lines == whole.lines <==> same)
  }

  lemma CutInside(max: nat, tail: seq<byte>, fed: seq<byte>, head: seq<byte>, rest: seq<byte>)
    requires 0 < max && (tail == [] <==> AtLineStart(fed))
    ensures CutEffect(max, tail, head + [CR], [LF] + rest, AtLineStart(fed + head))
  {
    hide Tokens, Run, Blanked, AtLineStart;
    TokensCut(head, rest);
    TailByBytes(max, tail, fed, head);
    CutLines(max, tail, Tokens(head), Tokens(rest));
  }

  /** Cutting once: the same tail, and the same lines exactly unless the cut loses one. */
  lemma CutOnce(max: nat, tail: seq<byte>, fed: seq<byte>, a: seq<byte>, b: seq<byte>)
    requires 0 < max && (tail == [] <==> AtLineStart(fed))
    ensures CutEffect(max, tail, a, b, !(a != [] && LosesLine(fed + a, b)))
  {
    assert a != [] ==> (fed + a)[|fed + a| - 1] == a[|a| - 1];
    if EndsCR(a) && StartsLF(b) {
      var head := a[..|a| - 1];
      CutInside(max, tail, fed, head, b[1..]);
      assert a == head + [CR] && b == [LF] + b[1..];
      assert (fed + a)[..|fed + a| - 1] == fed + head;
    } else {
      TokensAppend(a, b);
    }
  }

  /** A bare CR and a terminator in place of a terminator: one line is blanked, if it was not blank. */
  lemma CutLines(max: nat, tail: seq<byte>, head: seq<Token>, rest: seq<Token>)
    requires 0 < max
    ensures var cut := Run(max, tail, head + [Overwrite, End] + rest);
            var whole := Run(max, tail, head + [End] + rest);
            && cut.tail == whole.tail
            && Blanked(cut.lines, whole.lines)
            && (cut.lines == whole.lines <==> Run(max, tail, head).tail == [])
  {
    var h, o := Run(max, tail, head), Run(max, [], rest);
    RunTwo(max, tail, head, [End], rest);
    RunTwo(max, tail, head, [Overwrite, End], rest);
    RunOverwriteEnd(max, h.tail);
    RunOne(max, h.tail);
    hide *;
    OneBlanked(h.lines, h.tail, o.lines);
  }

  lemma OneBlanked(before: seq<Line>, text: seq<byte>, after: seq<Line>)
    ensures var x, y := before + [Line([], false)] + after, before + [Line(text, false)] + after;
            Blanked(x, y) && (x == y <==> text == [])
  {
    assert (before + [Line([], false)] + after)[|before|] == Line([], false);
    assert (before + [Line(text, false)] + after)[|before|] == Line(text, false);
  }

  lemma RunTwo(max: nat, tail: seq<byte>, x: seq<Token>, y: seq<Token>, z: seq<Token>)
    requires 0 < max
    ensures var a := Run(max, tail, x);
            var b := Run(max, a.tail, y);
            && Run(max, tail, x + y + z).lines == a.lines + b.lines + Run(max, b.tail, z).lines
            && Run(max, tail, x + y + z).tail == Run(max, b.tail, z).tail
  {
    RunAppend(max, tail, x + y, z);
    RunAppend(max, tail, x, y);
  }

  lemma RunOverwriteEnd(max: nat, tail: seq<byte>)
    requires 0 < max
    ensures Run(max, tail, [Overwrite, End]).lines == [Line([], false)]
    ensures Run(max, tail, [Overwrite, End]).tail == []
  {
    assert [Overwrite, End][1..] == [End];
    RunOne(max, []);
  }

  lemma RunOne(max: nat, tail: seq<byte>)
    requires 0 < max
    ensures Run(max, tail, [End]).lines == [Line(tail, false)]
    ensures Run(max, tail, [End]).tail == []
  {
    assert [End][1..] == [];
  }

  /** The collected text is empty exactly after a terminator or bare CR. */
  lemma {:induction false} TailByBytes(max: nat, tail: seq<byte>, fed: seq<byte>, a: seq<byte>)
    requires 0 < max && (tail == [] <==> AtLineStart(fed))
    ensures Run(max, tail, Tokens(a)).tail == [] <==> AtLineStart(fed + a)
    decreases |a|
  {
    if a == [] {
      assert fed + a == fed;
    } else {
      var n := if a[0] == CR && |a| > 1 && a[1] == LF then 2 else 1;
      var ts := Tokens(a[n..]);
      var t := if n == 2 || a[0] == LF then End else if a[0] == CR then Overwrite else B(a[0]);
      assert Tokens(a) == [t] + ts;
      assert ([t] + ts)[1..] == ts;
      assert fed + a[..n] + a[n..] == fed + a;
      assert (fed + a[..n])[|fed + a[..n]| - 1] == a[n - 1];
      TailByBytes(max, Step(max, tail, t).tail, fed + a[..n], a[n..]);
    }
  }

  /**
   * Any chunking of a stream retains the same tail as feeding it whole, and gives the same lines
   * exactly when no cut falls between a CR and its LF with text waiting in front of them.
   */
  lemma {:induction false} ChunkIndependence(max: nat, tail: seq<byte>, fed: seq<byte>, chunks: seq<seq<byte>>)
    requires 0 < max && TailOk(max, tail) && (tail == [] <==> AtLineStart(fed))
    ensures var cut := FeedAll(max, tail, chunks);
            var whole := Run(max, tail, Tokens(Flatten(chunks)));
            && cut.tail == whole.tail
            && Blanked(cut.lines, whole.lines)
            && (cut.lines == whole.lines <==> CleanCuts(fed, chunks))
    decreases |chunks|
  {
    if chunks != [] {
      var a, rest := chunks[0], chunks[1..];
      var b := Flatten(rest);
      var first := Run(max, tail, Tokens(a));
      TailByBytes(max, tail, fed, a);
      FeedTail(max, tail, a);
      ChunkIndependence(max, first.tail, fed + a, rest);
      CutOnce(max, tail, fed, a, b);
      RunAppend(max, tail, Tokens(a), Tokens(b));
      BlankedTrans(first.lines, FeedAll(max, first.tail, rest).lines, Run(max, first.tail, Tokens(b)).lines,
                   Run(max, tail, Tokens(a + b)).lines);
    }
  }

  lemma BlankedTrans(p: seq<Line>, x: seq<Line>, y: seq<Line>, z: seq<Line>)
    requires Blanked(x, y) && Blanked(p + y, z)
    ensures Blanked(p + x, z)
    ensures p + x == z <==> x == y && p + y == z
  {
    forall i | 0 <= i < |p + x|
      ensures (p + x)[i] == z[i] || (p + x)[i] == Line([], false)
    {
      if i >= |p| {
        assert (p + y)[i] == y[i - |p|] && (p + x)[i] == x[i - |p|];
      } else {
        assert (p + x)[i] == (p + y)[i];
      }
    }
    if p + x == z {
      forall i | 0 <= i < |x|
        ensures x[i] == y[i]
      {
        assert (p + x)[|p| + i] == x[i] && (p + y)[|p| + i] == y[i];
      }
    }
  }

  /** The cut that loses a line: "a", CR | LF yields an empty line instead of "a". */
  lemma SplitCrLfLosesLine()
    ensures FeedAll(8, [], [[0x61, CR], [LF]]).lines != Run(8, [], Tokens(Flatten([[0x61, CR], [LF]]))).lines
  {
    var chunks: seq<seq<byte>> := [[0x61, CR], [LF]];
    assert chunks[1..] == [[LF]] && [[LF]][1..] == [];
    assert [LF] + [] == [LF];
    assert Flatten([[LF]]) == [LF];
    assert !CleanCuts([], chunks) by {
      assert [] + chunks[0] == chunks[0];
    }
    ChunkIndependence(8, [], [], chunks);
  }
}
