/**
 * Highlights on a terminal with reverse video, two colours and other attributes: which styles outside the
 * matches survive, and for which lines all of them do.
 */
module HighlightColours {
  import opened Highlight
  import opened HighlightStyles
  import W = Wrap

  datatype Style<C, O> = Style(rev: bool, fg: C, bg: C, other: O)

  /** What every SGR instruction does to reverse video, foreground, background and the rest, and the clean values. */
  datatype Attributes<!C, !O> = Attributes(
    rev: (W.Token, bool) -> bool, fg: (W.Token, C) -> C, bg: (W.Token, C) -> C, other: (W.Token, O) -> O,
    plainFg: C, plainBg: C, black: C, yellow: C, clean: O)

  function TerminalOf<C, O>(a: Attributes<C, O>): W.Terminal<Style<C, O>> {
    W.Terminal(
      Style(false, a.plainFg, a.plainBg, a.clean),
      (t: W.Token, st: Style<C, O>) => Style(a.rev(t, st.rev), a.fg(t, st.fg), a.bg(t, st.bg), a.other(t, st.other)))
  }

  const REVERSE: W.Token := W.Escape("[7m")
  const UPRIGHT: W.Token := W.Escape("[27m")
  const ON_YELLOW: W.Token := W.Escape("[48;5;220m")
  const BLACK: W.Token := W.Escape("[30m")
  const PLAIN: W.Token := W.Escape("[39;49m")

  /** The five instructions of a highlight do what their numbers say (section 8.3.117 of ECMA-48), and nothing else. */
  ghost predicate Codes<C(!new), O(!new)>(a: Attributes<C, O>) {
    && (forall v: bool :: a.rev(REVERSE, v) && !a.rev(UPRIGHT, v))
    && (forall v: bool :: a.rev(ON_YELLOW, v) == v && a.rev(BLACK, v) == v && a.rev(PLAIN, v) == v)
    && (forall v: C :: a.fg(REVERSE, v) == v && a.fg(UPRIGHT, v) == v && a.fg(ON_YELLOW, v) == v)
    && (forall v: C :: a.fg(BLACK, v) == a.black && a.fg(PLAIN, v) == a.plainFg)
    && (forall v: C :: a.bg(REVERSE, v) == v && a.bg(UPRIGHT, v) == v && a.bg(BLACK, v) == v)
    && (forall v: C :: a.bg(ON_YELLOW, v) == a.yellow && a.bg(PLAIN, v) == a.plainBg)
    && (forall v: O :: a.other(REVERSE, v) == v && a.other(UPRIGHT, v) == v)
    && (forall v: O :: a.other(ON_YELLOW, v) == v && a.other(BLACK, v) == v && a.other(PLAIN, v) == v)
  }

  // ----- One highlight -----

  /** The attributes that a highlight of this kind never touches are the same. */
  predicate Alike<C(==), O(==)>(x: Style<C, O>, y: Style<C, O>, current: bool) {
    x.other == y.other && if current then x.rev == y.rev else x.fg == y.fg && x.bg == y.bg
  }

  /** The style behind a highlight, where st is the line's own. */
  function Ended<C, O>(a: Attributes<C, O>, st: Style<C, O>, current: bool): Style<C, O> {
    if current then st.(fg := a.plainFg, bg := a.plainBg) else st.(rev := false)
  }

  /** The style has nothing on that the end of a highlight turns off. */
  predicate Spared<C(==), O>(a: Attributes<C, O>, st: Style<C, O>, current: bool) {
    if current then st.fg == a.plainFg && st.bg == a.plainBg else !st.rev
  }

  /** Attributes that are the same stay the same through any line. */
  lemma {:induction false} AlikeAfter<C, O>(a: Attributes<C, O>, line: Line, x: Style<C, O>, y: Style<C, O>, current: bool)
    requires Alike(x, y, current)
    ensures Alike(W.StyleAfter(TerminalOf(a), line, x), W.StyleAfter(TerminalOf(a), line, y), current)
    decreases |line|
  {
    if line != [] {
      AlikeAfter(a, line[..|line| - 1], x, y, current);
    }
  }

  lemma Opens<C(!new), O(!new)>(a: Attributes<C, O>, st: Style<C, O>)
    requires Codes(a)
    ensures var term := TerminalOf(a);
            && Alike(term.apply(REVERSE, st), st, false)
            && Alike(term.apply(ON_YELLOW, st), st, true) && Alike(term.apply(BLACK, st), st, true)
  {}

  lemma Closes<C(!new), O(!new)>(a: Attributes<C, O>, st: Style<C, O>, h: Style<C, O>)
    requires Codes(a)
    ensures Alike(st, h, false) ==> TerminalOf(a).apply(UPRIGHT, st) == Ended(a, h, false)
    ensures Alike(st, h, true) ==> TerminalOf(a).apply(PLAIN, st) == Ended(a, h, true)
  {}

  lemma Instructions()
    ensures OnTokens(false) == [REVERSE] && OnTokens(true) == [ON_YELLOW, BLACK]
    ensures OffTokens(false) == [UPRIGHT] && OffTokens(true) == [PLAIN]
    ensures REVERSE.Escape? && UPRIGHT.Escape? && ON_YELLOW.Escape? && BLACK.Escape? && PLAIN.Escape?
  {}

  lemma StyleOfOne<S>(term: W.Terminal<S>, t: W.Token, st: S)
    requires t.Escape?
    ensures W.StyleAfter(term, [t], st) == term.apply(t, st)
  {
    assert [] + [t] == [t];
    W.StyleSnoc(term, [], t, st);
  }

  lemma StyleOfTwo<S>(term: W.Terminal<S>, t: W.Token, u: W.Token, st: S)
    requires t.Escape? && u.Escape?
    ensures W.StyleAfter(term, [t, u], st) == term.apply(u, term.apply(t, st))
  {
    assert [t] + [u] == [t, u];
    StyleOfOne(term, t, st);
    W.StyleSnoc(term, [t], u, st);
  }

  lemma OnStyle<C(!new), O(!new)>(a: Attributes<C, O>, st: Style<C, O>, current: bool)
    requires Codes(a)
    ensures Alike(W.StyleAfter(TerminalOf(a), OnTokens(current), st), st, current)
  {
    Instructions();
    hide *;
    var term := TerminalOf(a);
    Opens(a, st);
    if current {
      Opens(a, term.apply(ON_YELLOW, st));
      StyleOfTwo(term, ON_YELLOW, BLACK, st);
      AlikeTrans(term.apply(BLACK, term.apply(ON_YELLOW, st)), term.apply(ON_YELLOW, st), st, true);
    } else {
      StyleOfOne(term, REVERSE, st);
    }
  }

  lemma OffStyle<C(!new), O(!new)>(a: Attributes<C, O>, st: Style<C, O>, h: Style<C, O>, current: bool)
    requires Codes(a) && Alike(st, h, current)
    ensures W.StyleAfter(TerminalOf(a), OffTokens(current), st) == Ended(a, h, current)
  {
    Instructions();
    hide *;
    Closes(a, st, h);
    StyleOfOne(TerminalOf(a), if current then PLAIN else UPRIGHT, st);
  }

  /** Behind a highlighted match the style is the line's own, less reverse video or less both colours. */
  lemma MatchEnds<C(!new), O(!new)>(a: Attributes<C, O>, hit: Line, x: Style<C, O>, y: Style<C, O>, current: bool)
    requires Codes(a) && Alike(x, y, current)
    ensures W.StyleAfter(TerminalOf(a), OnTokens(current) + hit + OffTokens(current), x)
         == Ended(a, W.StyleAfter(TerminalOf(a), hit, y), current)
  {
    hide *;
    var term := TerminalOf(a);
    var on := W.StyleAfter(term, OnTokens(current), x);
    StyleAppend(term, OnTokens(current) + hit, OffTokens(current), x);
    StyleAppend(term, OnTokens(current), hit, x);
    OnStyle(a, x, current);
    AlikeTrans(on, x, y, current);
    AlikeAfter(a, hit, on, y, current);
    OffStyle(a, W.StyleAfter(term, hit, on), W.StyleAfter(term, hit, y), current);
  }

  lemma AlikeTrans<C, O>(x: Style<C, O>, y: Style<C, O>, z: Style<C, O>, current: bool)
    requires Alike(x, y, current) && Alike(y, z, current)
    ensures Alike(x, z, current)
  {}

  // ----- Inside a match -----

  lemma OnShows<C(!new), O(!new)>(a: Attributes<C, O>, st: Style<C, O>, current: bool)
    requires Codes(a)
    ensures var shown := W.StyleAfter(TerminalOf(a), OnTokens(current), st);
            if current then shown.fg == a.black && shown.bg == a.yellow else shown.rev
  {
    Instructions();
    hide W.StyleAfter, OnTokens;
    var term := TerminalOf(a);
    if current {
      StyleOfTwo(term, ON_YELLOW, BLACK, st);
    } else {
      StyleOfOne(term, REVERSE, st);
    }
  }

  lemma VisibleToken(s: string, seqs: seq<Loc>, p: nat)
    requires p < |s| && !Inside(seqs, p)
    ensures TokenAt(s, seqs, p) == [W.Vis(s[p])]
  {
    SeqAtIs(seqs, p);
    hide Inside, SeqAt;
  }

  lemma {:induction false} VisibleKeeps<S>(term: W.Terminal<S>, s: string, seqs: seq<Loc>, lo: nat, hi: nat, st: S)
    requires lo <= hi <= |s| && forall p :: lo <= p < hi ==> !Inside(seqs, p)
    ensures W.StyleAfter(term, TokensIn(s, seqs, lo, hi), st) == st
    decreases hi
  {
    hide *;
    TokensUnfold(s, seqs, lo, hi);
    if lo == hi {
      NothingKeeps(term, st);
    } else {
      VisibleKeeps(term, s, seqs, lo, hi - 1, st);
      VisibleToken(s, seqs, hi - 1);
      W.StyleSnoc(term, TokensIn(s, seqs, lo, hi - 1), W.Vis(s[hi - 1]), st);
    }
  }

  lemma NothingKeeps<S>(term: W.Terminal<S>, st: S)
    ensures W.StyleAfter(term, [], st) == st
  {}

  /**
   * In front of byte q of a match, up to the first escape sequence in it, a highlight shows: in reverse
   * video, or on the current line in black on yellow.
   */
  lemma MatchShows<C(!new), O(!new)>(a: Attributes<C, O>, s: string, seqs: seq<Loc>, ranges: seq<Loc>, k: nat, q: nat, current: bool)
    requires Codes(a) && Matches(ranges, |s|) && k < |ranges| && ranges[k].start <= q <= ranges[k].end
    requires forall p :: ranges[k].start <= p < q ==> !Inside(seqs, p)
    ensures var term, start := TerminalOf(a), ranges[k].start;
            var front := Front(s, seqs, ranges, k, start, current) + OnTokens(current) + TokensIn(s, seqs, start, q);
            var shown := W.StyleAfter(term, front, term.clean);
            if current then shown.fg == a.black && shown.bg == a.yellow else shown.rev
  {
    var term, start := TerminalOf(a), ranges[k].start;
    var front := Front(s, seqs, ranges, k, start, current);
    assert q <= |s|;
    hide *;
    StyleAppend(term, front + OnTokens(current), TokensIn(s, seqs, start, q), term.clean);
    StyleAppend(term, front, OnTokens(current), term.clean);
    OnShows(a, W.StyleAfter(term, front, term.clean), current);
    VisibleKeeps(term, s, seqs, start, q, W.StyleAfter(term, front + OnTokens(current), term.clean));
  }

  // ----- The attributes a highlight leaves alone -----

  lemma {:induction false} AlikeBehind<C(!new), O(!new)>(a: Attributes<C, O>, s: string, seqs: seq<Loc>, ranges: seq<Loc>, k: nat, current: bool)
    requires Codes(a) && Matches(ranges, |s|) && k <= |ranges|
    ensures var term := TerminalOf(a);
            Alike(W.StyleAfter(term, ShadedLine(s, seqs, ranges[..k], current), term.clean),
                  StyleAt(term, s, seqs, EndAt(ranges[..k])), current)
    decreases k, 0
  {
    var term := TerminalOf(a);
    if k == 0 {
      BehindNone(term, s, seqs, ranges, current);
    } else {
      var r := ranges[k - 1];
      GapBounds(ranges, |s|, k - 1);
      hide *;
      AlikeGap(a, s, seqs, ranges, k - 1, r.start, current);
      ShadedMore(s, seqs, ranges, k - 1, current);
      var front, hit := Front(s, seqs, ranges, k - 1, r.start, current), TokensIn(s, seqs, r.start, r.end);
      StyleAppend(term, front, OnTokens(current) + hit + OffTokens(current), term.clean);
      MatchEnds(a, hit, W.StyleAfter(term, front, term.clean), StyleAt(term, s, seqs, r.start), current);
      StyleOn(term, s, seqs, r.start, r.end);
      EndedAlike(a, StyleAt(term, s, seqs, r.end), current);
    }
  }

  lemma EndedAlike<C, O>(a: Attributes<C, O>, st: Style<C, O>, current: bool)
    ensures Alike(Ended(a, st, current), st, current)
  {}

  lemma StyleOn<S>(term: W.Terminal<S>, s: string, seqs: seq<Loc>, p: nat, q: nat)
    requires p <= q <= |s|
    ensures StyleAt(term, s, seqs, q) == W.StyleAfter(term, TokensIn(s, seqs, p, q), StyleAt(term, s, seqs, p))
  {
    hide W.StyleAfter, TokensIn;
    TokensSplit(s, seqs, 0, p, q);
    StyleAppend(term, TokensIn(s, seqs, 0, p), TokensIn(s, seqs, p, q), term.clean);
  }

  lemma {:induction false} AlikeGap<C(!new), O(!new)>(a: Attributes<C, O>, s: string, seqs: seq<Loc>, ranges: seq<Loc>, k: nat, p: nat, current: bool)
    requires Codes(a) && Matches(ranges, |s|) && InGap(ranges, k, |s|, p)
    ensures var term := TerminalOf(a);
            Alike(W.StyleAfter(term, Front(s, seqs, ranges, k, p, current), term.clean), StyleAt(term, s, seqs, p), current)
    decreases k, 1
  {
    hide *;
    var term := TerminalOf(a);
    GapStop(ranges, |s|, k, p);
    GapBounds(ranges, |s|, k);
    var end := EndAt(ranges[..k]);
    AlikeBehind(a, s, seqs, ranges, k, current);
    FrontStyle(term, s, seqs, ranges, k, p, current);
    StyleOn(term, s, seqs, end, p);
    AlikeAfter(a, TokensIn(s, seqs, end, p), W.StyleAfter(term, ShadedLine(s, seqs, ranges[..k], current), term.clean),
               StyleAt(term, s, seqs, end), current);
  }

  lemma FrontStyle<S>(term: W.Terminal<S>, s: string, seqs: seq<Loc>, ranges: seq<Loc>, k: nat, p: nat, current: bool)
    requires k <= |ranges|
    ensures W.StyleAfter(term, Front(s, seqs, ranges, k, p, current), term.clean)
         == W.StyleAfter(term, TokensIn(s, seqs, EndAt(ranges[..k]), p),
                         W.StyleAfter(term, ShadedLine(s, seqs, ranges[..k], current), term.clean))
  {
    hide W.StyleAfter, TokensIn, ShadedLine, EndAt;
    StyleAppend(term, ShadedLine(s, seqs, ranges[..k], current), TokensIn(s, seqs, EndAt(ranges[..k]), p), term.clean);
  }

  /**
   * On every line and everywhere outside the matches, highlights keep the line's own colours, those of the
   * current line its reverse video, and both all other attributes.
   */
  lemma OthersSurvive<C(!new), O(!new)>(a: Attributes<C, O>, s: string, seqs: seq<Loc>, ranges: seq<Loc>, k: nat, p: nat, current: bool)
    requires Codes(a) && Matches(ranges, |s|) && InGap(ranges, k, |s|, p)
    ensures var term := TerminalOf(a);
            var shown, own := W.StyleAfter(term, Front(s, seqs, ranges, k, p, current), term.clean), StyleAt(term, s, seqs, p);
            && (!current ==> shown.fg == own.fg && shown.bg == own.bg)
            && (current ==> shown.rev == own.rev)
            && shown.other == own.other
  {
    GapStop(ranges, |s|, k, p);
    AlikeGap(a, s, seqs, ranges, k, p, current);
    hide W.StyleAfter, Front, StyleAt, Codes, Matches, InGap;
  }

  // ----- When everything survives -----

  /** A match leaves no trace exactly if the line uses nothing behind it that the end of a highlight takes away. */
  lemma TraceOf<C(!new), O(!new)>(a: Attributes<C, O>, hit: Line, st: Style<C, O>, current: bool)
    requires Codes(a)
    ensures Transparent(TerminalOf(a), st, hit, current) <==> Spared(a, W.StyleAfter(TerminalOf(a), hit, st), current)
  {
    MatchEnds(a, hit, st, st, current);
    hide W.StyleAfter, OnTokens, OffTokens, Codes, TerminalOf;
  }

  /**
   * Everything outside the matches keeps its style if and only if the line's own reverse video is off behind
   * every match, or on the current line its own colours are the default ones behind every match.
   */
  lemma OutsideKept<C(!new), O(!new)>(a: Attributes<C, O>, s: string, seqs: seq<Loc>, ranges: seq<Loc>, current: bool)
    requires Codes(a) && Matches(ranges, |s|)
    ensures SameOutside(TerminalOf(a), s, seqs, ranges, current)
            <==> forall k :: 0 <= k < |ranges| ==> Spared(a, StyleAt(TerminalOf(a), s, seqs, ranges[k].end), current)
  {
    var term := TerminalOf(a);
    OutsideStyles(term, s, seqs, ranges, current);
    forall k | 0 <= k < |ranges|
      ensures Transparent(term, StyleAt(term, s, seqs, ranges[k].start), TokensIn(s, seqs, ranges[k].start, ranges[k].end), current)
              <==> Spared(a, StyleAt(term, s, seqs, ranges[k].end), current)
    {
      var r := ranges[k];
      GapBounds(ranges, |s|, k);
      hide *;
      StyleOn(term, s, seqs, r.start, r.end);
      TraceOf(a, TokensIn(s, seqs, r.start, r.end), StyleAt(term, s, seqs, r.start), current);
    }
    hide Transparent, TokensIn, StyleAt, SameOutside, Codes, Matches, TerminalOf, W.StyleAfter, Spared;
  }

  /** No escape sequence of the line turns on, from the clean style, what the end of a highlight turns off. */
  ghost predicate NeverUses<C, O>(a: Attributes<C, O>, s: string, seqs: seq<Loc>, current: bool) {
    forall k :: 0 <= k < |seqs| ==> Idles(a, W.Escape(Cut(s, seqs[k].start + 1, seqs[k].end)), current)
  }

  predicate Idles<C(==), O>(a: Attributes<C, O>, t: W.Token, current: bool) {
    if current then a.fg(t, a.plainFg) == a.plainFg && a.bg(t, a.plainBg) == a.plainBg else !a.rev(t, false)
  }

  /**
   * So highlights change nothing outside the matches of a line that never uses reverse video, and those of
   * the current line nothing outside the matches of a line without colours.
   */
  lemma UnusedIsKept<C(!new), O(!new)>(a: Attributes<C, O>, s: string, seqs: seq<Loc>, ranges: seq<Loc>, current: bool)
    requires Codes(a) && Matches(ranges, |s|) && NeverUses(a, s, seqs, current)
    ensures SameOutside(TerminalOf(a), s, seqs, ranges, current)
  {
    forall k | 0 <= k < |ranges| ensures Spared(a, StyleAt(TerminalOf(a), s, seqs, ranges[k].end), current) {
      GapBounds(ranges, |s|, k);
      hide *;
      SparedAt(a, s, seqs, ranges[k].end, current);
    }
    hide StyleAt, SameOutside, Codes, Matches, TerminalOf, Spared;
    OutsideKept(a, s, seqs, ranges, current);
  }

  lemma {:induction false} SparedAt<C, O>(a: Attributes<C, O>, s: string, seqs: seq<Loc>, p: nat, current: bool)
    requires p <= |s| && NeverUses(a, s, seqs, current)
    ensures Spared(a, StyleAt(TerminalOf(a), s, seqs, p), current)
    decreases p
  {
    var term := TerminalOf(a);
    if p == 0 {
      TokensUnfold(s, seqs, 0, 0);
    } else {
      SparedAt(a, s, seqs, p - 1, current);
      StyleOn(term, s, seqs, p - 1, p);
      OneToken(s, seqs, p - 1);
      EndOf(a, s, seqs, p - 1, current);
      hide *;
      SparedAfter(a, TokenAt(s, seqs, p - 1), StyleAt(term, s, seqs, p - 1), current);
    }
  }

  /** At most one token ends at a byte, and it turns nothing on. */
  lemma EndOf<C, O>(a: Attributes<C, O>, s: string, seqs: seq<Loc>, p: nat, current: bool)
    requires p < |s| && NeverUses(a, s, seqs, current)
    ensures |TokenAt(s, seqs, p)| <= 1
    ensures var end := TokenAt(s, seqs, p); end != [] ==> end[0].Vis? || Idles(a, end[0], current)
  {
    hide SeqAt, Cut, Idles;
  }

  lemma SparedAfter<C, O>(a: Attributes<C, O>, line: Line, st: Style<C, O>, current: bool)
    requires Spared(a, st, current) && |line| <= 1 && (line != [] ==> line[0].Vis? || Idles(a, line[0], current))
    ensures Spared(a, W.StyleAfter(TerminalOf(a), line, st), current)
  {
    if line != [] {
      assert [] + [line[0]] == line;
      W.StyleSnoc(TerminalOf(a), [], line[0], st);
    }
  }

  // ----- Lines that lose something -----

  const RED: W.Token := W.Escape("[31m")
  const BOLD: W.Token := W.Escape("[1m")

  predicate IsReset(t: W.Token) {
    t == W.RESET || t == W.SHORT_RESET
  }

  /** A terminal with numbered colours, -1 the default one; the other attribute is bold. */
  const ANSI: Attributes<int, bool> := Attributes(
    (t: W.Token, v: bool) => if t == REVERSE then true else if t == UPRIGHT || IsReset(t) then false else v,
    (t: W.Token, v: int) => if t == BLACK then 0 else if t == RED then 1 else if t == PLAIN || IsReset(t) then -1 else v,
    (t: W.Token, v: int) => if t == ON_YELLOW then 220 else if t == PLAIN || IsReset(t) then -1 else v,
    (t: W.Token, v: bool) => if t == BOLD then true else if IsReset(t) then false else v,
    -1, -1, 0, 220, false)

  lemma AnsiCodes()
    ensures Codes(ANSI)
  {
    AllDiffer();
    NoResets();
    hide IsReset;
  }

  lemma AllDiffer()
    ensures REVERSE !in [UPRIGHT, ON_YELLOW, BLACK, PLAIN, RED, BOLD] && UPRIGHT !in [ON_YELLOW, BLACK, PLAIN, RED, BOLD]
    ensures ON_YELLOW !in [BLACK, PLAIN, RED, BOLD] && BLACK !in [PLAIN, RED, BOLD] && PLAIN !in [RED, BOLD] && RED != BOLD
  {
    assert REVERSE.tail[1] == '7' && UPRIGHT.tail[1] == '2' && ON_YELLOW.tail[1] == '4' && BOLD.tail[1] == '1';
    assert BLACK.tail[1..3] == "30" && PLAIN.tail[1..3] == "39" && RED.tail[1..3] == "31";
  }

  lemma NoResets()
    ensures !IsReset(REVERSE) && !IsReset(UPRIGHT) && !IsReset(ON_YELLOW) && !IsReset(BLACK)
    ensures !IsReset(PLAIN) && !IsReset(RED) && !IsReset(BOLD)
  {
    assert |W.RESET.tail| == 3 && W.RESET.tail[1] == '0' && |W.SHORT_RESET.tail| == 2;
    assert |REVERSE.tail| == 3 && REVERSE.tail[1] == '7' && |BOLD.tail| == 3 && BOLD.tail[1] == '1';
    assert |UPRIGHT.tail| == |BLACK.tail| == |RED.tail| == 4 && |PLAIN.tail| == 7 && |ON_YELLOW.tail| == 10;
  }

  /** The text "ab" behind one instruction. */
  function After(code: string): string {
    "\U{1b}" + code + "ab"
  }

  /** The text, its one escape sequence and a match on "a". */
  lemma AfterTokens(code: string)
    ensures var s, seqs, n := After(code), [Loc(0, |code| + 1)], |code| + 1;
            && |s| == n + 2 && Escapes(seqs, 0, |s|) && Matches([Loc(n, n + 1)], |s|)
            && TokensIn(s, seqs, 0, n + 1) == [W.Escape(code), W.Vis('a')]
  {
    var s, seqs, n := After(code), [Loc(0, |code| + 1)], |code| + 1;
    forall p: nat ensures SeqAt(seqs, p) == if p < n then 0 else -1 {
      assert SeqAt([], p) == -1 && seqs[..0] == [];
    }
    assert Cut(s, 1, n) == code;
    assert TokenAt(s, seqs, n - 1) == [W.Escape(code)] && TokenAt(s, seqs, n) == [W.Vis('a')];
    NoTokens(s, seqs, n, n - 1);
    TokensUnfold(s, seqs, 0, n);
    TokensUnfold(s, seqs, 0, n + 1);
  }

  /** In front of the last byte of its sequence nothing is complete. */
  lemma {:induction false} NoTokens(s: string, seqs: seq<Loc>, n: nat, p: nat)
    requires p < n <= |s| && seqs == [Loc(0, n)] && forall q: nat :: SeqAt(seqs, q) == if q < n then 0 else -1
    ensures TokensIn(s, seqs, 0, p) == []
    decreases p
  {
    TokensUnfold(s, seqs, 0, p);
    if p > 0 {
      NoTokens(s, seqs, n, p - 1);
    }
  }

  /** The own style of "b". */
  lemma OwnStyle(code: string)
    ensures var term, n := TerminalOf(ANSI), |code| + 1;
            StyleAt(term, After(code), [Loc(0, n)], n + 1) == term.apply(W.Escape(code), term.clean)
  {
    var term, esc := TerminalOf(ANSI), W.Escape(code);
    AfterTokens(code);
    hide W.StyleAfter, TokensIn, TerminalOf, After, Escapes, Matches, ANSI;
    StyleOfOne(term, esc, term.clean);
    StyleAppend(term, [esc], [W.Vis('a')], term.clean);
    StyleOfByte(term, 'a', term.apply(esc, term.clean));
    assert [esc] + [W.Vis('a')] == [esc, W.Vis('a')];
  }

  lemma StyleOfByte<S>(term: W.Terminal<S>, c: char, st: S)
    ensures W.StyleAfter(term, [W.Vis(c)], st) == st
  {
    assert [] + [W.Vis(c)] == [W.Vis(c)];
    W.StyleSnoc(term, [], W.Vis(c), st);
  }

  lemma AnsiStyles()
    ensures TerminalOf(ANSI).apply(REVERSE, TerminalOf(ANSI).clean) == Style(true, -1, -1, false)
    ensures TerminalOf(ANSI).apply(RED, TerminalOf(ANSI).clean) == Style(false, 1, -1, false)
  {
    AllDiffer();
    NoResets();
    hide IsReset;
  }

  /** "ab" in reverse video, with a match on "a": the end of the highlight ends the reverse video of "b" too. */
  lemma OwnReverseEnds()
    ensures Escapes([Loc(0, 4)], 0, |After("[7m")|) && Matches([Loc(4, 5)], |After("[7m")|)
    ensures StyleAt(TerminalOf(ANSI), After("[7m"), [Loc(0, 4)], 5) == Style(true, -1, -1, false)
    ensures !SameOutside(TerminalOf(ANSI), After("[7m"), [Loc(0, 4)], [Loc(4, 5)], false)
  {
    AnsiCodes();
    AnsiStyles();
    AfterTokens("[7m");
    OwnStyle("[7m");
    hide StyleAt, SameOutside, Codes, TerminalOf, ANSI, After;
    Lost("[7m", false);
  }

  /** Red "ab", with the current match on "a": the end of the highlight ends the red of "b" too. */
  lemma OwnColourEnds()
    ensures Escapes([Loc(0, 5)], 0, |After("[31m")|) && Matches([Loc(5, 6)], |After("[31m")|)
    ensures StyleAt(TerminalOf(ANSI), After("[31m"), [Loc(0, 5)], 6) == Style(false, 1, -1, false)
    ensures !SameOutside(TerminalOf(ANSI), After("[31m"), [Loc(0, 5)], [Loc(5, 6)], true)
  {
    AnsiCodes();
    AnsiStyles();
    AfterTokens("[31m");
    OwnStyle("[31m");
    hide StyleAt, SameOutside, Codes, TerminalOf, ANSI, After;
    Lost("[31m", true);
  }

  lemma Lost(code: string, current: bool)
    requires var b := StyleAt(TerminalOf(ANSI), After(code), [Loc(0, |code| + 1)], |code| + 2);
             if current then b.fg == 1 else b.rev
    ensures !SameOutside(TerminalOf(ANSI), After(code), [Loc(0, |code| + 1)], [Loc(|code| + 1, |code| + 2)], current)
  {
    AnsiCodes();
    AfterTokens(code);
    var ranges := [Loc(|code| + 1, |code| + 2)];
    assert ranges[0].end == |code| + 2 && ANSI.plainFg == -1;
    hide StyleAt, SameOutside, Codes, TerminalOf, ANSI, After;
    OutsideKept(ANSI, After(code), [Loc(0, |code| + 1)], ranges, current);
  }
}
