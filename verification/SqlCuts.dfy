/**
 * Where the SQL formatter breaks a text and which rows it indents, told by quoted pieces, parentheses and
 * the listed keywords, without the scan.
 */
module SqlCuts {
  import opened Seqs
  import opened Sql
  import opened SqlLaws
  import opened Words

  // ----- Keywords -----

  /** c is the capital k or its small letter; anything else has to be the same byte. */
  predicate SameLetter(c: char, k: char) {
    c == k || ('A' <= k <= 'Z' && 'a' <= c <= 'z' && c as int - 'a' as int == k as int - 'A' as int)
  }

  /** A digit, a capital, an underscore or a small letter, by ASCII code. */
  predicate WordByte(c: char) {
    48 <= c as int <= 57 || 65 <= c as int <= 90 || c as int == 95 || 97 <= c as int <= 122
  }

  /** The keyword stands at s[i] in any letter case, and no word byte follows it. */
  predicate StandsAt(s: string, i: nat, kw: string) {
    && i + |kw| <= |s|
    && (forall j :: 0 <= j < |kw| ==> SameLetter(s[i + j], kw[j]))
    && (i + |kw| < |s| ==> !WordByte(s[i + |kw|]))
  }

  predicate AnyAt(s: string, i: nat, kws: seq<string>) {
    exists k :: 0 <= k < |kws| && StandsAt(s, i, kws[k])
  }

  lemma SameIsFold(c: char, k: char)
    requires k == ' ' || 'A' <= k <= 'Z'
    ensures Upper(c) == Upper(k) <==> SameLetter(c, k)
  {}

  lemma HitStands(s: string, i: nat, kw: string)
    requires Spelled(kw)
    ensures Hit(s, i, kw) <==> StandsAt(s, i, kw)
  {
    if i + |kw| <= |s| {
      var cand := s[i..i + |kw|];
      forall j | 0 <= j < |kw| ensures Upper(cand[j]) == Upper(kw[j]) <==> SameLetter(s[i + j], kw[j]) {
        SameIsFold(s[i + j], kw[j]);
      }
      hide Upper, SameLetter;
    }
  }

  /** The first keyword of a list that stands there, by its place in the list. */
  ghost predicate FirstAt(s: string, i: nat, kws: seq<string>, k: int) {
    0 <= k < |kws| && StandsAt(s, i, kws[k]) && forall j :: 0 <= j < k ==> !StandsAt(s, i, kws[j])
  }

  lemma {:induction false} FirstHitStands(s: string, i: nat, kws: seq<string>) returns (k: int)
    requires forall j :: 0 <= j < |kws| ==> Spelled(kws[j]) && kws[j] != ""
    ensures FirstHit(s, i, kws) > 0 <==> AnyAt(s, i, kws)
    ensures AnyAt(s, i, kws) ==> FirstAt(s, i, kws, k) && FirstHit(s, i, kws) == |kws[k]|
    decreases |kws|
  {
    k := 0;
    if kws != [] {
      HitStands(s, i, kws[0]);
      hide Spelled, StandsAt, Hit;
      if !Hit(s, i, kws[0]) {
        var j := FirstHitStands(s, i, kws[1..]);
        k := j + 1;
        if AnyAt(s, i, kws) {
          var m :| 0 <= m < |kws| && StandsAt(s, i, kws[m]);
          assert kws[1..][m - 1] == kws[m];
        }
        assert forall m :: 0 <= m < |kws| - 1 ==> kws[1..][m] == kws[m + 1];
        if AnyAt(s, i, kws[1..]) {
          assert StandsAt(s, i, kws[k]);
          forall m | 0 <= m < k ensures !StandsAt(s, i, kws[m]) {
            assert m > 0 ==> kws[m] == kws[1..][m - 1];
          }
        }
      }
    }
  }

  /** The formatter sees a keyword exactly where one of the lists stands, and takes it for a top one exactly where that list does. */
  lemma KeywordStands(s: string, i: nat)
    ensures KeywordAt(s, i).0 > 0 <==> AnyAt(s, i, TOP_KEYWORDS) || AnyAt(s, i, SUB_KEYWORDS)
    ensures KeywordAt(s, i).0 > 0 ==> (!KeywordAt(s, i).1 <==> AnyAt(s, i, TOP_KEYWORDS))
    ensures KeywordAt(s, i).0 > 0 ==> exists kw :: kw in TOP_KEYWORDS + SUB_KEYWORDS && StandsAt(s, i, kw) && KeywordAt(s, i).0 == |kw|
  {
    KeywordsSpelled();
    KeywordsWellSpelled();
    hide Spelled, FirstHit, StandsAt, TOP_KEYWORDS, SUB_KEYWORDS;
    var k := FirstHitStands(s, i, TOP_KEYWORDS);
    var m := FirstHitStands(s, i, SUB_KEYWORDS);
    if AnyAt(s, i, TOP_KEYWORDS) {
      assert TOP_KEYWORDS[k] in TOP_KEYWORDS + SUB_KEYWORDS;
    } else if AnyAt(s, i, SUB_KEYWORDS) {
      assert SUB_KEYWORDS[m] in TOP_KEYWORDS + SUB_KEYWORDS;
    }
  }

  // ----- Outside quotes and parentheses -----

  /** A byte outside quotes, or a quoted piece of text with both its quotes; a doubled quote ends one and starts the next. */
  datatype Piece = Bare(c: char) | Quoted(text: string)

  predicate WellFormed(p: Piece) {
    match p
    case Bare(c) => c != '\'' && c != '\"' && c != '`'
    case Quoted(t) =>
      && |t| >= 2 && (t[0] == '\'' || t[0] == '\"' || t[0] == '`')
      && t[|t| - 1] == t[0] && forall j :: 0 < j < |t| - 1 ==> t[j] != t[0]
  }

  function Joined(ps: seq<Piece>): string {
    if ps == [] then ""
    else
      var p := ps[|ps| - 1];
      Joined(ps[..|ps| - 1]) + if p.Bare? then [p.c] else p.text
  }

  /** What lies outside the quotes. */
  function Outside(ps: seq<Piece>): string {
    if ps == [] then ""
    else
      var p := ps[|ps| - 1];
      Outside(ps[..|ps| - 1]) + if p.Bare? then [p.c] else ""
  }

  /** How many more parentheses open than close. */
  function Balance(t: string): int {
    if t == "" then 0
    else
      var c := t[|t| - 1];
      Balance(t[..|t| - 1]) + if c == '(' then 1 else if c == ')' then -1 else 0
  }

  /** Up to its end, no part of the text opens more parentheses than it closes: none is open at the end. */
  ghost predicate NoneOpen(t: string) {
    forall j :: 0 <= j <= |t| ==> Balance(t[j..]) <= 0
  }

  ghost predicate Pieces(ps: seq<Piece>, t: string) {
    Joined(ps) == t && forall k :: 0 <= k < |ps| ==> WellFormed(ps[k])
  }

  /** The text ends outside quotes and parentheses. */
  ghost predicate EndsOutside(t: string) {
    exists ps :: Pieces(ps, t) && NoneOpen(Outside(ps))
  }

  /** The parentheses left open, where one that closes nothing is passed over. */
  function Depth(t: string): nat {
    if t == "" then 0
    else
      var c, d := t[|t| - 1], Depth(t[..|t| - 1]);
      if c == '(' then d + 1 else if c == ')' && d > 0 then d - 1 else d
  }

  /** It is the greatest number by which a part up to the end opens more than it closes. */
  lemma {:induction false} DepthIsGreatest(t: string) returns (j: nat)
    ensures j <= |t| && Balance(t[j..]) == Depth(t)
    ensures forall i :: 0 <= i <= |t| ==> Balance(t[i..]) <= Depth(t)
    decreases |t|
  {
    j := |t|;
    assert t[|t|..] == "";
    if t != "" {
      var init := t[..|t| - 1];
      var k := DepthIsGreatest(init);
      forall i | 0 <= i < |t| ensures t[i..][..|t| - i - 1] == init[i..] {}
      if Balance(t[k..]) == Depth(t) {
        j := k;
      }
    }
  }

  lemma DepthNone(t: string)
    ensures Depth(t) == 0 <==> NoneOpen(t)
  {
    var j := DepthIsGreatest(t);
    hide Depth, Balance;
  }

  lemma {:induction false} ModePrefix(s: string, n: nat, m: nat)
    requires m <= n <= |s|
    ensures Mode(s, m) == Mode(s[..n], m)
  {
    if m > 0 {
      ModePrefix(s, n, m - 1);
    }
  }

  /** What one more byte does to the mode. */
  function Turned(mode: (char, nat), c: char): (char, nat) {
    if mode.0 != NO_QUOTE then (if c == mode.0 then NO_QUOTE else mode.0, mode.1)
    else if IsQuote(c) then (c, mode.1)
    else (NO_QUOTE, if c == '(' then mode.1 + 1 else if c == ')' && mode.1 > 0 then mode.1 - 1 else mode.1)
  }

  lemma ModeSnoc(t: string, c: char)
    ensures Mode(t + [c], |t| + 1) == Turned(Mode(t, |t|), c)
  {
    ModePrefix(t + [c], |t|, |t|);
    assert (t + [c])[..|t|] == t;
  }

  /** Through a quoted piece: its quote is open from its first byte to its last. */
  lemma {:induction false} ModeQuoted(t: string, q: string, k: nat)
    requires WellFormed(Quoted(q)) && Mode(t, |t|).0 == NO_QUOTE && 0 < k <= |q|
    ensures Mode(t + q[..k], |t| + k) == (if k < |q| then q[0] else NO_QUOTE, Mode(t, |t|).1)
  {
    hide Mode;
    var init := q[..k - 1];
    assert q[..k] == init + [q[k - 1]] && t + q[..k] == t + init + [q[k - 1]];
    ModeSnoc(t + init, q[k - 1]);
    if k == 1 {
      assert t + init == t;
    } else {
      ModeQuoted(t, q, k - 1);
    }
  }

  lemma {:induction false} PiecesMode(ps: seq<Piece>)
    requires forall k :: 0 <= k < |ps| ==> WellFormed(ps[k])
    ensures var t := Joined(ps); Mode(t, |t|) == (NO_QUOTE, Depth(Outside(ps)))
    decreases |ps|
  {
    if ps != [] {
      var init, p := ps[..|ps| - 1], ps[|ps| - 1];
      PiecesMode(init);
      var t := Joined(init);
      hide Mode;
      if p.Bare? {
        ModeSnoc(t, p.c);
        assert (Outside(init) + [p.c])[..|Outside(init)|] == Outside(init);
      } else {
        ModeQuoted(t, p.text, |p.text|);
        assert p.text[..|p.text|] == p.text && Outside(init) + "" == Outside(init);
      }
    }
  }

  /** t is made of these pieces, and at most the start of another quoted one behind them. */
  ghost predicate Parses(t: string, ps: seq<Piece>, open: string) {
    && t == Joined(ps) + open && Pieces(ps, Joined(ps))
    && Mode(t, |t|).0 == (if open == "" then NO_QUOTE else open[0])
    && (open != "" ==> IsQuote(open[0]) && forall j :: 0 < j < |open| ==> open[j] != open[0])
  }

  lemma {:induction false} Parsed(t: string) returns (ps: seq<Piece>, open: string)
    ensures Parses(t, ps, open)
    decreases |t|
  {
    ps, open := [], "";
    if t != "" {
      var init, c := t[..|t| - 1], t[|t| - 1];
      ps, open := Parsed(init);
      assert t == init + [c];
      hide *;
      if open != "" {
        ParseOpen(init, ps, open, c);
        if c == open[0] {
          ps, open := ps + [Quoted(open + [c])], "";
        } else {
          open := open + [c];
        }
      } else {
        ParseBare(init, ps, c);
        if c == '\'' || c == '\"' || c == '`' {
          open := [c];
        } else {
          ps := ps + [Bare(c)];
        }
      }
    } else {
      assert Parses(t, ps, open);
    }
  }

  lemma ParseOpen(t: string, ps: seq<Piece>, open: string, c: char)
    requires Parses(t, ps, open) && open != ""
    ensures c == open[0] ==> Parses(t + [c], ps + [Quoted(open + [c])], "")
    ensures c != open[0] ==> Parses(t + [c], ps, open + [c])
  {
    ModeSnoc(t, c);
    hide Mode, Pieces, Joined;
    assert t + [c] == Joined(ps) + (open + [c]);
    if c == open[0] {
      JoinedSnoc(ps, Quoted(open + [c]));
      PiecesMore(ps, Joined(ps), Quoted(open + [c]));
      assert t + [c] == Joined(ps) + (open + [c]) + "";
    }
  }

  lemma ParseBare(t: string, ps: seq<Piece>, c: char)
    requires Parses(t, ps, "")
    ensures c == '\'' || c == '\"' || c == '`' ==> Parses(t + [c], ps, [c])
    ensures !(c == '\'' || c == '\"' || c == '`') ==> Parses(t + [c], ps + [Bare(c)], "")
  {
    ModeSnoc(t, c);
    hide Mode, Pieces, Joined;
    assert t + [c] == Joined(ps) + [c];
    if !IsQuote(c) {
      JoinedSnoc(ps, Bare(c));
      PiecesMore(ps, Joined(ps), Bare(c));
      assert t + [c] == Joined(ps) + [c] + "";
    }
  }

  lemma JoinedSnoc(ps: seq<Piece>, p: Piece)
    ensures Joined(ps + [p]) == Joined(ps) + if p.Bare? then [p.c] else p.text
  {
    assert (ps + [p])[..|ps|] == ps;
  }

  lemma PiecesMore(ps: seq<Piece>, t: string, p: Piece)
    requires Pieces(ps, t) && WellFormed(p)
    ensures Pieces(ps + [p], t + if p.Bare? then [p.c] else p.text)
  {
    assert (ps + [p])[..|ps|] == ps;
  }

  /** The scan is outside quotes and parentheses exactly where the text up to there ends outside them. */
  lemma OutsideIsMode(s: string, n: nat)
    requires n <= |s|
    ensures Mode(s, n) == (NO_QUOTE, 0) <==> EndsOutside(s[..n])
  {
    var t := s[..n];
    ModePrefix(s, n, n);
    hide Mode, NoneOpen, Depth;
    forall ps | Pieces(ps, t) ensures Mode(t, n) == (NO_QUOTE, 0) <==> NoneOpen(Outside(ps)) {
      PiecesMode(ps);
      DepthNone(Outside(ps));
    }
    if Mode(t, n) == (NO_QUOTE, 0) {
      var ps, open := Parsed(t);
      assert Joined(ps) + "" == Joined(ps);
    }
  }

  // ----- The rows -----

  /** A listed keyword stands here, outside quotes and parentheses, and no word byte is in front of it. */
  ghost predicate BreaksAt(s: string, i: nat) {
    && i < |s| && EndsOutside(s[..i]) && (i == 0 || !WordByte(s[i - 1]))
    && (AnyAt(s, i, TOP_KEYWORDS) || AnyAt(s, i, SUB_KEYWORDS))
  }

  lemma CutParts(s: string, i: nat)
    ensures IsCut(s, i) <==> i < |s| && Mode(s, i) == (NO_QUOTE, 0) && Boundary(s, i) && KeywordAt(s, i).0 > 0
  {
    hide Mode, Boundary, KeywordAt;
  }

  lemma BreakParts(s: string, i: nat)
    ensures BreaksAt(s, i) <==>
              && i < |s| && EndsOutside(s[..i]) && (i == 0 || !WordByte(s[i - 1]))
              && (AnyAt(s, i, TOP_KEYWORDS) || AnyAt(s, i, SUB_KEYWORDS))
  {
    hide EndsOutside, WordByte, AnyAt, TOP_KEYWORDS, SUB_KEYWORDS;
  }

  lemma BoundaryIs(s: string, i: nat)
    requires i < |s|
    ensures Boundary(s, i) <==> i == 0 || !WordByte(s[i - 1])
  {}

  lemma CutIsBreak(s: string, i: nat)
    ensures IsCut(s, i) <==> BreaksAt(s, i)
    ensures IsCut(s, i) ==> (KeywordAt(s, i).1 <==> !AnyAt(s, i, TOP_KEYWORDS))
  {
    hide *;
    CutParts(s, i);
    BreakParts(s, i);
    if i < |s| {
      BoundaryIs(s, i);
      OutsideIsMode(s, i);
      KeywordStands(s, i);
    }
  }

  /** The row of s[a..b]: two spaces in front of the keywords that are not top ones. */
  ghost predicate RowAt(s: string, row: string, a: nat, b: nat) {
    && a < b <= |s|
    && row == (if BreaksAt(s, a) && !AnyAt(s, a, TOP_KEYWORDS) then "  " else "") + s[a..b]
  }

  lemma ShownRow(s: string, row: string, a: nat, b: nat)
    requires Shows(s, row, a, b)
    ensures RowAt(s, row, a, b)
  {
    ShowsText(s, row, a, b);
    CutIsBreak(s, a);
    Indent(s, a);
    assert Spaces(0) == "" && Spaces(2) == "  ";
    hide IsCut, BreaksAt, AnyAt, KeywordAt, Shows, IndentAt, Spaces;
  }

  lemma Indent(s: string, a: nat)
    ensures IndentAt(s, a) == if IsCut(s, a) && KeywordAt(s, a).1 then 2 else 0
  {
    hide IsCut, KeywordAt;
  }

  /** The rows and their places: every row is one of these, and every row but the first starts at a break. */
  lemma {:induction false} LaidRows(s: string, from: nat, rows: seq<string>, spans: seq<Span>, first: bool, k: nat)
    requires LaidOut(s, from, rows, spans, first) && k < |spans|
    ensures |rows| == |spans| && from <= spans[k].a && RowAt(s, rows[k], spans[k].a, spans[k].b)
    ensures k + 1 < |spans| ==> spans[k].b <= spans[k + 1].a
    ensures !first || k > 0 ==> BreaksAt(s, spans[k].a)
    decreases |spans|
  {
    hide *;
    LaidFirst(s, from, rows, spans, first);
    var a, b := spans[0].a, spans[0].b;
    ShownRow(s, rows[0], a, b);
    CutIsBreak(s, a);
    RowInside(s, rows[0], a, b);
    if k > 0 {
      LaidRows(s, b, rows[1..], spans[1..], false, k - 1);
      assert rows[k] == rows[1..][k - 1] && spans[k] == spans[1..][k - 1];
    }
    if k + 1 < |spans| {
      SameLength(s, b, rows[1..], spans[1..], false);
      if k == 0 {
        LaidFirst(s, b, rows[1..], spans[1..], false);
        assert spans[1] == spans[1..][0];
      } else {
        assert spans[k + 1] == spans[1..][k];
      }
    }
  }

  lemma RowInside(s: string, row: string, a: nat, b: nat)
    requires RowAt(s, row, a, b)
    ensures a < b <= |s|
  {}

  /** i lies in the keyword that starts at a. */
  ghost predicate InKeyword(s: string, a: nat, i: nat) {
    exists kw :: kw in TOP_KEYWORDS + SUB_KEYWORDS && StandsAt(s, a, kw) && a <= i < a + |kw|
  }

  /** Every break starts a row, or lies in the keyword that starts one. */
  lemma {:induction false} BreakStartsRow(s: string, from: nat, rows: seq<string>, spans: seq<Span>, first: bool, i: nat)
      returns (k: nat)
    requires LaidOut(s, from, rows, spans, first) && from <= i && IsCut(s, i)
    ensures k < |spans| && (i == spans[k].a || InKeyword(s, spans[k].a, i))
    decreases |spans|
  {
    hide *;
    CutFacts(s, i);
    NoKeywordUnlessLetter(s, i);
    WordNotBlank(s[i]);
    SameLength(s, from, rows, spans, first);
    k := 0;
    NotAllBlank(s, from, i);
    if spans == [] {
      assert false;
    } else {
      LaidFirst(s, from, rows, spans, first);
      var a, b := spans[0].a, spans[0].b;
      BlankAt(s, from, a, i);
      ShowsCuts(s, rows[0], a, b);
      if i >= b {
        k := BreakStartsRow(s, b, rows[1..], spans[1..], false, i);
        assert spans[k + 1] == spans[1..][k];
        k := k + 1;
      } else if i != a {
        KeyOf(s, a, i);
      }
    }
  }

  lemma NotAllBlank(s: string, from: nat, i: nat)
    requires from <= i < |s| && !Blank(s[i])
    ensures !BlankIn(s, from, |s|)
  {}

  lemma KeyOf(s: string, a: nat, i: nat)
    requires a < i < KeyEnd(s, a)
    ensures InKeyword(s, a, i)
  {
    KeywordStands(s, a);
    hide AnyAt, StandsAt, TOP_KEYWORDS, SUB_KEYWORDS, KeywordAt, IsCut;
  }

  /**
   * The rows of a text that is not blank show parts of it in order, each as it is or behind two spaces. A row
   * starts at every break, unless the break lies in the keyword of a row, and rows start nowhere else but
   * at the text's own start. Two spaces stand in front of exactly those that start with a keyword of the
   * second list and none of the first.
   */
  lemma FormatBreaks(s: string) returns (spans: seq<Span>)
    requires !AllBlank(s)
    ensures |spans| == |Format(s)|
    ensures forall k :: 0 <= k < |spans| ==> RowAt(s, Format(s)[k], spans[k].a, spans[k].b)
    ensures forall k :: 0 <= k < |spans| - 1 ==> spans[k].b <= spans[k + 1].a
    ensures forall k :: 0 < k < |spans| ==> BreaksAt(s, spans[k].a)
    ensures forall i :: BreaksAt(s, i) ==>
              exists k :: 0 <= k < |spans| && (i == spans[k].a || InKeyword(s, spans[k].a, i))
  {
    spans := FormatLaysOut(s);
    hide *;
    var rows := Format(s);
    SameLength(s, 0, rows, spans, true);
    forall k | 0 <= k < |spans|
      ensures RowAt(s, rows[k], spans[k].a, spans[k].b)
      ensures k < |spans| - 1 ==> spans[k].b <= spans[k + 1].a
      ensures 0 < k ==> BreaksAt(s, spans[k].a)
    {
      LaidRows(s, 0, rows, spans, true, k);
    }
    forall i | BreaksAt(s, i)
      ensures exists k :: 0 <= k < |spans| && (i == spans[k].a || InKeyword(s, spans[k].a, i))
    {
      CutIsBreak(s, i);
      var k := BreakStartsRow(s, 0, rows, spans, true, i);
    }
  }
}
