/** What the SQL formatter promises: its rows are the text between the cuts, and a row formats to itself. */
module SqlLaws {
  import opened Seqs
  import opened Sql
  import opened Words

  // ----- The rows are the text between the cuts -----

  /** The bytes of the input that a row shows. */
  datatype Span = Span(a: nat, b: nat)

  function IndentAt(s: string, a: nat): nat {
    if IsCut(s, a) && KeywordAt(s, a).1 then 2 else 0
  }

  /** Behind the keyword that starts a row. */
  function KeyEnd(s: string, a: nat): nat {
    if IsCut(s, a) then a + KeywordAt(s, a).0 else a
  }

  /** A row shows s[a..b]: text with no cut behind its keyword and no blank at its ends. */
  ghost predicate Shows(s: string, row: string, a: nat, b: nat) {
    && a < b <= |s|
    && KeyEnd(s, a) <= b
    && (forall j :: KeyEnd(s, a) <= j < b ==> !IsCut(s, j))
    && !Blank(s[a]) && !Blank(s[b - 1])
    && row == Spaces(IndentAt(s, a)) + s[a..b]
  }

  /** The rows show s from there on, in order: only blanks lie between them, and all but the first start at a cut. */
  ghost predicate LaidOut(s: string, from: nat, rows: seq<string>, spans: seq<Span>, first: bool)
    decreases |spans|
  {
    && |rows| == |spans|
    && from <= |s|
    && if spans == [] then BlankIn(s, from, |s|)
       else
         var a, b := spans[0].a, spans[0].b;
         && from <= a
         && BlankIn(s, from, a)
         && (first || IsCut(s, a))
         && Shows(s, rows[0], a, b)
         && LaidOut(s, b, rows[1..], spans[1..], false)
  }

  lemma Widen(s: string, b: nat, p: nat, rows: seq<string>, spans: seq<Span>, first: bool, first': bool)
    requires b <= p && BlankIn(s, b, p) && LaidOut(s, p, rows, spans, first) && (first ==> first')
    ensures LaidOut(s, b, rows, spans, first')
  {
    hide Shows, IsCut;
  }

  lemma LaidCons(s: string, from: nat, row: string, a: nat, b: nat, rows: seq<string>, spans: seq<Span>, first: bool)
    requires from <= a && BlankIn(s, from, a) && (first || IsCut(s, a)) && Shows(s, row, a, b)
    requires LaidOut(s, b, rows, spans, false)
    ensures LaidOut(s, from, [row] + rows, [Span(a, b)] + spans, first)
  {
    var all, at := [row] + rows, [Span(a, b)] + spans;
    assert all[1..] == rows && at[1..] == spans;
    hide IsCut;
    assert a <= |s| by { hide BlankIn; }
    hide Shows, BlankIn;
  }

  predicate Plain(c: char) {
    !IsQuote(c) && c != '(' && c != ')'
  }

  lemma {:induction false} ModeThrough(s: string, i: nat, j: nat)
    requires i <= j <= |s| && Mode(s, i) == (NO_QUOTE, 0)
    requires forall k :: i <= k < j ==> Plain(s[k])
    ensures Mode(s, j) == (NO_QUOTE, 0)
  {
    if i < j {
      ModeThrough(s, i, j - 1);
    }
  }

  predicate Spelled(kw: string) {
    forall j :: 0 <= j < |kw| ==> kw[j] == ' ' || 'A' <= kw[j] <= 'Z'
  }

  lemma KeywordsSpelled()
    ensures forall k :: 0 <= k < |TOP_KEYWORDS| ==> Spelled(TOP_KEYWORDS[k])
    ensures forall k :: 0 <= k < |SUB_KEYWORDS| ==> Spelled(SUB_KEYWORDS[k])
  {}

  lemma {:induction false} FirstHitPlain(s: string, i: nat, kws: seq<string>)
    requires forall k :: 0 <= k < |kws| ==> Spelled(kws[k])
    ensures forall k :: i <= k < i + FirstHit(s, i, kws) ==> Plain(s[k])
    decreases |kws|
  {
    if kws != [] {
      if Hit(s, i, kws[0]) {
        var kw := kws[0];
        var cand := s[i..i + |kw|];
        forall k | i <= k < i + |kw| ensures Plain(s[k]) {
          assert Upper(cand[k - i]) == kw[k - i] && cand[k - i] == s[k];
        }
      } else {
        FirstHitPlain(s, i, kws[1..]);
      }
    }
  }

  lemma KeywordPlain(s: string, a: nat)
    ensures forall k :: a <= k < a + KeywordAt(s, a).0 ==> Plain(s[k])
  {
    KeywordsSpelled();
    FirstHitPlain(s, a, TOP_KEYWORDS);
    FirstHitPlain(s, a, SUB_KEYWORDS);
    hide Plain, FirstHit, Spelled;
  }

  lemma CutFacts(s: string, a: nat)
    requires IsCut(s, a)
    ensures a < |s| && Mode(s, a) == (NO_QUOTE, 0) && Boundary(s, a) && KeywordAt(s, a).0 > 0
    ensures KeyEnd(s, a) == a + KeywordAt(s, a).0 <= |s|
    ensures IndentAt(s, a) == if KeywordAt(s, a).1 then 2 else 0
  {
    hide Mode, Boundary, KeywordAt;
  }

  /** A keyword at a cut leaves the scan outside quotes and parentheses. */
  lemma CutKeeps(s: string, a: nat)
    requires IsCut(s, a)
    ensures KeyEnd(s, a) <= |s| && Mode(s, KeyEnd(s, a)) == (NO_QUOTE, 0)
  {
    hide *;
    CutFacts(s, a);
    KeywordPlain(s, a);
    ModeThrough(s, a, KeyEnd(s, a));
  }

  /** The text of the chunk s[from..p]. */
  lemma ChunkText(s: string, from: nat, p: nat) returns (a: nat, b: nat)
    requires from <= p <= |s|
    ensures from <= a <= b <= p && Trim(s[from..p]) == s[a..b]
    ensures BlankIn(s, from, a) && BlankIn(s, b, p)
    ensures a < b ==> !Blank(s[a]) && !Blank(s[b - 1])
  {
    hide *;
    var c, d := TrimSpan(s[from..p]);
    TextFacts(s[from..p], c, d);
    a, b := from + c, from + d;
    SliceOfSlice(s, from, p, c, d);
    BlankShift(s, from, p, 0, c);
    BlankShift(s, from, p, d, p - from);
  }

  lemma TextFacts(t: string, a: nat, b: nat)
    requires TextIn(t, a, b)
    ensures a <= b <= |t| && BlankIn(t, 0, a) && BlankIn(t, b, |t|)
    ensures a < b ==> !Blank(t[a]) && !Blank(t[b - 1])
  {
    hide BlankIn, Blank;
  }

  lemma BlankShift(s: string, from: nat, p: nat, i: nat, j: nat)
    requires from <= p <= |s| && i <= j <= p - from && BlankIn(s[from..p], i, j)
    ensures BlankIn(s, from + i, from + j)
  {
    hide Blank;
    forall k | from + i <= k < from + j ensures Blank(s[k]) {
      assert s[from..p][k - from] == s[k];
    }
  }

  /** From t on the scan stops at the first cut of s. */
  lemma FirstCut(s: string, i: nat)
    requires i <= |s| && Mode(s, i) == (NO_QUOTE, 0)
    ensures var p := NextCut(s, Scan(i, NO_QUOTE, 0));
            && (p == |s| || IsCut(s, p))
            && forall j :: i <= j < p ==> !IsCut(s, j)
  {
    NextCutIsFirst(s, i);
  }

  /** The chunk from there to the next cut shows its text, when it has any: the first chunk of all. */
  lemma FirstShows(s: string, p: nat, a: nat, b: nat)
    requires a < b <= p <= |s| && !Blank(s[a]) && !Blank(s[b - 1])
    requires forall j :: 0 <= j < p ==> !IsCut(s, j)
    ensures Shows(s, Spaces(0) + s[a..b], a, b)
  {
    hide IsCut, Blank;
  }

  lemma WordNotBlank(c: char)
    requires IsWord(c)
    ensures !Blank(c)
  {}

  /** A chunk that starts with a keyword has it as the start of its text. */
  lemma CutShows(s: string, from: nat, p: nat, a: nat, b: nat)
    requires IsCut(s, from) && KeyEnd(s, from) <= p <= |s| && from <= a <= b <= p
    requires forall j :: KeyEnd(s, from) <= j < p ==> !IsCut(s, j)
    requires BlankIn(s, from, a) && BlankIn(s, b, p) && (a < b ==> !Blank(s[a]) && !Blank(s[b - 1]))
    ensures a == from && Shows(s, Spaces(IndentAt(s, from)) + s[a..b], a, b)
  {
    CutFacts(s, from);
    NoKeywordUnlessLetter(s, from);
    var end := KeyEnd(s, from);
    WordNotBlank(s[from]);
    WordNotBlank(s[end - 1]);
    hide *;
    BlankAt(s, from, a, from);
    BlankAt(s, b, p, end - 1);
    assert a == from && end <= b;
    MakeShows(s, a, b);
  }

  lemma BlankAt(s: string, i: nat, j: nat, k: nat)
    requires BlankIn(s, i, j) && k < |s| && !Blank(s[k])
    ensures k < i || j <= k
  {}

  lemma MakeShows(s: string, a: nat, b: nat)
    requires a < b <= |s| && KeyEnd(s, a) <= b && !Blank(s[a]) && !Blank(s[b - 1])
    requires forall j :: KeyEnd(s, a) <= j < b ==> !IsCut(s, j)
    ensures Shows(s, Spaces(IndentAt(s, a)) + s[a..b], a, b)
  {
    hide IsCut, Blank, KeyEnd, IndentAt, Spaces;
  }

  /** The scan is about to take a chunk: the first of all, or one that starts at a cut. */
  ghost predicate ChunkStart(s: string, from: nat, i: nat, indent: nat, first: bool) {
    && from <= i <= |s|
    && Mode(s, i) == (NO_QUOTE, 0)
    && if first then from == i == indent == 0
       else IsCut(s, from) && i == KeyEnd(s, from) && indent == IndentAt(s, from)
  }

  lemma StartAtCut(s: string, p: nat)
    requires IsCut(s, p)
    ensures ChunkStart(s, p, p + KeywordAt(s, p).0, if KeywordAt(s, p).1 then 2 else 0, false)
  {
    CutFacts(s, p);
    CutKeeps(s, p);
    hide *;
    MakeStart(s, p);
  }

  lemma MakeStart(s: string, p: nat)
    requires IsCut(s, p) && p <= KeyEnd(s, p) <= |s| && Mode(s, KeyEnd(s, p)) == (NO_QUOTE, 0)
    ensures ChunkStart(s, p, KeyEnd(s, p), IndentAt(s, p), false)
  {
    hide IsCut, KeyEnd, IndentAt, Mode;
  }

  /** The row of one chunk shows its text. */
  lemma ChunkShows(s: string, from: nat, i: nat, indent: nat, first: bool, p: nat, a: nat, b: nat)
    requires ChunkStart(s, from, i, indent, first) && i <= p <= |s|
    requires forall j :: i <= j < p ==> !IsCut(s, j)
    requires from <= a <= b <= p && BlankIn(s, from, a) && BlankIn(s, b, p)
    requires a < b ==> !Blank(s[a]) && !Blank(s[b - 1])
    ensures a < b ==> Shows(s, Spaces(indent) + s[a..b], a, b)
    ensures !first ==> a == from < b
  {
    hide IsCut, Blank, BlankIn, KeyEnd, IndentAt, Mode, Shows;
    if !first {
      CutShows(s, from, p, a, b);
      ShowsText(s, Spaces(IndentAt(s, from)) + s[a..b], a, b);
    } else if a < b {
      FirstShows(s, p, a, b);
    }
  }

  lemma ShowsText(s: string, row: string, a: nat, b: nat)
    requires Shows(s, row, a, b)
    ensures a < b <= |s| && KeyEnd(s, a) <= b && !Blank(s[a]) && !Blank(s[b - 1])
    ensures row == Spaces(IndentAt(s, a)) + s[a..b]
  {}

  lemma RowText(s: string, from: nat, p: nat, a: nat, b: nat, indent: nat)
    requires from <= p <= |s| && a <= b <= |s| && Trim(s[from..p]) == s[a..b]
    ensures Row(s[from..p], indent) == if a < b then [Spaces(indent) + s[a..b]] else []
  {
    hide Trim, Spaces;
  }

  lemma RowsUnfold(s: string, from: nat, t: Scan, indent: nat)
    requires from <= t.i <= |s|
    ensures var p := NextCut(s, t);
            && p <= |s|
            && Rows(s, from, t, indent)
            == Row(s[from..p], indent)
             + (if p == |s| then []
                else Rows(s, p, Scan(p + KeywordAt(s, p).0, NO_QUOTE, 0), if KeywordAt(s, p).1 then 2 else 0))
  {
    hide Row, NextCut, KeywordAt;
  }

  /** The rows of the chunk from there and of all that follow lay out the rest of s. */
  lemma {:induction false} RowsLaidOut(s: string, from: nat, i: nat, indent: nat, first: bool) returns (spans: seq<Span>)
    requires ChunkStart(s, from, i, indent, first)
    ensures from <= i <= |s|
    ensures LaidOut(s, from, Rows(s, from, Scan(i, NO_QUOTE, 0), indent), spans, first)
    decreases |s| - i, first
  {
    hide *;
    StartInside(s, from, i, indent, first);
    var t := Scan(i, NO_QUOTE, 0);
    var p := NextCut(s, t);
    FirstCut(s, i);
    var a, b := ChunkText(s, from, p);
    ChunkShows(s, from, i, indent, first, p, a, b);
    RowText(s, from, p, a, b, indent);
    RowsUnfold(s, from, t, indent);
    var rest, more := [], [];
    if p == |s| {
      LaidEnd(s);
    } else {
      StartAtCut(s, p);
      CutFacts(s, p);
      var n, next := p + KeywordAt(s, p).0, if KeywordAt(s, p).1 then 2 else 0;
      more := RowsLaidOut(s, p, n, next, false);
      rest := Rows(s, p, Scan(n, NO_QUOTE, 0), next);
    }
    if a < b {
      Widen(s, b, p, rest, more, false, false);
      LaidCons(s, from, Spaces(indent) + s[a..b], a, b, rest, more, first);
      spans := [Span(a, b)] + more;
    } else {
      BlankJoin(s, from, a, p);
      assert [] + rest == rest;
      Widen(s, from, p, rest, more, false, first);
      spans := more;
    }
  }

  lemma StartInside(s: string, from: nat, i: nat, indent: nat, first: bool)
    requires ChunkStart(s, from, i, indent, first)
    ensures from <= i <= |s| && Mode(s, i) == (NO_QUOTE, 0) && (!first ==> IsCut(s, from))
  {}

  lemma LaidEnd(s: string)
    ensures LaidOut(s, |s|, [], [], false)
  {}

  lemma BlankJoin(s: string, i: nat, j: nat, k: nat)
    requires BlankIn(s, i, j) && BlankIn(s, j, k)
    ensures BlankIn(s, i, k)
  {
    hide Blank;
  }

  // ----- A row formats to itself -----

  /** Text can end at b: no quote is doubled there, and no word runs on. */
  predicate EndsAt(s: string, b: nat) {
    0 < b < |s| ==> !IsQuote(s[b]) && (!IsWord(s[b]) || !IsWord(s[b - 1]))
  }

  /** r is s[a..b] behind o spaces, cut out where a scan of it can start and end. */
  ghost predicate CutOut(s: string, a: nat, b: nat, r: string, o: nat) {
    && a < b <= |s|
    && |r| == o + b - a
    && (forall k :: 0 <= k < o ==> r[k] == ' ')
    && (forall k :: o <= k < |r| ==> r[k] == s[k - o + a])
    && Mode(s, a) == (NO_QUOTE, 0) && Boundary(s, a) && EndsAt(s, b)
  }

  /** The scan of r goes through the states of the scan of s. */
  lemma {:induction false} ModeLocal(s: string, a: nat, b: nat, r: string, o: nat, k: nat)
    requires CutOut(s, a, b, r, o) && a <= k <= b
    ensures Mode(r, o + k - a) == Mode(s, k)
  {
    hide Boundary, EndsAt;
    if k == a {
      hide Mode;
      ModeThrough(r, 0, o) by {
        assert Mode(r, 0) == (NO_QUOTE, 0);
      }
    } else {
      ModeLocal(s, a, b, r, o, k - 1);
    }
  }

  lemma HitLocal(s: string, a: nat, b: nat, r: string, o: nat, j: nat, kw: string)
    requires CutOut(s, a, b, r, o) && a <= j <= b && WellSpelled(kw)
    ensures Hit(r, o + j - a, kw) <==> Hit(s, j, kw) && j + |kw| <= b
  {
    hide Mode, Boundary;
    var i, n := o + j - a, |kw|;
    if j + n <= b {
      assert r[i..i + n] == s[j..j + n];
      if Hit(r, i, kw) && j + n == b < |s| {
        LastLetter(r, i, kw);
      }
    }
  }

  lemma LastLetter(s: string, i: nat, kw: string)
    requires i + |kw| <= |s| && EqualFold(s[i..i + |kw|], kw) && WellSpelled(kw)
    ensures IsWord(s[i + |kw| - 1])
  {
    var cand := s[i..i + |kw|];
    assert Upper(cand[|kw| - 1]) == kw[|kw| - 1];
  }

  /** A keyword of r is one of s; and the keyword of s is the one of r, if it fits. */
  lemma {:induction false} FirstHitLocal(s: string, a: nat, b: nat, r: string, o: nat, j: nat, kws: seq<string>)
    requires CutOut(s, a, b, r, o) && a <= j <= b
    requires forall k :: 0 <= k < |kws| ==> WellSpelled(kws[k])
    ensures FirstHit(s, j, kws) == 0 ==> FirstHit(r, o + j - a, kws) == 0
    ensures j + FirstHit(s, j, kws) <= b ==> FirstHit(r, o + j - a, kws) == FirstHit(s, j, kws)
    decreases |kws|
  {
    hide CutOut, Hit;
    if kws != [] {
      HitLocal(s, a, b, r, o, j, kws[0]);
      FirstHitLocal(s, a, b, r, o, j, kws[1..]);
    }
  }

  lemma KeywordLocal(s: string, a: nat, b: nat, r: string, o: nat, j: nat)
    requires CutOut(s, a, b, r, o) && a <= j <= b
    ensures KeywordAt(s, j).0 == 0 ==> KeywordAt(r, o + j - a).0 == 0
    ensures j + KeywordAt(s, j).0 <= b && KeywordAt(s, j).0 > 0 ==>
              KeywordAt(r, o + j - a).0 == KeywordAt(s, j).0 && KeywordAt(r, o + j - a).1 == KeywordAt(s, j).1
  {
    KeywordsWellSpelled();
    hide FirstHit, CutOut, WellSpelled;
    FirstHitLocal(s, a, b, r, o, j, TOP_KEYWORDS);
    FirstHitLocal(s, a, b, r, o, j, SUB_KEYWORDS);
  }

  /** r has no cut where s has none. */
  lemma CutLocal(s: string, a: nat, b: nat, r: string, o: nat, j: nat)
    requires CutOut(s, a, b, r, o) && a <= j < b && IsCut(r, o + j - a)
    ensures IsCut(s, j)
  {
    ModeLocal(s, a, b, r, o, j);
    KeywordLocal(s, a, b, r, o, j);
    hide Mode, KeywordAt, IsWord, EndsAt;
  }

  lemma TextRow(s: string, a: nat, b: nat, r: string, o: nat, indent: nat)
    requires CutOut(s, a, b, r, o) && !Blank(s[a]) && !Blank(s[b - 1])
    requires r == Spaces(indent) + s[a..b]
    ensures o == indent ==> Row(r[o..|r|], indent) == [r]
    ensures Row(r[0..o], 0) == []
  {
    hide Mode, Boundary, EndsAt, Trim, StartOf, EndOf, IsQuote;
    if o == indent {
      assert r[o..|r|] == s[a..b];
      var t := s[a..b];
      assert TextIn(t, 0, |t|);
      TrimIsUnique(t, 0, |t|);
      assert t[0..|t|] == t;
    }
    var blank := r[0..o];
    assert TextIn(blank, 0, 0);
    TrimIsUnique(blank, 0, 0);
  }

  /** r has no cut before behind its keyword, when that is where s has none. */
  lemma NoCutsLocal(s: string, a: nat, b: nat, r: string, o: nat, i: nat)
    requires CutOut(s, a, b, r, o) && a <= i <= b
    requires forall j :: i <= j < b ==> !IsCut(s, j)
    ensures forall j :: o + i - a <= j < |r| ==> !IsCut(r, j)
  {
    hide IsCut;
    forall j | o + i - a <= j < |r| ensures !IsCut(r, j) {
      if IsCut(r, j) {
        CutLocal(s, a, b, r, o, j - o + a);
      }
    }
  }

  lemma NoCutIn(s: string, i: nat, j: nat)
    requires forall k :: i <= k < j && k < |s| ==> s[k] == ' '
    ensures forall k :: i <= k < j ==> !IsCut(s, k)
  {
    forall k | i <= k < j ensures !IsCut(s, k) {
      if k < |s| {
        NoKeywordAt(s, k);
      }
    }
  }

  lemma CutOutFacts(s: string, a: nat, b: nat, r: string, o: nat)
    requires CutOut(s, a, b, r, o)
    ensures a < b <= |s| && |r| == o + b - a && (forall k :: 0 <= k < o ==> r[k] == ' ') && Boundary(r, o)
    ensures Mode(s, a) == (NO_QUOTE, 0) && Boundary(s, a)
  {}

  /** A row that starts with a keyword formats to itself. */
  lemma CutRowFixed(s: string, a: nat, b: nat, r: string, o: nat)
    requires IsCut(s, a) && Shows(s, r, a, b) && o == IndentAt(s, a) && CutOut(s, a, b, r, o)
    ensures Format(r) == [r]
  {
    hide *;
    CutOutFacts(s, a, b, r, o);
    CutFacts(s, a);
    ShowsText(s, r, a, b);
    KeywordLocal(s, a, b, r, o, a);
    ModeLocal(s, a, b, r, o, a);
    IsCutHere(r, o);
    CutKeeps(r, o);
    CutFacts(r, o);
    NoCutIn(r, 0, o);
    var start := Scan(0, NO_QUOTE, 0);
    ModeStart(r);
    FirstCut(r, 0);
    assert NextCut(r, start) == o;
    ShowsCuts(s, r, a, b);
    NoCutsLocal(s, a, b, r, o, KeyEnd(s, a));
    FirstCut(r, KeyEnd(r, o));
    TextRow(s, a, b, r, o, o);
    RowsUnfold(r, 0, start, 0);
    RowsUnfold(r, o, Scan(KeyEnd(r, o), NO_QUOTE, 0), o);
    assert Rows(r, 0, start, 0) == [r];
    FormatRows(r);
  }

  lemma IsCutHere(s: string, i: nat)
    requires i < |s| && Mode(s, i) == (NO_QUOTE, 0) && Boundary(s, i) && KeywordAt(s, i).0 > 0
    ensures IsCut(s, i)
  {}

  lemma ModeStart(s: string)
    ensures Mode(s, 0) == (NO_QUOTE, 0)
  {}

  lemma ShowsCuts(s: string, row: string, a: nat, b: nat)
    requires Shows(s, row, a, b)
    ensures a <= KeyEnd(s, a) <= b <= |s|
    ensures forall j :: KeyEnd(s, a) <= j < b ==> !IsCut(s, j)
  {
    hide IsCut;
  }

  lemma FormatRows(s: string)
    ensures Format(s) == if Rows(s, 0, Scan(0, NO_QUOTE, 0), 0) == [] then [TrimSpace(s)] else Rows(s, 0, Scan(0, NO_QUOTE, 0), 0)
  {
    hide Rows, TrimSpace;
  }

  /** So does a first row, which has no keyword at all. */
  lemma FirstRowFixed(s: string, a: nat, b: nat, r: string)
    requires !IsCut(s, a) && Shows(s, r, a, b) && CutOut(s, a, b, r, 0)
    ensures Format(r) == [r]
  {
    hide *;
    ShowsText(s, r, a, b);
    NoCut(s, a);
    ShowsCuts(s, r, a, b);
    CutOutFacts(s, a, b, r, 0);
    NoCutsLocal(s, a, b, r, 0, a);
    ModeStart(r);
    FirstCut(r, 0);
    TextRow(s, a, b, r, 0, 0);
    RowsUnfold(r, 0, Scan(0, NO_QUOTE, 0), 0);
    FormatRows(r);
  }

  lemma NoCut(s: string, a: nat)
    requires !IsCut(s, a)
    ensures KeyEnd(s, a) == a && IndentAt(s, a) == 0
  {
    hide IsCut;
  }

  lemma BlankEnds(s: string, b: nat, i: nat)
    requires b <= i && BlankIn(s, b, i) && (i == b ==> i == |s| || IsCut(s, b))
    ensures EndsAt(s, b)
  {
    hide Mode;
    if i == b && b < |s| {
      NoKeywordUnlessLetter(s, b);
    }
    hide KeywordAt;
  }

  lemma LaidFirst(s: string, from: nat, rows: seq<string>, spans: seq<Span>, first: bool)
    requires LaidOut(s, from, rows, spans, first) && spans != []
    ensures var a, b := spans[0].a, spans[0].b;
            && |rows| == |spans|
            && from <= a && BlankIn(s, from, a)
            && (first || IsCut(s, a))
            && Shows(s, rows[0], a, b)
            && LaidOut(s, b, rows[1..], spans[1..], false)
            && EndsAt(s, b)
  {
    hide Shows, IsCut, EndsAt;
    var b := spans[0].b;
    if |spans| == 1 {
      BlankEnds(s, b, |s|);
    } else {
      BlankEnds(s, b, spans[1].a);
    }
  }

  lemma BlankMode(s: string, a: nat)
    requires a <= |s| && BlankIn(s, 0, a)
    ensures Mode(s, a) == (NO_QUOTE, 0) && Boundary(s, a)
  {
    hide Mode;
    ModeStart(s);
    ModeThrough(s, 0, a);
  }

  lemma MakeCutOut(s: string, a: nat, b: nat, r: string)
    requires a < b <= |s| && r == Spaces(IndentAt(s, a)) + s[a..b]
    requires Mode(s, a) == (NO_QUOTE, 0) && Boundary(s, a) && EndsAt(s, b)
    ensures CutOut(s, a, b, r, IndentAt(s, a))
  {
    hide Mode, Boundary, EndsAt, IndentAt;
  }

  lemma RowFixed(s: string, from: nat, r: string, a: nat, b: nat, first: bool)
    requires from <= a && BlankIn(s, from, a) && (first ==> from == 0) && (first || IsCut(s, a))
    requires Shows(s, r, a, b) && EndsAt(s, b)
    ensures Format(r) == [r]
  {
    hide *;
    ShowsText(s, r, a, b);
    if IsCut(s, a) {
      CutFacts(s, a);
      MakeCutOut(s, a, b, r);
      CutRowFixed(s, a, b, r, IndentAt(s, a));
    } else {
      BlankMode(s, a);
      NoCut(s, a);
      MakeCutOut(s, a, b, r);
      FirstRowFixed(s, a, b, r);
    }
  }

  lemma {:induction false} RowsFixed(s: string, from: nat, rows: seq<string>, spans: seq<Span>, first: bool)
    requires LaidOut(s, from, rows, spans, first) && (first ==> from == 0)
    ensures |rows| == |spans| && forall k :: 0 <= k < |rows| ==> Format(rows[k]) == [rows[k]]
    decreases |spans|
  {
    hide *;
    SameLength(s, from, rows, spans, first);
    if spans != [] {
      LaidFirst(s, from, rows, spans, first);
      RowFixed(s, from, rows[0], spans[0].a, spans[0].b, first);
      RowsFixed(s, spans[0].b, rows[1..], spans[1..], false);
      forall k | 0 < k < |rows| ensures Format(rows[k]) == [rows[k]] {
        assert rows[k] == rows[1..][k - 1];
      }
    }
  }

  lemma SameLength(s: string, from: nat, rows: seq<string>, spans: seq<Span>, first: bool)
    requires LaidOut(s, from, rows, spans, first)
    ensures |rows| == |spans|
    ensures spans == [] ==> BlankIn(s, from, |s|)
  {}

  lemma AllLaidOut(s: string) returns (spans: seq<Span>)
    ensures LaidOut(s, 0, Rows(s, 0, Scan(0, NO_QUOTE, 0), 0), spans, true)
  {
    assert ChunkStart(s, 0, 0, 0, true);
    spans := RowsLaidOut(s, 0, 0, 0, true);
  }

  /**
   * The rows of a text that is not blank are the text in order, between them only blanks, each of them
   * from one cut to the next, and every row but possibly the first starts with the keyword of a cut.
   */
  lemma FormatLaysOut(s: string) returns (spans: seq<Span>)
    ensures AllBlank(s) ==> Format(s) == [""]
    ensures !AllBlank(s) ==> LaidOut(s, 0, Format(s), spans, true)
  {
    spans := AllLaidOut(s);
    FormatRows(s);
    var rows := Rows(s, 0, Scan(0, NO_QUOTE, 0), 0);
    SameLength(s, 0, rows, spans, true);
    if AllBlank(s) {
      BlankHasNoRow(s, 0, rows, spans, true);
      TrimSpaceBlank(s);
    }
    hide Rows, LaidOut, Format;
  }

  lemma BlankHasNoRow(s: string, from: nat, rows: seq<string>, spans: seq<Span>, first: bool)
    requires LaidOut(s, from, rows, spans, first) && AllBlank(s)
    ensures rows == []
  {
    hide IsCut, KeyEnd, IndentAt;
  }

  /** Formatting a row again gives that row: the formatter has nothing left to break or to trim. */
  lemma FormatTwice(s: string)
    ensures forall k :: 0 <= k < |Format(s)| ==> Format(Format(s)[k]) == [Format(s)[k]]
  {
    var spans := FormatLaysOut(s);
    if AllBlank(s) {
      var none := FormatLaysOut("");
    } else {
      hide *;
      RowsFixed(s, 0, Format(s), spans, true);
    }
  }
}
