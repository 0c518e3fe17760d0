/** The keyword-breaking SQL formatter (internal/tui/panes/logpanel_sql.go). A char stands for one byte. */
module Sql {
  import opened Seqs
  import opened Words

  const TOP_KEYWORDS: seq<string> := [
    "DELETE FROM", "INSERT INTO", "GROUP BY", "ORDER BY", "SELECT", "FROM", "WHERE", "HAVING", "LIMIT",
    "OFFSET", "UNION ALL", "UNION", "VALUES", "UPDATE", "SET", "RETURNING", "ON CONFLICT"
  ]

  const SUB_KEYWORDS: seq<string> := [
    "LEFT OUTER JOIN", "RIGHT OUTER JOIN", "FULL OUTER JOIN", "INNER JOIN", "LEFT JOIN", "RIGHT JOIN",
    "FULL JOIN", "CROSS JOIN", "JOIN", "AND", "OR", "ON"
  ]

  // ----- Keywords -----

  function Upper(c: char): char {
    if 'a' <= c <= 'z' then (c as int - 32) as char else c
  }

  /** Equal up to case. A keyword is ASCII, so no other letter of the same byte length folds to one of its own. */
  predicate EqualFold(a: string, b: string) {
    |a| == |b| && forall i :: 0 <= i < |a| ==> Upper(a[i]) == Upper(b[i])
  }

  /** Keyword kw stands at s[i], with no word byte right after it. */
  predicate Hit(s: string, i: nat, kw: string) {
    && i + |kw| <= |s|
    && EqualFold(s[i..i + |kw|], kw)
    && (i + |kw| < |s| ==> !IsWord(s[i + |kw|]))
  }

  /** The length of the first keyword of the list that stands at s[i], 0 when there is none. */
  function FirstHit(s: string, i: nat, kws: seq<string>): (n: nat)
    ensures 0 < n ==> i + n <= |s|
  {
    if kws == [] then 0 else if Hit(s, i, kws[0]) then |kws[0]| else FirstHit(s, i, kws[1..])
  }

  method MatchAny(s: string, i: nat, kws: seq<string>) returns (cand: string)
    requires i <= |s|
    ensures |cand| == FirstHit(s, i, kws) && cand == s[i..i + |cand|]
  {
    var k := 0;
    assert kws[0..] == kws;
    while k < |kws|
      invariant 0 <= k <= |kws|
      invariant FirstHit(s, i, kws[k..]) == FirstHit(s, i, kws)
    {
      var kw := kws[k];
      assert kws[k..][1..] == kws[k + 1..];
      k := k + 1;
      if |kw| > |s| - i {
        continue;
      }
      if !EqualFold(s[i..i + |kw|], kw) {
        continue;
      }
      var end := i + |kw|;
      if end < |s| && IsWord(s[end]) {
        continue;
      }
      return s[i..i + |kw|];
    }
    return "";
  }

  /** The length of the keyword at s[i] and whether it is an indented one; length 0 when there is none. */
  function KeywordAt(s: string, i: nat): (r: (nat, bool))
    ensures 0 < r.0 ==> i + r.0 <= |s|
  {
    var top := FirstHit(s, i, TOP_KEYWORDS);
    if top > 0 then (top, false) else (FirstHit(s, i, SUB_KEYWORDS), true)
  }

  method MatchKeyword(s: string, i: nat) returns (hit: string, isSub: bool)
    requires i <= |s|
    ensures |hit| == KeywordAt(s, i).0 && hit == s[i..i + |hit|]
    ensures hit != "" ==> isSub == KeywordAt(s, i).1
  {
    var m := MatchAny(s, i, TOP_KEYWORDS);
    if m != "" {
      return m, false;
    }
    m := MatchAny(s, i, SUB_KEYWORDS);
    if m != "" {
      return m, true;
    }
    return "", false;
  }

  predicate Boundary(s: string, i: nat) {
    i == 0 || i > |s| || !IsWord(s[i - 1])
  }

  // ----- Where the formatter cuts -----

  const NO_QUOTE: char := '\0'

  predicate IsQuote(c: char) {
    c == '\'' || c == '\"' || c == '`'
  }

  /** The quote and parenthesis depth after the first n bytes. */
  function Mode(s: string, n: nat): (char, nat)
    requires n <= |s|
  {
    if n == 0 then (NO_QUOTE, 0)
    else
      var (quote, depth) := Mode(s, n - 1);
      var c := s[n - 1];
      if quote != NO_QUOTE then (if c == quote then NO_QUOTE else quote, depth)
      else if IsQuote(c) then (c, depth)
      else if c == '(' then (quote, depth + 1)
      else if c == ')' then (quote, if depth > 0 then depth - 1 else 0)
      else (quote, depth)
  }

  /** A keyword starts at s[i], at a word boundary, outside quotes and parentheses. */
  predicate IsCut(s: string, i: nat) {
    i < |s| && Mode(s, i) == (NO_QUOTE, 0) && Boundary(s, i) && KeywordAt(s, i).0 > 0
  }

  /** The state of the scan: its position, the open quote and the depth. */
  datatype Scan = Scan(i: nat, quote: char, depth: nat)

  /** The scan stops here to start a new row. */
  predicate StopsAt(s: string, t: Scan) {
    t.i < |s| && t.quote == NO_QUOTE && t.depth == 0 && Boundary(s, t.i) && KeywordAt(s, t.i).0 > 0
  }

  /** One step of the scan over text that starts no row; a doubled quote is taken as one. */
  function Advance(s: string, t: Scan): (u: Scan)
    requires t.i < |s|
    ensures t.i < u.i <= |s|
  {
    var c := s[t.i];
    if t.quote != NO_QUOTE then
      if c == t.quote then
        if t.i + 1 < |s| && s[t.i + 1] == t.quote then Scan(t.i + 2, t.quote, t.depth)
        else Scan(t.i + 1, NO_QUOTE, t.depth)
      else Scan(t.i + 1, t.quote, t.depth)
    else if IsQuote(c) then Scan(t.i + 1, c, t.depth)
    else if c == '(' then Scan(t.i + 1, t.quote, t.depth + 1)
    else if c == ')' then Scan(t.i + 1, t.quote, if t.depth > 0 then t.depth - 1 else 0)
    else Scan(t.i + 1, t.quote, t.depth)
  }

  /** Where the scan next stops; |s| when it does not. */
  function NextCut(s: string, t: Scan): (p: nat)
    requires t.i <= |s|
    ensures t.i <= p <= |s|
    ensures p < |s| ==> Boundary(s, p) && KeywordAt(s, p).0 > 0
    decreases |s| - t.i
  {
    if t.i == |s| || StopsAt(s, t) then t.i else NextCut(s, Advance(s, t))
  }

  /** One step keeps the state in line with the quotes and parentheses seen, and passes no cut. */
  lemma AdvanceMode(s: string, i: nat)
    requires i < |s| && !StopsAt(s, ScanAt(s, i))
    ensures var u := Advance(s, ScanAt(s, i));
            u == ScanAt(s, u.i) && forall j :: i <= j < u.i ==> !IsCut(s, j)
  {
    QuoteIsQuote(s, i);
    var u := Advance(s, ScanAt(s, i));
    if u.i == i + 2 {
      NoKeywordAt(s, i + 1);
      assert Mode(s, i + 1) == (NO_QUOTE, Mode(s, i).1);
    }
  }

  function ScanAt(s: string, i: nat): Scan
    requires i <= |s|
  {
    Scan(i, Mode(s, i).0, Mode(s, i).1)
  }

  /** The scan stops exactly at the first cut of s. */
  lemma {:induction false} NextCutIsFirst(s: string, i: nat)
    requires i <= |s|
    ensures var p := NextCut(s, ScanAt(s, i));
            && (p == |s| || IsCut(s, p))
            && forall j :: i <= j < p ==> !IsCut(s, j)
    decreases |s| - i
  {
    if i < |s| && !StopsAt(s, ScanAt(s, i)) {
      AdvanceMode(s, i);
      var u := Advance(s, ScanAt(s, i));
      hide Advance, StopsAt, IsCut, Mode;
      NextCutIsFirst(s, u.i);
    }
  }

  lemma {:induction false} QuoteIsQuote(s: string, n: nat)
    requires n <= |s|
    ensures Mode(s, n).0 == NO_QUOTE || IsQuote(Mode(s, n).0)
  {
    if n > 0 {
      QuoteIsQuote(s, n - 1);
    }
  }

  /** Every keyword starts and ends with a letter. */
  predicate WellSpelled(kw: string) {
    kw != "" && 'A' <= kw[0] <= 'Z' && 'A' <= kw[|kw| - 1] <= 'Z'
  }

  lemma KeywordsWellSpelled()
    ensures forall k :: 0 <= k < |TOP_KEYWORDS| ==> WellSpelled(TOP_KEYWORDS[k])
    ensures forall k :: 0 <= k < |SUB_KEYWORDS| ==> WellSpelled(SUB_KEYWORDS[k])
  {}

  lemma {:induction false} FirstHitSpelled(s: string, i: nat, kws: seq<string>)
    requires forall k :: 0 <= k < |kws| ==> WellSpelled(kws[k])
    requires FirstHit(s, i, kws) > 0
    ensures IsWord(s[i]) && !IsQuote(s[i]) && s[i] != '(' && s[i] != ')'
    ensures IsWord(s[i + FirstHit(s, i, kws) - 1])
    decreases |kws|
  {
    if Hit(s, i, kws[0]) {
      var kw := kws[0];
      var cand := s[i..i + |kw|];
      assert cand[0] == s[i] && cand[|kw| - 1] == s[i + |kw| - 1];
      assert Upper(cand[0]) == kw[0] && Upper(cand[|kw| - 1]) == kw[|kw| - 1];
    } else {
      FirstHitSpelled(s, i, kws[1..]);
    }
  }

  lemma NoKeywordUnlessLetter(s: string, i: nat)
    requires KeywordAt(s, i).0 > 0
    ensures IsWord(s[i]) && !IsQuote(s[i]) && s[i] != '(' && s[i] != ')'
    ensures IsWord(s[i + KeywordAt(s, i).0 - 1])
  {
    KeywordsWellSpelled();
    if FirstHit(s, i, TOP_KEYWORDS) > 0 {
      FirstHitSpelled(s, i, TOP_KEYWORDS);
    } else {
      FirstHitSpelled(s, i, SUB_KEYWORDS);
    }
  }

  lemma NoKeywordAt(s: string, i: nat)
    requires i < |s| && !IsWord(s[i])
    ensures KeywordAt(s, i).0 == 0
  {
    if KeywordAt(s, i).0 > 0 {
      NoKeywordUnlessLetter(s, i);
    }
  }

  // ----- Trimming -----

  /** Where the text of s starts, behind its leading blanks. */
  function StartOf(s: string): (a: nat)
    ensures a <= |s| && (a < |s| ==> !Blank(s[a]))
    ensures forall i :: 0 <= i < a ==> Blank(s[i])
  {
    if s == "" || !Blank(s[0]) then 0 else 1 + StartOf(s[1..])
  }

  /** Where the text of s ends, in front of its trailing blanks. */
  function EndOf(s: string): (e: nat)
    ensures e <= |s| && (e > 0 ==> !Blank(s[e - 1]))
    ensures forall i :: e <= i < |s| ==> Blank(s[i])
  {
    if s == "" || !Blank(s[|s| - 1]) then |s| else EndOf(s[..|s| - 1])
  }

  function TrimLeft(s: string): string {
    s[StartOf(s)..]
  }

  function TrimRight(s: string): string {
    s[..EndOf(s)]
  }

  function Trim(s: string): string {
    TrimLeft(TrimRight(s))
  }

  /** Whitespace of the standard library's TrimSpace, as far as single bytes go. */
  predicate Space(c: char) {
    c == ' ' || c == '\t' || c == '\n' || c == '\r' || c as int == 11 || c as int == 12
  }

  function TrimSpace(s: string): string {
    if s == "" then ""
    else if Space(s[0]) then TrimSpace(s[1..])
    else if Space(s[|s| - 1]) then TrimSpace(s[..|s| - 1])
    else s
  }

  lemma {:induction false} TrimSpaceBlank(s: string)
    requires AllBlank(s)
    ensures TrimSpace(s) == ""
    decreases |s|
  {
    if s != "" {
      TrimSpaceBlank(s[1..]);
    }
  }

  predicate BlankIn(s: string, i: nat, j: nat) {
    forall k :: i <= k < j && k < |s| ==> Blank(s[k])
  }

  /** The text of t lies in a to b: blanks around it, and none at either of its ends. */
  predicate TextIn(t: string, a: nat, b: nat) {
    && a <= b <= |t|
    && BlankIn(t, 0, a)
    && BlankIn(t, b, |t|)
    && (a < b ==> !Blank(t[a]) && !Blank(t[b - 1]))
  }

  /** A trim keeps the span from the first to the last byte that is not blank. */
  lemma TrimSpan(t: string) returns (a: nat, b: nat)
    ensures TextIn(t, a, b) && Trim(t) == t[a..b]
  {
    b := EndOf(t);
    a := StartOf(t[..b]);
    assert t[..b][a..] == t[a..b];
    assert forall i :: 0 <= i < a ==> t[..b][i] == t[i];
  }

  lemma TrimIsUnique(t: string, a: nat, b: nat)
    requires TextIn(t, a, b)
    ensures Trim(t) == t[a..b]
  {
    var c, d := TrimSpan(t);
    hide Trim, Blank;
    if a < b {
      assert c <= a && b <= d;
    } else {
      assert forall k :: 0 <= k < |t| ==> Blank(t[k]);
    }
  }

  lemma TrimBehindBlanks(blank: string, t: string)
    requires AllBlank(blank)
    ensures Trim(blank + t) == Trim(t)
  {
    var a, b := TrimSpan(t);
    var all := blank + t;
    hide Trim, Blank;
    if a < b {
      TextBehind(blank, t, a, b);
      TrimIsUnique(all, |blank| + a, |blank| + b);
    } else {
      assert TextIn(all, 0, 0);
      TrimIsUnique(all, 0, 0);
    }
  }

  lemma TextBehind(blank: string, t: string, a: nat, b: nat)
    requires AllBlank(blank) && TextIn(t, a, b) && a < b
    ensures TextIn(blank + t, |blank| + a, |blank| + b)
    ensures (blank + t)[|blank| + a..|blank| + b] == t[a..b]
  {
    hide Blank;
  }

  // ----- The formatter -----

  function Spaces(n: nat): string {
    seq(n, _ => ' ')
  }

  /** A chunk of text as a row of the output; a blank chunk is no row. */
  function Row(chunk: string, indent: nat): seq<string> {
    var trimmed := Trim(chunk);
    if trimmed == "" then [] else [Spaces(indent) + trimmed]
  }

  /** The rows from there on, when the scan is at t and the current chunk started at from. */
  function Rows(s: string, from: nat, t: Scan, indent: nat): seq<string>
    requires from <= t.i <= |s|
    decreases |s| - t.i
  {
    var p := NextCut(s, t);
    if p == |s| then Row(s[from..p], indent)
    else
      var (n, sub) := KeywordAt(s, p);
      Row(s[from..p], indent) + Rows(s, p, Scan(p + n, NO_QUOTE, 0), if sub then 2 else 0)
  }

  function Format(s: string): seq<string> {
    var rows := Rows(s, 0, Scan(0, NO_QUOTE, 0), 0);
    if rows == [] then [TrimSpace(s)] else rows
  }

  method Emit(rows: seq<string>, cur: string, indent: nat) returns (rows': seq<string>, cur': string)
    ensures rows' == rows + Row(cur, indent)
    ensures cur' == if Trim(cur) == "" then cur else ""
  {
    var trimmed := TrimRight(cur);
    trimmed := TrimLeft(trimmed);
    if trimmed == "" {
      return rows + [], cur;
    }
    if indent > 0 {
      rows' := rows + [Spaces(indent) + trimmed];
    } else {
      assert Spaces(indent) + trimmed == trimmed;
      rows' := rows + [trimmed];
    }
    cur' := "";
  }

  ghost predicate Behind(cur: string, text: string) {
    exists blank :: AllBlank(blank) && cur == blank + text
  }

  lemma BehindBlank(blank: string, text: string)
    requires AllBlank(blank)
    ensures Behind(blank + text, text)
  {}

  lemma BehindMore(cur: string, s: string, from: nat, i: nat, j: nat)
    requires from <= i <= j <= |s| && Behind(cur, s[from..i])
    ensures Behind(cur + s[i..j], s[from..j])
  {
    var blank :| AllBlank(blank) && cur == blank + s[from..i];
    assert cur + s[i..j] == blank + s[from..j];
  }

  /**
   * rows are out, cur holds the chunk s[from..i], possibly behind blanks that could not be emitted, and
   * the rest of the scan will complete all.
   */
  ghost predicate Scanning(s: string, rows: seq<string>, cur: string, from: nat, t: Scan, indent: nat, all: seq<string>) {
    from <= t.i <= |s| && Behind(cur, s[from..t.i]) && rows + Rows(s, from, t, indent) == all
  }

  lemma ScanStart(s: string)
    ensures Scanning(s, [], "", 0, Scan(0, NO_QUOTE, 0), 0, Rows(s, 0, Scan(0, NO_QUOTE, 0), 0))
  {
    BehindBlank("", s[0..0]);
    assert "" + s[0..0] == "";
    var all := Rows(s, 0, Scan(0, NO_QUOTE, 0), 0);
    assert [] + all == all;
  }

  lemma AdvanceText(s: string, t: Scan)
    requires t.i < |s|
    ensures var u := Advance(s, t);
            && t.i < u.i <= |s|
            && (u.i == t.i + 1 ==> s[t.i..u.i] == [s[t.i]])
            && (u.i == t.i + 2 ==> s[t.i..u.i] == [s[t.i]] + [s[t.i]])
  {}

  lemma ScanOn(s: string, rows: seq<string>, cur: string, from: nat, t: Scan, indent: nat, all: seq<string>)
    requires Scanning(s, rows, cur, from, t, indent, all) && t.i < |s| && !StopsAt(s, t)
    ensures var u := Advance(s, t);
            && (u.i == t.i + 1 ==> Scanning(s, rows, cur + [s[t.i]], from, u, indent, all))
            && (u.i == t.i + 2 ==> Scanning(s, rows, cur + [s[t.i]] + [s[t.i]], from, u, indent, all))
  {
    var u := Advance(s, t);
    RowsOn(s, from, t, indent);
    AdvanceText(s, t);
    hide Advance, StopsAt, Rows, Behind, Row, NextCut, KeywordAt, Boundary;
    BehindMore(cur, s, from, t.i, u.i);
    Regroup(cur, [s[t.i]], [s[t.i]]);
  }

  lemma NextCutOn(s: string, t: Scan)
    requires t.i < |s| && !StopsAt(s, t)
    ensures NextCut(s, Advance(s, t)) == NextCut(s, t)
  {
    hide Advance, StopsAt, KeywordAt, Boundary;
  }

  lemma RowsOn(s: string, from: nat, t: Scan, indent: nat)
    requires from <= t.i < |s| && !StopsAt(s, t)
    ensures Rows(s, from, Advance(s, t), indent) == Rows(s, from, t, indent)
  {
    hide NextCut, Advance, KeywordAt, Row, StopsAt, Boundary;
    NextCutOn(s, t);
  }

  lemma TrimmedAway(t: string)
    requires Trim(t) == ""
    ensures AllBlank(t)
  {
    var a, b := TrimSpan(t);
  }

  /** The chunk in hand makes the same row with or without the blanks in front of it. */
  lemma ScanRow(s: string, rows: seq<string>, cur: string, from: nat, t: Scan, indent: nat, all: seq<string>)
    requires Scanning(s, rows, cur, from, t, indent, all)
    ensures Row(cur, indent) == Row(s[from..t.i], indent)
  {
    hide Trim, Rows;
    var blank :| AllBlank(blank) && cur == blank + s[from..t.i];
    TrimBehindBlanks(blank, s[from..t.i]);
  }

  lemma RowsCut(s: string, from: nat, t: Scan, indent: nat)
    requires from <= t.i && StopsAt(s, t)
    ensures Rows(s, from, t, indent)
         == Row(s[from..t.i], indent)
          + Rows(s, t.i, Scan(t.i + KeywordAt(s, t.i).0, NO_QUOTE, 0), if KeywordAt(s, t.i).1 then 2 else 0)
  {
    StopIsInside(s, t);
    assert NextCut(s, t) == t.i;
    hide StopsAt, KeywordAt, Row, NextCut, Boundary;
  }

  lemma StopIsInside(s: string, t: Scan)
    requires StopsAt(s, t)
    ensures t.i < |s| && 0 < KeywordAt(s, t.i).0
  {
    hide KeywordAt, Boundary;
  }

  lemma ScanRest(s: string, rows: seq<string>, cur: string, from: nat, t: Scan, indent: nat, all: seq<string>)
    requires Scanning(s, rows, cur, from, t, indent, all)
    ensures from <= t.i <= |s| && rows + Rows(s, from, t, indent) == all
  {}

  lemma ScanNext(s: string, rows: seq<string>, cur: string, from: nat, t: Scan, indent: nat, all: seq<string>)
    requires from <= t.i <= |s| && Behind(cur, s[from..t.i]) && rows + Rows(s, from, t, indent) == all
    ensures Scanning(s, rows, cur, from, t, indent, all)
  {}

  /** At a keyword the chunk is emitted and the next one starts with the keyword. */
  lemma ScanCut(s: string, rows: seq<string>, cur: string, from: nat, t: Scan, indent: nat, all: seq<string>)
    requires Scanning(s, rows, cur, from, t, indent, all) && StopsAt(s, t)
    ensures var (n, sub) := KeywordAt(s, t.i);
            var left := if Trim(cur) == "" then cur else "";
            Scanning(s, rows + Row(cur, indent), left + s[t.i..t.i + n], t.i, Scan(t.i + n, NO_QUOTE, 0),
                     if sub then 2 else 0, all)
  {
    hide *;
    var left := if Trim(cur) == "" then cur else "";
    LeftBlank(cur);
    ScanRow(s, rows, cur, from, t, indent, all);
    ScanRest(s, rows, cur, from, t, indent, all);
    RowsCut(s, from, t, indent);
    var n, next := KeywordAt(s, t.i).0, if KeywordAt(s, t.i).1 then 2 else 0;
    var u := Scan(t.i + n, NO_QUOTE, 0);
    Regroup(rows, Row(cur, indent), Rows(s, t.i, u, next));
    BehindBlank(left, s[t.i..t.i + n]);
    ScanNext(s, rows + Row(cur, indent), left + s[t.i..t.i + n], t.i, u, next, all);
  }

  /** A chunk that gives no row leaves only blanks in hand. */
  lemma LeftBlank(cur: string)
    ensures AllBlank(if Trim(cur) == "" then cur else "")
  {
    hide Trim;
    if Trim(cur) == "" {
      TrimmedAway(cur);
    }
  }

  /** A quote or parenthesis never starts a keyword. */
  lemma NoStop(s: string, t: Scan)
    requires t.i < |s| && !IsWord(s[t.i])
    ensures !StopsAt(s, t)
  {
    NoKeywordAt(s, t.i);
  }

  lemma ScanEnd(s: string, rows: seq<string>, cur: string, from: nat, t: Scan, indent: nat, all: seq<string>)
    requires Scanning(s, rows, cur, from, t, indent, all) && t.i == |s|
    ensures rows + Row(cur, indent) == all
  {
    ScanRow(s, rows, cur, from, t, indent, all);
  }

  method FormatSQL(s: string) returns (rows: seq<string>)
    ensures rows == Format(s)
  {
    hide Scanning, Rows, Row, NextCut, KeywordAt, Trim, Boundary, TrimSpace;
    rows := [];
    var cur := "";
    var quote, parenDepth, lastIndent := NO_QUOTE, 0, 0;
    var i, n := 0, |s|;
    ghost var from := 0;
    ghost var all := Rows(s, 0, Scan(0, NO_QUOTE, 0), 0);
    ScanStart(s);
    while i < n
      invariant 0 <= i <= n == |s| && 0 <= from && 0 <= parenDepth && 0 <= lastIndent
      invariant Scanning(s, rows, cur, from, Scan(i, quote, parenDepth), lastIndent, all)
      decreases n - i
    {
      var c := s[i];
      ghost var t := Scan(i, quote, parenDepth);
      if quote != NO_QUOTE {
        ScanOn(s, rows, cur, from, t, lastIndent, all);
        cur := cur + [c];
        if c == quote {
          if i + 1 < n && s[i + 1] == quote {
            cur := cur + [quote];
            i := i + 2;
            continue;
          }
          quote := NO_QUOTE;
        }
        i := i + 1;
        continue;
      }
      if c == '\'' || c == '\"' || c == '`' {
        NoStop(s, t);
        ScanOn(s, rows, cur, from, t, lastIndent, all);
        quote := c;
        cur := cur + [c];
        i := i + 1;
        continue;
      }
      if c == '(' {
        NoStop(s, t);
        ScanOn(s, rows, cur, from, t, lastIndent, all);
        parenDepth := parenDepth + 1;
        cur := cur + [c];
        i := i + 1;
        continue;
      }
      if c == ')' {
        NoStop(s, t);
        ScanOn(s, rows, cur, from, t, lastIndent, all);
        if parenDepth > 0 {
          parenDepth := parenDepth - 1;
        }
        cur := cur + [c];
        i := i + 1;
        continue;
      }
      if parenDepth == 0 && Boundary(s, i) {
        var hit, isSub := MatchKeyword(s, i);
        if hit != "" {
          ScanCut(s, rows, cur, from, t, lastIndent, all);
          rows, cur := Emit(rows, cur, lastIndent);
          lastIndent := if isSub then 2 else 0;
          cur := cur + hit;
          from := i;
          i := i + |hit|;
          continue;
        }
      }
      ScanOn(s, rows, cur, from, t, lastIndent, all);
      cur := cur + [c];
      i := i + 1;
    }
    ScanEnd(s, rows, cur, from, Scan(i, quote, parenDepth), lastIndent, all);
    rows, cur := Emit(rows, cur, lastIndent);
    if |rows| == 0 {
      return [TrimSpace(s)];
    }
  }
}
