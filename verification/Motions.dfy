/** The vim word motions over a log buffer (internal/tui/panes/logpanel_motion_ranges.go). */
module Motions {
  import opened Words

  datatype Cursor = Cursor(line: int, col: int)

  predicate Before(p: Cursor, q: Cursor) {
    p.line < q.line || (p.line == q.line && p.col < q.col)
  }

  /** A line with its escapes stripped; lines that do not exist are empty. */
  function StrippedLine(lines: seq<string>, i: int): string {
    if 0 <= i < |lines| then lines[i] else ""
  }

  function LineLen(lines: seq<string>, i: int): nat {
    |StrippedLine(lines, i)|
  }

  predicate InText(lines: seq<string>, p: Cursor) {
    0 <= p.line < |lines| && 0 <= p.col < |lines[p.line]|
  }

  function ClassAt(lines: seq<string>, cls: ClassFn, line: int, col: int): int
    requires InText(lines, Cursor(line, col))
  {
    ClassOf(lines[line][col], cls)
  }

  /** The first byte of a run of word bytes, or of a run of punctuation. */
  predicate WordStart(lines: seq<string>, cls: ClassFn, p: Cursor) {
    && InText(lines, p)
    && ClassAt(lines, cls, p.line, p.col) != 0
    && (p.col > 0 ==> ClassAt(lines, cls, p.line, p.col - 1) != ClassAt(lines, cls, p.line, p.col))
  }

  /** The last byte of such a run. */
  predicate WordEnd(lines: seq<string>, cls: ClassFn, p: Cursor) {
    && InText(lines, p)
    && ClassAt(lines, cls, p.line, p.col) != 0
    && (p.col + 1 < |lines[p.line]| ==> ClassAt(lines, cls, p.line, p.col + 1) != ClassAt(lines, cls, p.line, p.col))
  }

  /** With the class of the capital motions a word is a whole run of bytes that are not blank. */
  lemma WORDIsNonBlankRun(lines: seq<string>, p: Cursor)
    ensures WordStart(lines, IsWORD, p) <==>
              InText(lines, p) && !Blank(lines[p.line][p.col]) && (p.col > 0 ==> Blank(lines[p.line][p.col - 1]))
    ensures WordEnd(lines, IsWORD, p) <==>
              && InText(lines, p) && !Blank(lines[p.line][p.col])
              && (p.col + 1 < |lines[p.line]| ==> Blank(lines[p.line][p.col + 1]))
  {}

  /** Just past the last byte of the buffer. */
  function EndOfBuffer(lines: seq<string>): Cursor {
    Cursor(|lines| - 1, LineLen(lines, |lines| - 1))
  }

  function LastByte(lines: seq<string>): Cursor {
    var n := LineLen(lines, |lines| - 1);
    Cursor(|lines| - 1, if n > 0 then n - 1 else 0)
  }

  // ----- Extremal specifications, found by trying every position in turn -----

  /** The first word start at or after (line, col), else the end of the buffer. */
  function StartFrom(lines: seq<string>, cls: ClassFn, line: nat, col: nat): Cursor
    decreases |lines| - line, LineLen(lines, line) - col
  {
    if line >= |lines| then EndOfBuffer(lines)
    else if col >= |lines[line]| then StartFrom(lines, cls, line + 1, 0)
    else if WordStart(lines, cls, Cursor(line, col)) then Cursor(line, col)
    else StartFrom(lines, cls, line, col + 1)
  }

  /** The last word start before (line, col), else the start of the buffer. */
  function StartBefore(lines: seq<string>, cls: ClassFn, line: nat, col: nat): Cursor
    decreases line, col
  {
    if col > 0 then
      if WordStart(lines, cls, Cursor(line, col - 1)) then Cursor(line, col - 1)
      else StartBefore(lines, cls, line, col - 1)
    else if line == 0 then Cursor(0, 0)
    else StartBefore(lines, cls, line - 1, LineLen(lines, line - 1))
  }

  /** The first word end at or after (line, col), else the last byte of the buffer. */
  function EndFrom(lines: seq<string>, cls: ClassFn, line: nat, col: nat): Cursor
    decreases |lines| - line, LineLen(lines, line) - col
  {
    if line >= |lines| then LastByte(lines)
    else if col >= |lines[line]| then EndFrom(lines, cls, line + 1, 0)
    else if WordEnd(lines, cls, Cursor(line, col)) then Cursor(line, col)
    else EndFrom(lines, cls, line, col + 1)
  }

  predicate Valid(lines: seq<string>, p: Cursor) {
    0 <= p.line < |lines| && 0 <= p.col
  }

  /** The first word start after p. */
  function NextStart(lines: seq<string>, cls: ClassFn, p: Cursor): Cursor
    requires Valid(lines, p)
  {
    StartFrom(lines, cls, p.line, p.col + 1)
  }

  /** The last word start before p. */
  function PrevStart(lines: seq<string>, cls: ClassFn, p: Cursor): Cursor
    requires Valid(lines, p)
  {
    var n := LineLen(lines, p.line);
    StartBefore(lines, cls, p.line, if p.col <= n then p.col else n)
  }

  /** The first word end after p. */
  function NextEnd(lines: seq<string>, cls: ClassFn, p: Cursor): Cursor
    requires Valid(lines, p)
  {
    EndFrom(lines, cls, p.line, p.col + 1)
  }

  lemma {:induction false} StartFromIsLeast(lines: seq<string>, cls: ClassFn, line: nat, col: nat)
    requires line <= |lines| && 0 < |lines|
    ensures var q := StartFrom(lines, cls, line, col);
            var from := Cursor(line, col);
            if WordStart(lines, cls, q) then
              !Before(q, from) && forall r :: WordStart(lines, cls, r) && !Before(r, from) ==> !Before(r, q)
            else
              q == EndOfBuffer(lines) && forall r :: WordStart(lines, cls, r) ==> Before(r, from)
    decreases |lines| - line, LineLen(lines, line) - col
  {
    if line < |lines| {
      if col >= |lines[line]| {
        StartFromIsLeast(lines, cls, line + 1, 0);
      } else if !WordStart(lines, cls, Cursor(line, col)) {
        StartFromIsLeast(lines, cls, line, col + 1);
      }
    }
  }

  lemma {:induction false} StartBeforeIsGreatest(lines: seq<string>, cls: ClassFn, line: nat, col: nat)
    requires line < |lines| && col <= |lines[line]|
    ensures var q := StartBefore(lines, cls, line, col);
            var from := Cursor(line, col);
            if WordStart(lines, cls, q) && Before(q, from) then
              forall r :: WordStart(lines, cls, r) && Before(r, from) ==> !Before(q, r)
            else
              q == Cursor(0, 0) && forall r :: WordStart(lines, cls, r) ==> !Before(r, from)
    decreases line, col
  {
    if col > 0 {
      if !WordStart(lines, cls, Cursor(line, col - 1)) {
        StartBeforeIsGreatest(lines, cls, line, col - 1);
      }
    } else if line > 0 {
      StartBeforeIsGreatest(lines, cls, line - 1, |lines[line - 1]|);
    }
  }

  lemma {:induction false} EndFromIsLeast(lines: seq<string>, cls: ClassFn, line: nat, col: nat)
    requires line <= |lines| && 0 < |lines|
    ensures var q := EndFrom(lines, cls, line, col);
            var from := Cursor(line, col);
            if WordEnd(lines, cls, q) && !Before(q, from) then
              forall r :: WordEnd(lines, cls, r) && !Before(r, from) ==> !Before(r, q)
            else
              q == LastByte(lines) && forall r :: WordEnd(lines, cls, r) ==> Before(r, from)
    decreases |lines| - line, LineLen(lines, line) - col
  {
    if line < |lines| {
      if col >= |lines[line]| {
        EndFromIsLeast(lines, cls, line + 1, 0);
      } else if !WordEnd(lines, cls, Cursor(line, col)) {
        EndFromIsLeast(lines, cls, line, col + 1);
      }
    }
  }

  /** NextStart is the least word start after p; failing that, the end of the buffer. */
  lemma NextStartIsLeast(lines: seq<string>, cls: ClassFn, p: Cursor)
    requires Valid(lines, p)
    ensures var q := NextStart(lines, cls, p);
            if WordStart(lines, cls, q) then
              Before(p, q) && forall r :: WordStart(lines, cls, r) && Before(p, r) ==> !Before(r, q)
            else
              q == Cursor(|lines| - 1, |lines[|lines| - 1]|) && forall r :: WordStart(lines, cls, r) ==> !Before(p, r)
  {
    StartFromIsLeast(lines, cls, p.line, p.col + 1);
  }

  /** PrevStart is the greatest word start before p; failing that, the start of the buffer. */
  lemma PrevStartIsGreatest(lines: seq<string>, cls: ClassFn, p: Cursor)
    requires Valid(lines, p)
    ensures var q := PrevStart(lines, cls, p);
            if WordStart(lines, cls, q) && Before(q, p) then
              forall r :: WordStart(lines, cls, r) && Before(r, p) ==> !Before(q, r)
            else
              q == Cursor(0, 0) && forall r :: WordStart(lines, cls, r) ==> !Before(r, p)
  {
    var n := |lines[p.line]|;
    StartBeforeIsGreatest(lines, cls, p.line, if p.col <= n then p.col else n);
  }

  /** NextEnd is the least word end after p; failing that, the last byte of the buffer. */
  lemma NextEndIsLeast(lines: seq<string>, cls: ClassFn, p: Cursor)
    requires Valid(lines, p)
    ensures var q := NextEnd(lines, cls, p);
            if WordEnd(lines, cls, q) && Before(p, q) then
              forall r :: WordEnd(lines, cls, r) && Before(p, r) ==> !Before(r, q)
            else
              q == Cursor(|lines| - 1, if lines[|lines| - 1] == "" then 0 else |lines[|lines| - 1]| - 1) && forall r :: WordEnd(lines, cls, r) ==> !Before(p, r)
  {
    EndFromIsLeast(lines, cls, p.line, p.col + 1);
  }

  // ----- w -----

  lemma {:induction false} StartFromSkip(lines: seq<string>, cls: ClassFn, line: nat, a: nat, b: nat)
    requires line < |lines| && a <= b <= |lines[line]|
    requires forall i :: a <= i < b ==> !WordStart(lines, cls, Cursor(line, i))
    ensures StartFrom(lines, cls, line, a) == StartFrom(lines, cls, line, b)
    decreases b - a
  {
    if a < b {
      StartFromSkip(lines, cls, line, a + 1, b);
    }
  }

  /** Where `w` really starts from: past the end of a line it first steps onto the next one. */
  function Departure(lines: seq<string>, p: Cursor): (q: Cursor)
    requires Valid(lines, p)
    ensures Valid(lines, q)
  {
    if p.col >= |lines[p.line]| && p.line + 1 < |lines| then Cursor(p.line + 1, 0) else p
  }

  /** Stepping over a byte that starts no word. */
  lemma ForwardOver(lines: seq<string>, cls: ClassFn, line: nat, col: nat)
    requires InText(lines, Cursor(line, col)) && !WordStart(lines, cls, Cursor(line, col))
    ensures StartFrom(lines, cls, line, col) == StartFrom(lines, cls, line, col + 1)
  {}

  lemma ForwardOverLine(lines: seq<string>, cls: ClassFn, line: nat, col: nat)
    requires line < |lines| && col >= |lines[line]|
    ensures StartFrom(lines, cls, line, col)
         == if line + 1 == |lines| then EndOfBuffer(lines) else StartFrom(lines, cls, line + 1, 0)
  {}

  lemma ForwardFound(lines: seq<string>, cls: ClassFn, line: nat, col: nat)
    requires WordStart(lines, cls, Cursor(line, col))
    ensures StartFrom(lines, cls, line, col) == Cursor(line, col)
  {}

  method WordForwardOnce(lines: seq<string>, start: Cursor, cls: ClassFn) returns (end: Cursor)
    requires Valid(lines, start)
    ensures end == NextStart(lines, cls, Departure(lines, start))
  {
    hide StartFrom;
    var line, col := start.line, start.col;
    var total := |lines|;
    var s := StrippedLine(lines, line);
    if col >= |s| {
      if line + 1 >= total {
        ForwardOverLine(lines, cls, line, col + 1);
        return Cursor(total - 1, LineLen(lines, total - 1));
      }
      line := line + 1;
      col := 0;
      s := StrippedLine(lines, line);
    }
    ghost var from := col;
    ghost var target := NextStart(lines, cls, Cursor(line, col));
    if col < |s| {
      var curClass := ClassOf(s[col], cls);
      if curClass != 0 {
        while col < |s| && ClassOf(s[col], cls) == curClass
          invariant from <= col <= |s|
          invariant forall i :: from <= i < col ==> ClassOf(s[i], cls) == curClass
        {
          col := col + 1;
        }
        StartFromSkip(lines, cls, line, from + 1, col);
      } else {
        ForwardOver(lines, cls, line, col);
      }
    } else {
      ForwardOverLine(lines, cls, line, col);
      ForwardOverLine(lines, cls, line, col + 1);
    }
    while line < total
      invariant 0 <= line < total && 0 <= col
      invariant StartFrom(lines, cls, line, col) == target
      invariant col < |lines[line]| && ClassAt(lines, cls, line, col) != 0 ==> WordStart(lines, cls, Cursor(line, col))
      decreases total - line, LineLen(lines, line) - col
    {
      s := StrippedLine(lines, line);
      if col >= |s| {
        ForwardOverLine(lines, cls, line, col);
        if line + 1 >= total {
          return Cursor(total - 1, LineLen(lines, total - 1));
        }
        line := line + 1;
        col := 0;
        continue;
      }
      if ClassOf(s[col], cls) == 0 {
        ForwardOver(lines, cls, line, col);
        col := col + 1;
        continue;
      }
      ForwardFound(lines, cls, line, col);
      return Cursor(line, col);
    }
    return Cursor(total - 1, LineLen(lines, total - 1));
  }

  /** When `w` may be used: inside a line, or in front of a line that does not start with a word. */
  predicate ForwardGuard(lines: seq<string>, p: Cursor)
    requires Valid(lines, p)
  {
    p.col < |lines[p.line]| || p.line + 1 >= |lines| || lines[p.line + 1] == "" || Blank(lines[p.line + 1][0])
  }

  /** `w` reaches the first word start after the cursor exactly under the guard; otherwise it skips a word. */
  lemma ForwardIsExact(lines: seq<string>, cls: ClassFn, p: Cursor)
    requires Valid(lines, p)
    ensures NextStart(lines, cls, Departure(lines, p)) == NextStart(lines, cls, p) <==> ForwardGuard(lines, p)
  {
    if p.col >= |lines[p.line]| && p.line + 1 < |lines| {
      var first := Cursor(p.line + 1, 0);
      assert NextStart(lines, cls, p) == StartFrom(lines, cls, p.line + 1, 0);
      NextStartIsLeast(lines, cls, first);
    }
  }

  /** From an empty line `w` skips the first word of the next one. */
  lemma ForwardSkipsWord()
    ensures var lines := ["", "ab cd"];
            && WordStart(lines, IsWord, Cursor(1, 0))
            && NextStart(lines, IsWord, Departure(lines, Cursor(0, 0))) == Cursor(1, 3)
  {
    var lines := ["", "ab cd"];
    assert !WordStart(lines, IsWord, Cursor(1, 1)) && !WordStart(lines, IsWord, Cursor(1, 2));
    assert WordStart(lines, IsWord, Cursor(1, 3));
    StartFromSkip(lines, IsWord, 1, 1, 3);
  }

  // ----- b -----

  lemma {:induction false} StartBeforeSkip(lines: seq<string>, cls: ClassFn, line: nat, a: nat, b: nat)
    requires line < |lines| && a <= b
    requires forall i :: a <= i < b ==> !WordStart(lines, cls, Cursor(line, i))
    ensures StartBefore(lines, cls, line, b) == StartBefore(lines, cls, line, a)
    decreases b - a
  {
    if a < b {
      StartBeforeSkip(lines, cls, line, a, b - 1);
    }
  }

  /** Backing over a byte that starts no word. */
  lemma BackOver(lines: seq<string>, cls: ClassFn, line: nat, col: nat)
    requires InText(lines, Cursor(line, col))
    requires Blank(lines[line][col]) || (col > 0 && ClassAt(lines, cls, line, col - 1) == ClassAt(lines, cls, line, col))
    ensures StartBefore(lines, cls, line, col + 1) == StartBefore(lines, cls, line, col)
  {}

  lemma BackOverLine(lines: seq<string>, cls: ClassFn, line: nat)
    ensures StartBefore(lines, cls, line, 0)
         == if line == 0 then Cursor(0, 0) else StartBefore(lines, cls, line - 1, LineLen(lines, line - 1))
  {}

  lemma BackFound(lines: seq<string>, cls: ClassFn, line: nat, col: nat)
    requires WordStart(lines, cls, Cursor(line, col))
    ensures StartBefore(lines, cls, line, col + 1) == Cursor(line, col)
  {}

  /** How much of its line `b` looks at: nothing when the cursor is beyond the end. */
  function Reach(lines: seq<string>, p: Cursor): nat
    requires Valid(lines, p)
  {
    if p.col <= |lines[p.line]| then p.col else 0
  }

  method WordBackwardOnce(lines: seq<string>, start: Cursor, cls: ClassFn) returns (end: Cursor)
    requires Valid(lines, start)
    ensures end == StartBefore(lines, cls, start.line, Reach(lines, start))
  {
    hide StartBefore;
    var line, col := start.line, start.col;
    ghost var target := StartBefore(lines, cls, start.line, Reach(lines, start));
    BackOverLine(lines, cls, line);
    if col == 0 {
      if line == 0 {
        return Cursor(0, 0);
      }
      line := line - 1;
      col := LineLen(lines, line);
    }
    col := col - 1;
    if col < 0 {
      col := 0;
    }
    while true
      invariant 0 <= line < |lines| && -1 <= col
      invariant target == StartBefore(lines, cls, line, if col < |lines[line]| then col + 1 else 0)
      decreases line
    {
      var s := StrippedLine(lines, line);
      while col >= 0 && col < |s| && (s[col] == ' ' || s[col] == '\t')
        invariant -1 <= col
        invariant target == StartBefore(lines, cls, line, if col < |s| then col + 1 else 0)
        decreases col
      {
        BackOver(lines, cls, line, col);
        col := col - 1;
      }
      if col >= 0 && col < |s| {
        break;
      }
      BackOverLine(lines, cls, line);
      if line == 0 {
        return Cursor(0, 0);
      }
      line := line - 1;
      col := LineLen(lines, line) - 1;
    }
    var s := StrippedLine(lines, line);
    var curClass := ClassOf(s[col], cls);
    while col > 0
      invariant 0 <= col < |s| && ClassOf(s[col], cls) == curClass != 0
      invariant target == StartBefore(lines, cls, line, col + 1)
    {
      var prev := ClassOf(s[col - 1], cls);
      if prev == curClass {
        BackOver(lines, cls, line, col);
        col := col - 1;
        continue;
      }
      break;
    }
    BackFound(lines, cls, line, col);
    return Cursor(line, col);
  }

  /** When `b` may be used: not beyond the end of a line, unless ignoring the line changes nothing. */
  predicate BackwardGuard(lines: seq<string>, cls: ClassFn, p: Cursor)
    requires Valid(lines, p)
  {
    || p.col <= |lines[p.line]|
    || AllBlank(lines[p.line])
    || (p.line == 0 && forall i :: 0 < i < |lines[0]| ==> !WordStart(lines, cls, Cursor(0, i)))
  }

  lemma BackwardIsExact(lines: seq<string>, cls: ClassFn, p: Cursor)
    requires Valid(lines, p)
    ensures StartBefore(lines, cls, p.line, Reach(lines, p)) == PrevStart(lines, cls, p) <==> BackwardGuard(lines, cls, p)
  {
    var s := lines[p.line];
    if p.col > |s| {
      if AllBlank(s) {
        StartBeforeSkip(lines, cls, p.line, 0, |s|);
      } else {
        var i :| 0 <= i < |s| && !Blank(s[i]);
        var start := RunStart(lines, cls, p.line, i);
        StartBeforeIsGreatest(lines, cls, p.line, |s|);
        StartBeforeIsGreatest(lines, cls, p.line, 0);
        assert WordStart(lines, cls, Cursor(p.line, start));
        var q := PrevStart(lines, cls, p);
        assert q.line == p.line && WordStart(lines, cls, q);
        if p.line == 0 {
          assert StartBefore(lines, cls, 0, 0) == Cursor(0, 0);
          if forall j :: 0 < j < |s| ==> !WordStart(lines, cls, Cursor(0, j)) {
            assert q == Cursor(0, q.col);
          } else {
            var j :| 0 < j < |s| && WordStart(lines, cls, Cursor(0, j));
            assert !Before(q, Cursor(0, j));
          }
        }
      }
    }
  }

  /**
   * From behind the line "ab cd", where a cursor stays when the line under it is replaced by a shorter one,
   * `b` goes to the start of the buffer, and not to "cd".
   */
  lemma BackwardSkipsLine()
    ensures var lines, p := ["ab cd"], Cursor(0, 7);
            && PrevStart(lines, IsWord, p) == Cursor(0, 3) && WordStart(lines, IsWord, Cursor(0, 3))
            && StartBefore(lines, IsWord, p.line, Reach(lines, p)) == Cursor(0, 0)
  {
    var lines, p := ["ab cd"], Cursor(0, 7);
    assert WordStart(lines, IsWord, Cursor(0, 3));
    StartBeforeSkip(lines, IsWord, 0, 4, 5);
    BackFound(lines, IsWord, 0, 3);
    BackOverLine(lines, IsWord, 0);
  }

  /** A byte that is not blank belongs to a word that starts at or before it. */
  lemma RunStart(lines: seq<string>, cls: ClassFn, line: nat, i: nat) returns (start: nat)
    requires InText(lines, Cursor(line, i)) && ClassAt(lines, cls, line, i) != 0
    ensures start <= i && WordStart(lines, cls, Cursor(line, start))
  {
    if i == 0 || ClassAt(lines, cls, line, i - 1) != ClassAt(lines, cls, line, i) {
      start := i;
    } else {
      start := RunStart(lines, cls, line, i - 1);
    }
  }

  // ----- e -----

  method WordEndForwardOnce(lines: seq<string>, start: Cursor, cls: ClassFn) returns (end: Cursor)
    requires Valid(lines, start)
    ensures end == NextEnd(lines, cls, start)
  {
    var line, col := start.line, start.col;
    var total := |lines|;
    ghost var target := NextEnd(lines, cls, start);
    var s := StrippedLine(lines, line);
    if col < |s| {
      col := col + 1;
    } else if line + 1 < total {
      line := line + 1;
      col := 0;
    }
    while line < total
      invariant 0 <= line < total && 0 <= col
      invariant target == EndFrom(lines, cls, line, col)
      decreases total - line
    {
      s := StrippedLine(lines, line);
      while col < |s| && (s[col] == ' ' || s[col] == '\t')
        invariant 0 <= col
        invariant target == EndFrom(lines, cls, line, col)
      {
        assert !WordEnd(lines, cls, Cursor(line, col));
        col := col + 1;
      }
      if col >= |s| {
        if line + 1 >= total {
          return Cursor(line, if |s| - 1 > 0 then |s| - 1 else 0);
        }
        line := line + 1;
        col := 0;
        continue;
      }
      var curClass := ClassOf(s[col], cls);
      while col + 1 < |s| && ClassOf(s[col + 1], cls) == curClass
        invariant 0 <= col < |s| && ClassOf(s[col], cls) == curClass
        invariant target == EndFrom(lines, cls, line, col)
      {
        assert !WordEnd(lines, cls, Cursor(line, col));
        col := col + 1;
      }
      assert WordEnd(lines, cls, Cursor(line, col));
      return Cursor(line, col);
    }
    return LastByte(lines);
  }

  // ----- Counts, and going back -----

  lemma MotionsStayValid(lines: seq<string>, cls: ClassFn, p: Cursor)
    requires Valid(lines, p)
    ensures Valid(lines, NextStart(lines, cls, p)) && Valid(lines, PrevStart(lines, cls, p))
    ensures Valid(lines, StartBefore(lines, cls, p.line, Reach(lines, p)))
    ensures Valid(lines, NextEnd(lines, cls, p))
  {
    NextStartIsLeast(lines, cls, p);
    PrevStartIsGreatest(lines, cls, p);
    StartBeforeIsGreatest(lines, cls, p.line, Reach(lines, p));
    NextEndIsLeast(lines, cls, p);
  }

  /** n times `w`. */
  ghost function Forward(lines: seq<string>, cls: ClassFn, p: Cursor, n: nat): (q: Cursor)
    requires Valid(lines, p)
    ensures Valid(lines, q)
  {
    if n == 0 then p
    else
      var m := Forward(lines, cls, p, n - 1);
      MotionsStayValid(lines, cls, Departure(lines, m));
      NextStart(lines, cls, Departure(lines, m))
  }

  /** n times `b`. */
  ghost function Backward(lines: seq<string>, cls: ClassFn, p: Cursor, n: nat): (q: Cursor)
    requires Valid(lines, p)
    ensures Valid(lines, q)
    decreases n
  {
    if n == 0 then p
    else
      MotionsStayValid(lines, cls, p);
      Backward(lines, cls, StartBefore(lines, cls, p.line, Reach(lines, p)), n - 1)
  }

  /** n times `e`. */
  ghost function EndForward(lines: seq<string>, cls: ClassFn, p: Cursor, n: nat): (q: Cursor)
    requires Valid(lines, p)
    ensures Valid(lines, q)
  {
    if n == 0 then p
    else
      var m := EndForward(lines, cls, p, n - 1);
      MotionsStayValid(lines, cls, m);
      NextEnd(lines, cls, m)
  }

  method WordForwardN(lines: seq<string>, start: Cursor, cls: ClassFn, n: nat) returns (cur: Cursor)
    requires Valid(lines, start)
    ensures cur == Forward(lines, cls, start, n)
  {
    cur := start;
    for i := 0 to n
      invariant cur == Forward(lines, cls, start, i)
    {
      cur := WordForwardOnce(lines, cur, cls);
    }
  }

  method WordBackwardN(lines: seq<string>, start: Cursor, cls: ClassFn, n: nat) returns (cur: Cursor)
    requires Valid(lines, start)
    ensures cur == Backward(lines, cls, start, n)
  {
    cur := start;
    for i := 0 to n
      invariant Valid(lines, cur) && Backward(lines, cls, cur, n - i) == Backward(lines, cls, start, n)
    {
      MotionsStayValid(lines, cls, cur);
      cur := WordBackwardOnce(lines, cur, cls);
    }
  }

  method WordEndForwardN(lines: seq<string>, start: Cursor, cls: ClassFn, n: nat) returns (cur: Cursor)
    requires Valid(lines, start)
    ensures cur == EndForward(lines, cls, start, n)
  {
    cur := start;
    for i := 0 to n
      invariant cur == EndForward(lines, cls, start, i)
    {
      cur := WordEndForwardOnce(lines, cur, cls);
    }
  }

  /** `b` undoes `w` between word starts. */
  lemma BackUndoesForward(lines: seq<string>, cls: ClassFn, p: Cursor)
    requires WordStart(lines, cls, p) && WordStart(lines, cls, NextStart(lines, cls, p))
    ensures PrevStart(lines, cls, NextStart(lines, cls, p)) == p
  {
    var q := NextStart(lines, cls, p);
    NextStartIsLeast(lines, cls, p);
    PrevStartIsGreatest(lines, cls, q);
    var r := PrevStart(lines, cls, q);
    assert !Before(r, p) && !Before(p, r);
  }

  /** n times `b` undoes n times `w` from a word start to a word start. */
  lemma {:induction false} BackUndoesForwardN(lines: seq<string>, cls: ClassFn, p: Cursor, n: nat)
    requires WordStart(lines, cls, p) && WordStart(lines, cls, Forward(lines, cls, p, n))
    ensures Backward(lines, cls, Forward(lines, cls, p, n), n) == p
    decreases n
  {
    if n > 0 {
      StartBeforeLast(lines, cls, p, n);
      BackIsPrev(lines, cls, Forward(lines, cls, p, n));
      BackwardUnfold(lines, cls, Forward(lines, cls, p, n), n);
      hide *;
      BackUndoesForward(lines, cls, Forward(lines, cls, p, n - 1));
      BackUndoesForwardN(lines, cls, p, n - 1);
    }
  }

  /** On the way to a word start every stop is a word start. */
  lemma StartBeforeLast(lines: seq<string>, cls: ClassFn, p: Cursor, n: nat)
    requires 0 < n && WordStart(lines, cls, p) && WordStart(lines, cls, Forward(lines, cls, p, n))
    ensures WordStart(lines, cls, Forward(lines, cls, p, n - 1))
    ensures Forward(lines, cls, p, n) == NextStart(lines, cls, Forward(lines, cls, p, n - 1))
  {
    ForwardStaysOnStarts(lines, cls, p, n - 1);
    AtEndStays(lines, cls);
  }

  lemma BackwardUnfold(lines: seq<string>, cls: ClassFn, q: Cursor, n: nat)
    requires 0 < n && WordStart(lines, cls, q)
    ensures Valid(lines, PrevStart(lines, cls, q))
    ensures Backward(lines, cls, q, n) == Backward(lines, cls, PrevStart(lines, cls, q), n - 1)
  {
    MotionsStayValid(lines, cls, q);
  }

  lemma BackIsPrev(lines: seq<string>, cls: ClassFn, q: Cursor)
    requires WordStart(lines, cls, q)
    ensures Valid(lines, q) && StartBefore(lines, cls, q.line, Reach(lines, q)) == PrevStart(lines, cls, q)
    ensures Departure(lines, q) == q
  {}

  /** From a word start, `w` is on a word start or at the end of the buffer. */
  lemma {:induction false} ForwardStaysOnStarts(lines: seq<string>, cls: ClassFn, p: Cursor, n: nat)
    requires WordStart(lines, cls, p)
    ensures var q := Forward(lines, cls, p, n);
            WordStart(lines, cls, q) || q == EndOfBuffer(lines)
    decreases n
  {
    if n > 0 {
      var m := Forward(lines, cls, p, n - 1);
      NextStartIsLeast(lines, cls, Departure(lines, m));
    }
  }

  lemma AtEndStays(lines: seq<string>, cls: ClassFn)
    requires 0 < |lines|
    ensures NextStart(lines, cls, Departure(lines, EndOfBuffer(lines))) == EndOfBuffer(lines)
    ensures !WordStart(lines, cls, EndOfBuffer(lines))
  {
    assert StartFrom(lines, cls, |lines|, 0) == EndOfBuffer(lines);
  }
}
