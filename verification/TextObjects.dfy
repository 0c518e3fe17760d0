/** Text objects on one line (internal/tui/panes/logpanel_textobjects.go). A char stands for one byte. */
module TextObjects {
  import opened Words

  // ----- Bracket pairs -----

  /** How many more opening than closing brackets the first i bytes hold. */
  function Depth(line: string, open: char, close: char, i: nat): int
    requires i <= |line|
  {
    if i == 0 then 0
    else Depth(line, open, close, i - 1) + if line[i - 1] == open then 1 else if line[i - 1] == close then -1 else 0
  }

  /** Never below its starting depth on the way from lo to hi. */
  ghost predicate StaysAbove(line: string, open: char, close: char, lo: nat, hi: nat)
    requires lo <= hi <= |line|
  {
    forall k :: lo <= k <= hi ==> Depth(line, open, close, lo) <= Depth(line, open, close, k)
  }

  /** An opening and a closing bracket with a balanced interior. */
  ghost predicate IsPair(line: string, open: char, close: char, s: int, e: int) {
    && open != close
    && 0 <= s < e < |line| && line[s] == open && line[e] == close
    && StaysAbove(line, open, close, s + 1, e)
    && Depth(line, open, close, e) == Depth(line, open, close, s + 1)
  }

  /** A pair that starts inside another ends inside it. */
  lemma StartsInside(line: string, open: char, close: char, s: int, e: int, s': int, e': int)
    requires IsPair(line, open, close, s, e) && IsPair(line, open, close, s', e')
    requires s < s' <= e
    ensures e' <= e
  {
    assert Depth(line, open, close, s + 1) <= Depth(line, open, close, s');
    assert Depth(line, open, close, e + 1) == Depth(line, open, close, s);
  }

  /** Pairs are disjoint or nested. */
  lemma PairsNest(line: string, open: char, close: char, s: int, e: int, s': int, e': int)
    requires IsPair(line, open, close, s, e) && IsPair(line, open, close, s', e')
    ensures e < s' || e' < s || (s <= s' && e' <= e) || (s' <= s && e <= e')
  {
    if s < s' <= e {
      StartsInside(line, open, close, s, e, s', e');
    } else if s' < s <= e' {
      StartsInside(line, open, close, s', e', s, e);
    }
  }

  /** The stack of the scan at i: the opening brackets not closed yet, with balanced text between them. */
  ghost predicate OpenAt(line: string, open: char, close: char, stack: seq<nat>, i: nat)
    requires i <= |line|
  {
    && (forall k :: 0 <= k < |stack| ==> stack[k] < i && line[stack[k]] == open)
    && (forall j, k :: 0 <= j < k < |stack| ==> stack[j] < stack[k])
    && (forall k :: 0 <= k < |stack| ==> StaysAbove(line, open, close, stack[k] + 1, i))
    && (forall k :: 0 <= k < |stack| ==> Depth(line, open, close, i) == Depth(line, open, close, stack[k]) + |stack| - k)
    && (forall o: nat :: o < i && line[o] == open && StaysAbove(line, open, close, o + 1, i) ==> o in stack)
  }

  lemma StaysAboveStep(line: string, open: char, close: char, lo: nat, i: nat)
    requires lo <= i < |line|
    ensures StaysAbove(line, open, close, lo, i + 1)
       <==> StaysAbove(line, open, close, lo, i) && Depth(line, open, close, lo) <= Depth(line, open, close, i + 1)
    ensures StaysAbove(line, open, close, lo, i) ==> Depth(line, open, close, lo) <= Depth(line, open, close, i)
    ensures StaysAbove(line, open, close, i + 1, i + 1)
  {}

  lemma PushOpen(line: string, open: char, close: char, stack: seq<nat>, i: nat)
    requires i < |line| && OpenAt(line, open, close, stack, i) && line[i] == open
    ensures OpenAt(line, open, close, stack + [i], i + 1)
  {
    hide StaysAbove;
    var now := stack + [i];
    forall k | 0 <= k < |now|
      ensures StaysAbove(line, open, close, now[k] + 1, i + 1)
    {
      if k < |stack| {
        StaysAboveStep(line, open, close, now[k] + 1, i);
      } else {
        StaysAboveStep(line, open, close, i, i);
      }
    }
    forall o: nat | o < i + 1 && line[o] == open && StaysAbove(line, open, close, o + 1, i + 1)
      ensures o in now
    {
      if o == i {
        assert now[|stack|] == i;
      } else {
        StaysAboveStep(line, open, close, o + 1, i);
      }
    }
  }

  lemma SkipByte(line: string, open: char, close: char, stack: seq<nat>, i: nat)
    requires i < |line| && OpenAt(line, open, close, stack, i) && line[i] != open
    requires line[i] == close ==> stack == []
    ensures OpenAt(line, open, close, stack, i + 1)
  {
    forall k | 0 <= k < |stack|
      ensures StaysAbove(line, open, close, stack[k] + 1, i + 1)
    {
      StaysAboveStep(line, open, close, stack[k] + 1, i);
    }
    forall o: nat | o < i + 1 && line[o] == open && StaysAbove(line, open, close, o + 1, i + 1)
      ensures o in stack
    {
      StaysAboveStep(line, open, close, o + 1, i);
    }
  }

  lemma PopOpen(line: string, open: char, close: char, stack: seq<nat>, i: nat)
    requires open != close
    requires i < |line| && OpenAt(line, open, close, stack, i) && line[i] == close && stack != []
    ensures OpenAt(line, open, close, stack[..|stack| - 1], i + 1)
    ensures IsPair(line, open, close, stack[|stack| - 1], i)
  {
    var now, top := stack[..|stack| - 1], stack[|stack| - 1];
    assert Depth(line, open, close, i + 1) == Depth(line, open, close, top);
    hide StaysAbove;
    forall k | 0 <= k < |now|
      ensures StaysAbove(line, open, close, now[k] + 1, i + 1)
    {
      StaysAboveStep(line, open, close, now[k] + 1, i);
      assert now[k] == stack[k];
    }
    forall o: nat | o < i + 1 && line[o] == open && StaysAbove(line, open, close, o + 1, i + 1)
      ensures o in now
    {
      StaysAboveStep(line, open, close, o + 1, i);
      assert o in stack;
    }
  }

  /** The only opening bracket a closing one can pair with is the top of the stack. */
  lemma PairIsTop(line: string, open: char, close: char, stack: seq<nat>, i: nat, s: int)
    requires i < |line| && OpenAt(line, open, close, stack, i) && IsPair(line, open, close, s, i)
    ensures stack != [] && s == stack[|stack| - 1]
  {
    assert s in stack;
    var k :| 0 <= k < |stack| && stack[k] == s;
    assert Depth(line, open, close, i) == Depth(line, open, close, s) + |stack| - k;
  }

  /** Exactly the pairs that close before i have been collected. */
  ghost predicate Collected(line: string, open: char, close: char, pairs: seq<(int, int)>, i: nat) {
    forall s, e :: (s, e) in pairs <==> e < i && IsPair(line, open, close, s, e)
  }

  lemma CollectClose(line: string, open: char, close: char, stack: seq<nat>, pairs: seq<(int, int)>, i: nat)
    requires i < |line| && open != close && line[i] == close
    requires OpenAt(line, open, close, stack, i) && Collected(line, open, close, pairs, i)
    ensures Collected(line, open, close, if stack == [] then pairs else pairs + [(stack[|stack| - 1], i)], i + 1)
  {
    forall s | IsPair(line, open, close, s, i)
      ensures stack != [] && s == stack[|stack| - 1]
    {
      PairIsTop(line, open, close, stack, i, s);
    }
    if stack != [] {
      PopOpen(line, open, close, stack, i);
    }
  }

  lemma CollectOther(line: string, open: char, close: char, pairs: seq<(int, int)>, i: nat)
    requires i < |line| && line[i] != close && Collected(line, open, close, pairs, i)
    ensures Collected(line, open, close, pairs, i + 1)
  {}

  /** Collects exactly the pairs of the line, by a stack scan. */
  method CollectPairs(line: string, open: char, close: char) returns (pairs: seq<(int, int)>)
    ensures Collected(line, open, close, pairs, |line|)
  {
    hide IsPair, OpenAt;
    var stack: seq<nat> := [];
    pairs := [];
    StartScan(line, open, close);
    var i := 0;
    while i < |line|
      invariant 0 <= i <= |line|
      invariant open == close ==> stack == []
      invariant open != close ==> OpenAt(line, open, close, stack, i)
      invariant Collected(line, open, close, pairs, i)
    {
      hide Collected;
      if line[i] == open {
        if open == close {
          NoPairs(line, open, pairs, i);
          i := i + 1;
          continue;
        }
        CollectOther(line, open, close, pairs, i);
        PushOpen(line, open, close, stack, i);
        stack := stack + [i];
      } else if line[i] == close {
        CollectClose(line, open, close, stack, pairs, i);
        if |stack| == 0 {
          SkipByte(line, open, close, stack, i);
          i := i + 1;
          continue;
        }
        PopOpen(line, open, close, stack, i);
        var s := stack[|stack| - 1];
        stack := stack[..|stack| - 1];
        pairs := pairs + [(s, i)];
      } else {
        CollectOther(line, open, close, pairs, i);
        if open != close {
          SkipByte(line, open, close, stack, i);
        }
      }
      i := i + 1;
    }
  }

  lemma StartScan(line: string, open: char, close: char)
    ensures OpenAt(line, open, close, [], 0) && Collected(line, open, close, [], 0)
  {}

  lemma NoPairs(line: string, open: char, pairs: seq<(int, int)>, i: nat)
    requires Collected(line, open, open, pairs, i)
    ensures Collected(line, open, open, pairs, i + 1)
  {}

  ghost predicate Encloses(line: string, open: char, close: char, s: int, e: int, col: int) {
    IsPair(line, open, close, s, e) && s <= col <= e
  }

  /** Pair (s, e) lies inside every pair that encloses the column. */
  ghost predicate Innermost(line: string, open: char, close: char, s: int, e: int, col: int) {
    && Encloses(line, open, close, s, e, col)
    && forall s', e' :: Encloses(line, open, close, s', e', col) ==> s' <= s && e <= e'
  }

  /** The innermost pair around the column, with or without its brackets; nothing when none encloses it. */
  method TobjBracket(line: string, col: int, open: char, close: char, around: bool)
      returns (sCol: int, eCol: int, ok: bool)
    ensures ok ==> (if around then Innermost(line, open, close, sCol, eCol - 1, col)
                    else Innermost(line, open, close, sCol - 1, eCol, col))
    ensures !ok ==> sCol == 0 && eCol == 0 && forall s, e :: !Encloses(line, open, close, s, e, col)
  {
    var pairs := CollectPairs(line, open, close);
    var best := (-1, -1);
    for k := 0 to |pairs|
      invariant best.0 == -1 ==> forall j :: 0 <= j < k ==> !(pairs[j].0 <= col <= pairs[j].1)
      invariant best.0 != -1 ==> 0 <= best.0 && 0 <= best.1 && Encloses(line, open, close, best.0, best.1, col)
      invariant best.0 != -1 ==> forall j :: 0 <= j < k && pairs[j].0 <= col <= pairs[j].1 ==>
        pairs[j].0 <= best.0 && best.1 <= pairs[j].1
    {
      var p := pairs[k];
      assert (p.0, p.1) in pairs;
      if p.0 <= col <= p.1 {
        if best.0 == -1 || (p.0 >= best.0 && p.1 <= best.1) {
          best := (p.0, p.1);
        } else {
          PairsNest(line, open, close, p.0, p.1, best.0, best.1);
        }
      }
    }
    forall s, e | Encloses(line, open, close, s, e, col)
      ensures best.0 != -1 && s <= best.0 && best.1 <= e
    {
      assert (s, e) in pairs;
      var j :| 0 <= j < |pairs| && pairs[j] == (s, e);
    }
    if best.0 == -1 {
      return 0, 0, false;
    }
    if around {
      return best.0, best.1 + 1, true;
    }
    return best.0 + 1, best.1, true;
  }

  // ----- Words -----

  /** [s, e) is the whole run of bytes of one class around c. */
  predicate IsRun(line: string, cls: ClassFn, s: int, e: int, c: int) {
    && 0 <= s <= c < e <= |line|
    && (forall i :: s <= i < e ==> ClassOf(line[i], cls) == ClassOf(line[c], cls))
    && (s > 0 ==> ClassOf(line[s - 1], cls) != ClassOf(line[c], cls))
    && (e < |line| ==> ClassOf(line[e], cls) != ClassOf(line[c], cls))
  }

  /** [lo, hi) is all blank, or all not blank, and stops only at the end or at the other kind. */
  predicate StretchRight(line: string, blank: bool, lo: int, hi: int) {
    && 0 <= lo <= hi <= |line|
    && (forall i :: lo <= i < hi ==> Blank(line[i]) == blank)
    && (hi < |line| ==> Blank(line[hi]) != blank)
  }

  predicate BlanksLeft(line: string, lo: int, hi: int) {
    && 0 <= lo <= hi <= |line|
    && (forall i :: lo <= i < hi ==> Blank(line[i]))
    && (lo > 0 ==> !Blank(line[lo - 1]))
  }

  /** What `aw` adds to the run [rs, re): the next word after blanks; blanks after a word, else before it. */
  predicate AroundRun(line: string, blank: bool, rs: int, re: int, s: int, e: int) {
    if blank then s == rs && StretchRight(line, false, re, e)
    else StretchRight(line, true, re, e) && if re < e then s == rs else BlanksLeft(line, s, rs)
  }

  /** The word object at a column clamped into the line, built from the run of bytes there. */
  method TobjWordLike(line: string, col: int, cls: ClassFn, around: bool)
      returns (sCol: int, eCol: int, ok: bool)
    ensures ok <==> line != ""
    ensures ok ==>
              var c := if col >= |line| then |line| - 1 else if col < 0 then 0 else col;
              if !around then IsRun(line, cls, sCol, eCol, c)
              else exists rs, re :: IsRun(line, cls, rs, re, c) && AroundRun(line, Blank(line[c]), rs, re, sCol, eCol)
  {
    if |line| == 0 {
      return 0, 0, false;
    }
    var c := col;
    if c >= |line| {
      c := |line| - 1;
    }
    if c < 0 {
      c := 0;
    }
    var tag := ClassOf(line[c], cls);
    var s, e := c, c;
    while s > 0 && ClassOf(line[s - 1], cls) == tag
      invariant 0 <= s <= c
      invariant forall i :: s <= i <= c ==> ClassOf(line[i], cls) == tag
    {
      s := s - 1;
    }
    while e + 1 < |line| && ClassOf(line[e + 1], cls) == tag
      invariant c <= e < |line|
      invariant forall i :: c <= i <= e ==> ClassOf(line[i], cls) == tag
    {
      e := e + 1;
    }
    var end := e + 1;
    ghost var rs, re := s, end;
    assert IsRun(line, cls, rs, re, c);
    if tag == 0 {
      if around {
        while end < |line| && ClassOf(line[end], cls) != 0
          invariant re <= end <= |line|
          invariant forall i :: re <= i < end ==> !Blank(line[i])
        {
          end := end + 1;
        }
      }
      return s, end, true;
    }
    if around {
      var orig := end;
      while end < |line| && (line[end] == ' ' || line[end] == '\t')
        invariant re <= end <= |line|
        invariant forall i :: re <= i < end ==> Blank(line[i])
      {
        end := end + 1;
      }
      if end == orig {
        while s > 0 && (line[s - 1] == ' ' || line[s - 1] == '\t')
          invariant 0 <= s <= rs
          invariant forall i :: s <= i < rs ==> Blank(line[i])
        {
          s := s - 1;
        }
      }
    }
    return s, end, true;
  }
}
