/** The fixed-capacity circular log buffer (internal/log/ringbuffer.go). */
module RingBuffers {
  import opened Seqs

  /** Two's-complement 64-bit wrap-around, the arithmetic of the generation counter. */
  function Wrap64(x: int): (r: int)
    ensures -0x8000_0000_0000_0000 <= r < 0x8000_0000_0000_0000
  {
    (x + 0x8000_0000_0000_0000) % 0x1_0000_0000_0000_0000 - 0x8000_0000_0000_0000
  }

  lemma WrapInRange(x: int)
    requires -0x8000_0000_0000_0000 <= x < 0x8000_0000_0000_0000
    ensures Wrap64(x + 0) == x
  {}

  lemma WrapSum(x: int, k: int)
    ensures Wrap64(Wrap64(x) + k) == Wrap64(x + k)
  {}

  datatype Op<T> = Push(v: T) | PushMany(vs: seq<T>) | Clear

  /** What one operation does to the abstract contents of a ring of capacity n. */
  function Apply<T>(n: nat, s: seq<T>, op: Op<T>): seq<T> {
    match op
    case Push(v) => LastN(s + [v], n)
    case PushMany(vs) => LastN(s + vs, n)
    case Clear => []
  }

  /** How far one operation advances the generation counter. */
  function Ticks<T>(op: Op<T>): nat {
    match op
    case Push(_) => 1
    case PushMany(vs) => |vs|
    case Clear => 1
  }

  /** Where position x of a ring of c slots lives, for x less than two laps. */
  method Slot(x: nat, c: nat) returns (w: nat)
    requires x < 2 * c
    ensures w == if x < c then x else x - c
  {
    if x >= c {
      assert x / c == 1;
    }
    w := x % c;
  }

  /** The count items that start at slot head, oldest first. */
  function View<T>(b: seq<T>, head: nat, count: nat): (s: seq<T>)
    requires head <= |b| && count <= |b|
    ensures |s| == count
  {
    seq(count, i requires 0 <= i < count => b[if head + i < |b| then head + i else head + i - |b|])
  }

  /** Writing at slot w and then reading c items from slot h is a push onto the view. */
  lemma PushView<T>(b: seq<T>, head: nat, count: nat, v: T, w: nat, h: nat, c: nat)
    requires head < |b| && count <= |b|
    requires w == if head + count < |b| then head + count else head + count - |b|
    requires h == if count < |b| then head else if head + 1 < |b| then head + 1 else 0
    requires c == if count < |b| then count + 1 else count
    ensures View(b[w := v], h, c) == LastN(View(b, head, count) + [v], |b|)
  {
    if count < |b| {
      assert View(b[w := v], h, c) == View(b, head, count) + [v];
    } else {
      assert View(b[w := v], h, c) == (View(b, head, count) + [v])[1..];
    }
  }

  lemma PushStep<T>(s: seq<T>, vs: seq<T>, k: nat, n: nat)
    requires k < |vs|
    ensures LastN(LastN(s + vs[..k], n) + [vs[k]], n) == LastN(s + vs[..k + 1], n)
  {
    LastNAppend(s + vs[..k], [vs[k]], n);
    assert s + vs[..k] + [vs[k]] == s + vs[..k + 1];
  }

  lemma NoPush<T>(s: seq<T>, none: seq<T>, n: nat)
    requires none == [] && |s| <= n
    ensures LastN(s + none, n) == s
  {
    assert s + none == s;
  }

  lemma ViewWhole<T>(b: seq<T>)
    ensures View(b, 0, |b|) == b
  {}

  lemma PushAll<T>(s: seq<T>, vs: seq<T>, n: nat)
    requires n <= |vs|
    ensures LastN(s + vs, n) == vs[|vs| - n..]
  {}

  class RingBuffer<T(0)> {
    const cap: nat
    const buf: array<T>
    var head: nat
    var count: nat
    var gen: int

    ghost predicate Valid()
      reads this
    {
      && buf.Length == cap
      && 0 < cap
      && head < cap
      && count <= cap
      && -0x8000_0000_0000_0000 <= gen < 0x8000_0000_0000_0000
    }

    /** The items held, oldest first. */
    ghost function Contents(): (s: seq<T>)
      requires Valid()
      reads this, buf
      ensures |s| == count
    {
      View(buf[..], head, count)
    }

    constructor (n: int)
      ensures Valid() && fresh(buf)
      ensures cap == (if n < 1 then 1 else n) && Contents() == [] && gen == 0
    {
      cap := if n < 1 then 1 else n;
      buf := new T[if n < 1 then 1 else n];
      head, count, gen := 0, 0, 0;
    }

    method PushLocked(v: T)
      requires Valid()
      modifies this, buf
      ensures Valid()
      ensures Contents() == Apply(cap, old(Contents()), Push(v))
      ensures gen == Wrap64(old(gen) + 1)
    {
      hide View, LastN, Wrap64;
      var w := Slot(head + count, cap);
      ghost var h := if count < cap then head else if head + 1 < cap then head + 1 else 0;
      PushView(buf[..], head, count, v, w, h, if count < cap then count + 1 else count);
      buf[w] := v;
      if count < cap {
        count := count + 1;
      } else {
        head := Slot(head + 1, cap);
      }
      gen := Wrap64(gen + 1);
    }

    method PushMany(vs: seq<T>)
      requires Valid()
      modifies this, buf
      ensures Valid()
      ensures Contents() == Apply(cap, old(Contents()), Op.PushMany(vs))
      ensures gen == Wrap64(old(gen) + |vs|)
    {
      hide Wrap64, LastN, View;
      if |vs| == 0 {
        WrapInRange(gen);
        NoPush(Contents(), vs, cap);
        return;
      }
      if |vs| >= cap {
        var offset := |vs| - cap;
        for i := 0 to cap
          modifies buf
          invariant buf[..i] == vs[offset..offset + i]
        {
          buf[i] := vs[offset + i];
        }
        PushAll(old(Contents()), vs, cap);
        assert buf[..] == vs[offset..];
        head := 0;
        count := cap;
        gen := Wrap64(gen + |vs|);
        ViewWhole(buf[..]);
        return;
      }
      ghost var before := Contents();
      ghost var g := gen;
      WrapInRange(g);
      NoPush(before, vs[..0], cap);
      for k := 0 to |vs|
        invariant Valid()
        invariant Contents() == LastN(before + vs[..k], cap)
        invariant gen == Wrap64(g + k)
      {
        WrapSum(g + k, 1);
        PushStep(before, vs, k, cap);
        PushLocked(vs[k]);
      }
      assert vs[..|vs|] == vs;
    }

    /** All items in order, oldest first, in a fresh slice. */
    method Snapshot() returns (out: array<T>)
      requires Valid()
      ensures fresh(out) && out[..] == Contents()
    {
      out := new T[count];
      for i := 0 to count
        invariant out[..i] == Contents()[..i]
      {
        var w := Slot(head + i, cap);
        out[i] := buf[w];
      }
    }

    /** The newest n items, or all of them; ringbuffer.go panics on a negative n. */
    method Tail(n: nat) returns (out: array<T>)
      requires Valid()
      ensures fresh(out) && out[..] == LastN(Contents(), n)
    {
      var m := if n > count then count else n;
      var start := count - m;
      out := new T[m];
      for i := 0 to m
        invariant out[..i] == Contents()[start..start + i]
      {
        var w := Slot(head + start + i, cap);
        out[i] := buf[w];
      }
    }

    method Clear(zero: T)
      requires Valid()
      modifies this, buf
      ensures Valid() && Contents() == Apply(cap, old(Contents()), Op.Clear)
      ensures gen == Wrap64(old(gen) + 1)
    {
      for i := 0 to cap
        modifies buf
      {
        buf[i] := zero;
      }
      head := 0;
      count := 0;
      gen := Wrap64(gen + 1);
    }
  }

  function Run<T>(n: nat, s: seq<T>, ops: seq<Op<T>>): seq<T>
    decreases |ops|
  {
    if ops == [] then s else Run(n, Apply(n, s, ops[0]), ops[1..])
  }

  function TotalTicks<T>(ops: seq<Op<T>>): nat {
    if ops == [] then 0 else Ticks(ops[0]) + TotalTicks(ops[1..])
  }

  /** Every item pushed by ops after the last Clear, on top of what came before. */
  function Pushed<T>(before: seq<T>, ops: seq<Op<T>>): seq<T>
    decreases |ops|
  {
    if ops == [] then before
    else Pushed(match ops[0] { case Push(v) => before + [v] case PushMany(vs) => before + vs case Clear => [] }, ops[1..])
  }

  /** Over any run the buffer holds exactly the newest n items pushed since the last Clear. */
  lemma {:induction false} RunIsLastN<T>(n: nat, before: seq<T>, ops: seq<Op<T>>)
    ensures Run(n, LastN(before, n), ops) == LastN(Pushed(before, ops), n)
    decreases |ops|
  {
    if ops != [] {
      match ops[0] {
        case Push(v) =>
          LastNAppend(before, [v], n);
          RunIsLastN(n, before + [v], ops[1..]);
        case PushMany(vs) =>
          LastNAppend(before, vs, n);
          RunIsLastN(n, before + vs, ops[1..]);
        case Clear =>
          RunIsLastN(n, [], ops[1..]);
      }
    }
  }

  function Singles<T>(vs: seq<T>): seq<Op<T>> {
    if vs == [] then [] else [Push(vs[0])] + Singles(vs[1..])
  }

  lemma StepMany<T>(n: nat, s: seq<T>, vs: seq<T>)
    requires vs != []
    ensures LastN(LastN(s + [vs[0]], n) + vs[1..], n) == LastN(s + vs, n)
  {
    LastNAppend(s + [vs[0]], vs[1..], n);
    assert s + [vs[0]] + vs[1..] == s + vs;
  }

  /** The bulk path is indistinguishable from pushing one item at a time. */
  lemma {:induction false} PushManyIsRepeatedPush<T>(n: nat, s: seq<T>, vs: seq<T>)
    requires |s| <= n
    ensures Run(n, s, Singles(vs)) == Apply(n, s, PushMany(vs))
    ensures TotalTicks(Singles(vs)) == Ticks(PushMany(vs))
    decreases |vs|
  {
    if vs == [] {
      assert s + vs == s;
    } else {
      var next := Apply(n, s, Push(vs[0]));
      assert |next| <= n;
      var rest := Singles(vs[1..]);
      assert Singles(vs) == [Push(vs[0])] + rest;
      hide Singles, LastN;
      assert ([Push(vs[0])] + rest)[1..] == rest;
      PushManyIsRepeatedPush(n, next, vs[1..]);
      assert Run(n, s, Singles(vs)) == Run(n, next, rest);
      assert TotalTicks(Singles(vs)) == 1 + TotalTicks(rest);
      StepMany(n, s, vs);
    }
  }

  /**
   * A reader that sees the same generation twice has seen unchanged contents,
   * as long as fewer than 2^64 ticks passed in between.
   */
  lemma {:induction false} SameGenerationSameContents<T>(n: nat, s: seq<T>, ops: seq<Op<T>>, gen: int)
    requires |s| <= n && gen == Wrap64(gen)
    requires TotalTicks(ops) < 0x1_0000_0000_0000_0000
    requires Wrap64(gen + TotalTicks(ops)) == gen
    ensures Run(n, s, ops) == s
  {
    assert TotalTicks(ops) == 0;
    NoTicksNoChange(n, s, ops);
  }

  lemma {:induction false} NoTicksNoChange<T>(n: nat, s: seq<T>, ops: seq<Op<T>>)
    requires |s| <= n && TotalTicks(ops) == 0
    ensures Run(n, s, ops) == s
  {
    if ops != [] {
      assert Ticks(ops[0]) == 0;
      assert Apply(n, s, ops[0]) == s;
      NoTicksNoChange(n, s, ops[1..]);
    }
  }
}
