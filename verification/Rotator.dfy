/** Size-based log rotation over numbered files (internal/log/rotator.go). */
module Rotators {
  import opened Options
  import opened Seqs

  /** The managed files: number 0 is the live log, number i its i-th backup; a gap is None. */
  type Files<T> = seq<Option<seq<T>>>

  function Managed<T>(disk: map<nat, seq<T>>, backups: nat): (d: Files<T>)
    ensures |d| == backups + 1
  {
    seq(backups + 1, i requires 0 <= i => if i in disk then Some(disk[i]) else None)
  }

  /** Opening for append creates the live log when it is missing. */
  function Opened<T>(d: Files<T>): Files<T>
    requires d != []
  {
    if d[0].None? then d[0 := Some([])] else d
  }

  /** A rotation renumbers every file by one, drops the last number, and starts an empty live log. */
  function Rotated<T>(d: Files<T>): Files<T>
    requires d != []
  {
    [Some([])] + d[..|d| - 1]
  }

  function Written<T>(d: Files<T>, b: seq<T>, max: nat): (r: Files<T>)
    requires d != [] && d[0].Some?
    ensures |r| == |d| && r[0].Some?
  {
    var cur := d[0].value + b;
    if |cur| >= max then Rotated(d[0 := Some(cur)]) else d[0 := Some(cur)]
  }

  /** Files beyond the managed numbers are not touched. */
  ghost predicate SameBeyond<T>(was: map<nat, seq<T>>, now: map<nat, seq<T>>, n: nat) {
    forall k: nat :: k > n ==> (k in now <==> k in was) && (k in now ==> now[k] == was[k])
  }

  lemma BeyondIsTransitive<T>(a: map<nat, seq<T>>, b: map<nat, seq<T>>, c: map<nat, seq<T>>, n: nat)
    requires SameBeyond(a, b, n) && SameBeyond(b, c, n)
    ensures SameBeyond(a, c, n)
  {}

  function Move<T>(disk: map<nat, seq<T>>, src: nat, dst: nat): map<nat, seq<T>>
    requires src in disk
  {
    (disk - {src})[dst := disk[src]]
  }

  /** Numbers above i + 1 have received their files, i + 1 is free, and i and below wait. */
  ghost predicate MidShift<T>(was: map<nat, seq<T>>, now: map<nat, seq<T>>, n: nat, i: nat) {
    && i < n && i + 1 !in now
    && SameBeyond(was, now, n)
    && (forall k: nat :: k <= i ==> (k in now <==> k in was) && (k in now ==> now[k] == was[k]))
    && (forall k: nat :: i + 1 < k <= n ==> (k in now <==> k - 1 in was) && (k in now ==> now[k] == was[k - 1]))
  }

  lemma ShiftStart<T>(was: map<nat, seq<T>>, n: nat)
    requires 0 < n
    ensures MidShift(was, if n in was then was - {n} else was, n, n - 1)
  {}

  lemma SlotFree<T>(was: map<nat, seq<T>>, now: map<nat, seq<T>>, n: nat, i: nat)
    requires MidShift(was, now, n, i)
    ensures i + 1 !in now
  {}

  lemma ShiftOne<T>(was: map<nat, seq<T>>, now: map<nat, seq<T>>, n: nat, i: nat)
    requires MidShift(was, now, n, i) && 0 < i
    ensures MidShift(was, if i in now then Move(now, i, i + 1) else now, n, i - 1)
  {}

  /** With the live log moved last, every managed file is one number up, so reopening completes the rotation. */
  lemma ShiftDone<T>(was: map<nat, seq<T>>, now: map<nat, seq<T>>, n: nat)
    requires MidShift(was, now, n, 0)
    ensures var end := if 0 in now then Move(now, 0, 1) else now;
            && SameBeyond(was, end, n)
            && 0 !in end
            && Opened(Managed(end, n)) == Rotated(Managed(was, n))
  {
    var end := if 0 in now then Move(now, 0, 1) else now;
    var o, r := Opened(Managed(end, n)), Rotated(Managed(was, n));
    assert |o| == |r|;
    forall k: nat | k < |o|
      ensures o[k] == r[k]
    {
      if k > 0 {
        assert Managed(end, n)[k] == Managed(was, n)[k - 1];
      }
    }
  }

  class Rotator<T> {
    const maxBytes: nat
    const maxBackups: nat
    var disk: map<nat, seq<T>>
    var open: bool
    var written: nat

    ghost predicate Valid()
      reads this
    {
      0 < maxBackups && (open ==> 0 in disk && written == |disk[0]|)
    }

    constructor (disk0: map<nat, seq<T>>, maxSizeMB: int, backups: int)
      ensures Valid() && open
      ensures maxBackups == if backups < 1 then 1 else backups
      ensures maxBytes == (if maxSizeMB < 1 then 1 else maxSizeMB) * 1024 * 1024
      ensures Managed(disk, maxBackups) == Opened(Managed(disk0, maxBackups))
    {
      maxBackups := if backups < 1 then 1 else backups;
      maxBytes := (if maxSizeMB < 1 then 1 else maxSizeMB) * 1024 * 1024;
      disk := disk0;
      open := false;
      written := 0;
      new;
      Open();
    }

    method Open()
      requires Valid() && !open
      modifies this
      ensures Valid() && open && SameBeyond(old(disk), disk, maxBackups)
      ensures Managed(disk, maxBackups) == Opened(Managed(old(disk), maxBackups))
    {
      if 0 !in disk {
        disk := disk[0 := []];
      }
      open := true;
      written := |disk[0]|;
    }

    /** A rename that would overwrite dst cannot be called. */
    method Rename(src: nat, dst: nat)
      requires src in disk && dst !in disk
      modifies `disk
      ensures disk == Move(old(disk), src, dst)
    {
      disk := Move(disk, src, dst);
    }

    method RotateLocked()
      requires Valid() && open
      modifies this
      ensures Valid() && open && SameBeyond(old(disk), disk, maxBackups)
      ensures Managed(disk, maxBackups) == Rotated(Managed(old(disk), maxBackups))
    {
      hide MidShift, SameBeyond, Managed, Rotated, Opened;
      open := false;
      ghost var was := disk;
      ShiftStart(was, maxBackups);
      if maxBackups in disk {
        disk := disk - {maxBackups};
      }
      var i := maxBackups - 1;
      while i >= 1
        invariant 0 <= i < maxBackups && !open
        invariant MidShift(was, disk, maxBackups, i)
      {
        ShiftOne(was, disk, maxBackups, i);
        if i in disk {
          SlotFree(was, disk, maxBackups, i);
          Rename(i, i + 1);
        }
        i := i - 1;
      }
      ShiftDone(was, disk, maxBackups);
      if 0 in disk {
        SlotFree(was, disk, maxBackups, 0);
        Rename(0, 1);
      }
      ghost var moved := disk;
      Open();
      BeyondIsTransitive(was, moved, disk, maxBackups);
    }

    method Write(b: seq<T>) returns (n: nat)
      requires Valid()
      modifies this
      ensures Valid() && open && SameBeyond(old(disk), disk, maxBackups) && n == |b|
      ensures Managed(disk, maxBackups) == Written(Opened(Managed(old(disk), maxBackups)), b, maxBytes)
    {
      if !open {
        Open();
      }
      assert Managed(disk, maxBackups) == Opened(Managed(old(disk), maxBackups));
      ghost var d := Managed(disk, maxBackups);
      disk := disk[0 := disk[0] + b];
      assert Managed(disk, maxBackups) == d[0 := Some(d[0].value + b)];
      written := written + |b|;
      if written >= maxBytes {
        RotateLocked();
      }
      n := |b|;
    }

    method Close()
      requires Valid()
      modifies this
      ensures Valid() && !open && disk == old(disk)
    {
      open := false;
    }
  }

  // ----- Runs of writes -----

  function WriteAll<T>(d: Files<T>, ws: seq<seq<T>>, max: nat): Files<T>
    requires d != [] && d[0].Some?
    decreases |ws|
  {
    if ws == [] then d else WriteAll(Written(d, ws[0], max), ws[1..], max)
  }

  /** The writes gathered into finished files and the live log, cut wherever the size limit is reached. */
  function Group<T>(cur: seq<T>, ws: seq<seq<T>>, max: nat): (g: (seq<seq<T>>, seq<T>))
    requires 0 < max
    ensures if ws == [] then g == ([], cur) else |g.1| < max
    ensures forall c :: c in g.0 ==> |c| >= max
    decreases |ws|
  {
    if ws == [] then ([], cur)
    else if |cur + ws[0]| >= max then
      var g := Group([], ws[1..], max);
      ([cur + ws[0]] + g.0, g.1)
    else Group(cur + ws[0], ws[1..], max)
  }

  /** Finished files as they are numbered: the newest first. */
  function Newest<T>(closed: seq<seq<T>>): (d: Files<T>)
    ensures |d| == |closed|
  {
    if closed == [] then [] else Newest(closed[1..]) + [Some(closed[0])]
  }

  /** Every file there would be if none were ever dropped. */
  function Unlimited<T>(d: Files<T>, ws: seq<seq<T>>, max: nat): (u: Files<T>)
    requires d != [] && d[0].Some? && 0 < max
    ensures |u| >= |d|
  {
    var g := Group(d[0].value, ws, max);
    [Some(g.1)] + Newest(g.0) + d[1..]
  }

  /** A run leaves exactly the newest of those files, in the numbering of rotator.go. */
  lemma {:induction false} WriteAllKeepsNewest<T>(d: Files<T>, ws: seq<seq<T>>, max: nat)
    requires d != [] && d[0].Some? && 0 < max
    ensures WriteAll(d, ws, max) == Unlimited(d, ws, max)[..|d|]
    decreases |ws|
  {
    if ws == [] {
      assert Unlimited(d, ws, max) == d;
    } else {
      var c := d[0].value + ws[0];
      var next := Written(d, ws[0], max);
      WriteAllKeepsNewest(next, ws[1..], max);
      if |c| >= max {
        RotateNewest(d, c, ws, max);
      } else {
        assert next[1..] == d[1..];
      }
    }
  }

  lemma RotateNewest<T>(d: Files<T>, c: seq<T>, ws: seq<seq<T>>, max: nat)
    requires d != [] && d[0].Some? && 0 < max && ws != []
    requires c == d[0].value + ws[0] && |c| >= max
    ensures Unlimited(Rotated(d[0 := Some(c)]), ws[1..], max)[..|d|] == Unlimited(d, ws, max)[..|d|]
  {
    var next := Rotated(d[0 := Some(c)]);
    var g := Group([], ws[1..], max);
    assert next[1..] == ([Some(c)] + d[1..])[..|d| - 1];
    assert ([c] + g.0)[1..] == g.0;
    var newest := Newest(g.0);
    assert Newest([c] + g.0) == newest + [Some(c)];
    assert Group(d[0].value, ws, max) == ([c] + g.0, g.1);
    hide Newest, Group;
    KeepNewest<Option<seq<T>>>([Some(g.1)], newest, Some(c), d[1..]);
  }

  lemma KeepNewest<X>(x: seq<X>, y: seq<X>, c: X, rest: seq<X>)
    requires |x| == 1
    ensures (x + y + ([c] + rest)[..|rest|])[..|rest| + 1] == (x + (y + [c]) + rest)[..|rest| + 1]
  {
    assert x + y + ([c] + rest) == x + (y + [c]) + rest;
    assert x + y + ([c] + rest)[..|rest|] == (x + y + ([c] + rest))[..1 + |y| + |rest|];
  }

  /** All surviving bytes, oldest file first. */
  function History<T>(d: Files<T>): seq<T> {
    if d == [] then [] else History(d[1..]) + (if d[0].Some? then d[0].value else [])
  }

  lemma {:induction false} HistoryAppend<T>(a: Files<T>, b: Files<T>)
    ensures History(a + b) == History(b) + History(a)
    decreases |a|
  {
    if a == [] {
      assert a + b == b && History(b) + [] == History(b);
    } else {
      assert (a + b)[1..] == a[1..] + b;
      HistoryAppend(a[1..], b);
    }
  }

  lemma {:induction false} NewestHistory<T>(closed: seq<seq<T>>)
    ensures History(Newest(closed)) == Flatten(closed)
    decreases |closed|
  {
    if closed != [] {
      NewestHistory(closed[1..]);
      HistoryAppend(Newest(closed[1..]), [Some(closed[0])]);
      HistoryOne(Some(closed[0]));
    }
  }

  lemma HistoryOne<T>(f: Option<seq<T>>)
    ensures History([f]) == if f.Some? then f.value else []
  {
    assert [f][1..] == [];
  }

  lemma ShiftFile<T>(c: seq<T>, files: seq<T>, pre: seq<T>, rest: seq<T>, cur: seq<T>, w: seq<T>)
    requires c == cur + w && files + pre == [] + rest
    ensures c + files + pre == cur + (w + rest)
  {
    assert c + files + pre == c + (files + pre);
  }

  lemma {:induction false} GroupFlattens<T>(cur: seq<T>, ws: seq<seq<T>>, max: nat)
    requires 0 < max
    ensures Flatten(Group(cur, ws, max).0) + Group(cur, ws, max).1 == cur + Flatten(ws)
    decreases |ws|
  {
    if ws == [] {
      assert Flatten(Group(cur, ws, max).0) == [];
      assert [] + cur == cur + [];
    } else if |cur + ws[0]| >= max {
      var c := cur + ws[0];
      var h := Group([], ws[1..], max);
      GroupFlattens([], ws[1..], max);
      assert ([c] + h.0)[1..] == h.0;
      ShiftFile(c, Flatten(h.0), h.1, Flatten(ws[1..]), cur, ws[0]);
    } else {
      GroupFlattens(cur + ws[0], ws[1..], max);
      assert cur + ws[0] + Flatten(ws[1..]) == cur + (ws[0] + Flatten(ws[1..]));
    }
  }

  /** What a run from an open log leaves and what it drops are all that was there and all that was written. */
  lemma RunConserves<T>(d: Files<T>, ws: seq<seq<T>>, max: nat)
    requires d != [] && d[0].Some? && 0 < max
    ensures History(Unlimited(d, ws, max)[|d|..]) + History(WriteAll(d, ws, max)) == History(d) + Flatten(ws)
  {
    var u, g := Unlimited(d, ws, max), Group(d[0].value, ws, max);
    WriteAllKeepsNewest(d, ws, max);
    assert u == u[..|d|] + u[|d|..];
    HistoryAppend(u[..|d|], u[|d|..]);
    HistoryAppend([Some(g.1)] + Newest(g.0), d[1..]);
    HistoryAppend([Some(g.1)], Newest(g.0));
    HistoryOne(Some(g.1));
    NewestHistory(g.0);
    GroupFlattens(d[0].value, ws, max);
    var old1 := History(d[1..]);
    assert old1 + (d[0].value + Flatten(ws)) == old1 + d[0].value + Flatten(ws);
  }

  /**
   * Opening and rotation conserve history: what survives an opening and a run of writes is all that was ever
   * there minus whole files, and those are the oldest ones.
   */
  lemma HistoryIsConserved<T>(d: Files<T>, ws: seq<seq<T>>, max: nat)
    requires d != [] && 0 < max
    ensures Opened(d) != [] && Opened(d)[0].Some?
    ensures History(Unlimited(Opened(d), ws, max)[|d|..]) + History(WriteAll(Opened(d), ws, max)) == History(d) + Flatten(ws)
  {
    RunConserves(Opened(d), ws, max);
    assert Opened(d)[1..] == d[1..];
  }

  lemma FlattenHead<T>(ss: seq<seq<T>>, j: nat)
    requires 0 < j <= |ss|
    ensures Flatten(ss[..j]) == ss[0] + Flatten(ss[1..][..j - 1])
  {
    assert ss[1..][..j - 1] == ss[..j][1..];
  }

  lemma NextFile<T>(c: seq<T>, files: seq<seq<T>>, k: nat, ws: seq<seq<T>>, j: nat)
    requires k < |files| && 0 < j <= |ws|
    ensures ([c] + files)[k + 1] == files[k]
    ensures Flatten(([c] + files)[..k + 1]) == c + Flatten(files[..k])
    ensures Flatten(ws[..j]) == ws[0] + Flatten(ws[1..][..j - 1])
  {
    FlattenHead(ws, j);
    FlattenHead([c] + files, k + 1);
    assert ([c] + files)[1..] == files;
  }

  /** Each write lies whole in one file, at its own place in the history. */
  lemma {:induction false} WriteLiesInOneFile<T>(cur: seq<T>, ws: seq<seq<T>>, max: nat, j: nat)
      returns (k: nat, pre: seq<T>, post: seq<T>)
    requires j < |ws| && 0 < max
    ensures var all := Group(cur, ws, max).0 + [Group(cur, ws, max).1];
            && k < |all|
            && all[k] == pre + ws[j] + post
            && Flatten(all[..k]) + pre == cur + Flatten(ws[..j])
    decreases |ws|
  {
    var c := cur + ws[0];
    if |c| >= max {
      GroupCut(cur, ws, max);
      var h := Group([], ws[1..], max);
      hide *;
      if j == 0 {
        k, pre, post := 0, cur, [];
        FirstWrite(cur, ws[0], [c] + (h.0 + [h.1]), ws);
      } else {
        k, pre, post := WriteLiesInOneFile([], ws[1..], max, j - 1);
        NextFile(c, h.0 + [h.1], k, ws, j);
        ShiftFile(c, Flatten((h.0 + [h.1])[..k]), pre, Flatten(ws[1..][..j - 1]), cur, ws[0]);
        k := k + 1;
      }
    } else if j == 0 {
      var all := Group(cur, ws, max).0 + [Group(cur, ws, max).1];
      post := FirstOf(c, ws[1..], max);
      k, pre := 0, cur;
      FirstWrite(cur, ws[0], all, ws);
    } else {
      k, pre, post := WriteLiesInOneFile(c, ws[1..], max, j - 1);
      FlattenHead(ws, j);
      assert c + Flatten(ws[1..][..j - 1]) == cur + (ws[0] + Flatten(ws[1..][..j - 1]));
    }
  }

  lemma GroupCut<T>(cur: seq<T>, ws: seq<seq<T>>, max: nat)
    requires ws != [] && 0 < max && |cur + ws[0]| >= max
    ensures var h := Group([], ws[1..], max);
            Group(cur, ws, max).0 + [Group(cur, ws, max).1] == [cur + ws[0]] + (h.0 + [h.1])
  {
    var h := Group([], ws[1..], max);
    Regroup([cur + ws[0]], h.0, [h.1]);
  }

  lemma FirstWrite<T>(cur: seq<T>, w: seq<T>, all: seq<seq<T>>, ws: seq<seq<T>>)
    requires all != []
    ensures cur + w == cur + w + []
    ensures Flatten(all[..0]) + cur == cur + Flatten(ws[..0])
  {
    assert all[..0] == [] && ws[..0] == [] && [] + cur == cur + [];
  }

  /** Whatever has been gathered stays at the front of the first file. */
  lemma {:induction false} FirstOf<T>(cur: seq<T>, ws: seq<seq<T>>, max: nat) returns (post: seq<T>)
    requires 0 < max
    ensures var all := Group(cur, ws, max).0 + [Group(cur, ws, max).1];
            all[0] == cur + post
    decreases |ws|
  {
    if ws == [] {
      post := [];
    } else if |cur + ws[0]| >= max {
      post := ws[0];
    } else {
      post := FirstOf(cur + ws[0], ws[1..], max);
      assert cur + ws[0] + post == cur + (ws[0] + post);
      post := ws[0] + post;
    }
  }
}
