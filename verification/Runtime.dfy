/** Lifecycle events and the store of live project states (internal/event, internal/state/runtime.go). */
module Runtimes {

  /** Times and delays are numbers; Other stands for any event type the daemon does not know. */
  datatype Event =
    | Started(id: string, pid: int, at: int)
    | Exited(id: string, code: int, signal: string, at: int)
    | StateChanged(id: string, state: string)
    | LogLine(id: string, bytes: string, isPartial: bool, at: int)
    | Restarting(id: string, attempt: int, delay: int)
    | Other(id: string)

  datatype ProjectRuntime = ProjectRuntime(
    id: string, state: string, pid: int, startedAt: int, restartAttempts: int, exitCode: int, exitSignal: string)

  type Store = map<string, ProjectRuntime>

  function GetOrInit(m: Store, id: string): ProjectRuntime {
    if id in m then m[id] else ProjectRuntime(id, "idle", 0, 0, 0, 0, "")
  }

  function Applied(m: Store, ev: Event): Store {
    var r := GetOrInit(m, ev.id);
    match ev
    case Started(id, pid, at) => m[id := r.(state := "running", pid := pid, startedAt := at)]
    case Exited(id, code, signal, _) => m[id := r.(pid := 0, exitCode := code, exitSignal := signal)]
    case StateChanged(id, state) => m[id := r.(state := state)]
    case Restarting(id, attempt, _) => m[id := r.(restartAttempts := attempt)]
    case LogLine(_, _, _, _) => m
    case Other(_) => m
  }

  function WithSet(m: Store, id: string, state: string, pid: int): Store {
    m[id := GetOrInit(m, id).(state := state, pid := pid)]
  }

  function Seeded(m: Store, ids: seq<string>): Store {
    if ids == [] then m
    else
      var id, before := ids[|ids| - 1], Seeded(m, ids[..|ids| - 1]);
      before[id := GetOrInit(before, id)]
  }

  /** Every entry is filed under its own project. */
  ghost predicate Keyed(m: Store) {
    forall id :: id in m ==> m[id].id == id
  }

  lemma AppliedKeepsKeyed(m: Store, ev: Event)
    requires Keyed(m)
    ensures Keyed(Applied(m, ev))
  {}

  lemma SetKeepsKeyed(m: Store, id: string, state: string, pid: int)
    requires Keyed(m)
    ensures Keyed(WithSet(m, id, state, pid))
  {}

  lemma {:induction false} SeededKeepsKeyed(m: Store, ids: seq<string>)
    requires Keyed(m)
    ensures Keyed(Seeded(m, ids))
    decreases |ids|
  {
    if ids != [] {
      SeededKeepsKeyed(m, ids[..|ids| - 1]);
    }
  }

  // ----- The order of ids -----

  /** The order of strings: byte by byte, a prefix first. */
  predicate Less(a: string, b: string) {
    b != "" && (a == "" || a[0] < b[0] || (a[0] == b[0] && Less(a[1..], b[1..])))
  }

  lemma {:induction false} LessIsStrict(a: string)
    ensures !Less(a, a)
  {
    if a != "" {
      LessIsStrict(a[1..]);
    }
  }

  lemma {:induction false} LessTrans(a: string, b: string, c: string)
    requires Less(a, b) && Less(b, c)
    ensures Less(a, c)
    decreases |a|
  {
    if a != "" && a[0] == b[0] == c[0] {
      LessTrans(a[1..], b[1..], c[1..]);
    }
  }

  lemma {:induction false} LessIsTotal(a: string, b: string)
    requires a != b
    ensures Less(a, b) || Less(b, a)
    decreases |a|
  {
    if a != "" && b != "" && a[0] == b[0] {
      assert a == [a[0]] + a[1..] && b == [b[0]] + b[1..];
      LessIsTotal(a[1..], b[1..]);
    }
  }

  /** The first k bytes agree, and then a ends or has the smaller byte. */
  predicate DiffersAt(a: string, b: string, k: int) {
    && 0 <= k <= |a| && k < |b|
    && (forall j :: 0 <= j < k ==> a[j] == b[j])
    && (k == |a| || a[k] < b[k])
  }

  /** It is decided by the first byte in which the two differ. */
  lemma {:induction false} LessByFirstDifference(a: string, b: string)
    ensures Less(a, b) <==> exists k :: DiffersAt(a, b, k)
    decreases |a|
  {
    if a == "" || b == "" {
      assert b != "" ==> DiffersAt(a, b, 0);
    } else if a[0] != b[0] {
      assert a[0] < b[0] ==> DiffersAt(a, b, 0);
    } else {
      LessByFirstDifference(a[1..], b[1..]);
      if Less(a, b) {
        var k :| DiffersAt(a[1..], b[1..], k);
        DiffersLater(a, b, k);
      }
      if exists k :: DiffersAt(a, b, k) {
        var k :| DiffersAt(a, b, k);
        DiffersLater(a, b, k - 1);
      }
    }
  }

  lemma DiffersLater(a: string, b: string, k: int)
    requires a != "" && b != "" && a[0] == b[0] && -1 <= k
    ensures k >= 0 ==> (DiffersAt(a[1..], b[1..], k) <==> DiffersAt(a, b, k + 1))
    ensures !DiffersAt(a, b, 0)
  {
    if k >= 0 {
      if DiffersAt(a, b, k + 1) {
        forall j | 0 <= j < k ensures a[1..][j] == b[1..][j] {
          assert a[j + 1] == b[j + 1];
        }
      }
      if DiffersAt(a[1..], b[1..], k) {
        forall j | 0 <= j < k + 1 ensures a[j] == b[j] {
          assert j > 0 ==> a[1..][j - 1] == b[1..][j - 1];
        }
      }
    }
  }

  ghost predicate Ordered(out: seq<ProjectRuntime>) {
    forall j, k :: 0 <= j < k < |out| ==> Less(out[j].id, out[k].id)
  }

  /** An entry with a new id goes in front of the first with a greater one. */
  lemma InsertOrdered(out: seq<ProjectRuntime>, r: ProjectRuntime, p: nat)
    requires Ordered(out) && p <= |out|
    requires forall j :: 0 <= j < p ==> Less(out[j].id, r.id)
    requires p < |out| ==> Less(r.id, out[p].id)
    ensures Ordered(out[..p] + [r] + out[p..])
  {
    hide Less;
    var next := out[..p] + [r] + out[p..];
    forall j, k | 0 <= j < k < |next| ensures Less(next[j].id, next[k].id) {
      if j == p && k > p + 1 {
        LessTrans(r.id, out[p].id, next[k].id);
      }
    }
  }

  function Replay(m: Store, events: seq<Event>): Store {
    if events == [] then m else Applied(Replay(m, events[..|events| - 1]), events[|events| - 1])
  }

  // ----- What the mirror is compared on -----

  type Shown = map<string, (string, int)>

  /** State and PID of every project. */
  function View(m: Store): (v: Shown) {
    map id | id in m :: (m[id].state, m[id].pid)
  }

  /** Equal views before an event are equal after it: no event reads more than state and PID to set them. */
  lemma ApplyKeepsAgreement(m: Store, m': Store, ev: Event)
    requires View(m) == View(m')
    ensures View(Applied(m, ev)) == View(Applied(m', ev))
  {
    SameKeys(m, m');
    assert forall id :: id in m ==> View(m)[id] == View(m')[id];
  }

  lemma SameKeys(m: Store, m': Store)
    requires View(m) == View(m')
    ensures m.Keys == m'.Keys
  {
    assert m.Keys == View(m).Keys && m'.Keys == View(m').Keys;
  }

  /** Known projects stay known. */
  lemma {:induction false} ReplayKeeps(m: Store, events: seq<Event>, id: string)
    requires id in m
    ensures id in Replay(m, events)
  {
    if events != [] {
      ReplayKeeps(m, events[..|events| - 1], id);
    }
  }

  lemma ReplaySnoc(m: Store, events: seq<Event>, ev: Event)
    ensures Replay(m, events + [ev]) == Applied(Replay(m, events), ev)
  {
    assert (events + [ev])[..|events|] == events;
  }

  /** Seeding adds idle projects and leaves the known ones as they are. */
  lemma {:induction false} SeedIsIdle(m: Store, ids: seq<string>)
    ensures Seeded(m, ids).Keys == m.Keys + set id | id in ids
    ensures forall id :: id in m ==> Seeded(m, ids)[id] == m[id]
    ensures forall id :: id in ids && id !in m ==> Seeded(m, ids)[id].state == "idle" && Seeded(m, ids)[id].pid == 0
  {
    if ids != [] {
      var init := ids[..|ids| - 1];
      SeedIsIdle(m, init);
      assert ids == init + [ids[|ids| - 1]];
    }
  }

  // ----- The code -----

  /** The store; its subscribers, which are only woken up, are left out. */
  class RuntimeStore {
    var m: Store

    ghost predicate Valid()
      reads this
    {
      Keyed(m)
    }

    constructor ()
      ensures Valid() && m == map[]
    {
      m := map[];
    }

    method Apply(ev: Event)
      requires Valid()
      modifies this
      ensures Valid() && m == Applied(old(m), ev)
    {
      AppliedKeepsKeyed(m, ev);
      match ev
      case Started(id, pid, at) =>
        var r := GetOrInitLocked(id);
        r := r.(state := "running");
        r := r.(pid := pid);
        m := m[id := r.(startedAt := at)];
      case Exited(id, code, signal, _) =>
        var r := GetOrInitLocked(id);
        r := r.(pid := 0);
        r := r.(exitCode := code);
        m := m[id := r.(exitSignal := signal)];
      case StateChanged(id, state) =>
        var r := GetOrInitLocked(id);
        m := m[id := r.(state := state)];
      case Restarting(id, attempt, _) =>
        var r := GetOrInitLocked(id);
        m := m[id := r.(restartAttempts := attempt)];
      case LogLine(_, _, _, _) =>
      case Other(_) =>
    }

    method Set(id: string, state: string, pid: int)
      requires Valid()
      modifies this
      ensures Valid() && m == WithSet(old(m), id, state, pid)
    {
      SetKeepsKeyed(m, id, state, pid);
      var r := GetOrInitLocked(id);
      r := r.(state := state);
      m := m[id := r.(pid := pid)];
    }

    method Seed(ids: seq<string>)
      requires Valid()
      modifies this
      ensures Valid() && m == Seeded(old(m), ids)
    {
      SeededKeepsKeyed(m, ids);
      assert ids[..|ids|] == ids;
      for k := 0 to |ids|
        invariant m == Seeded(old(m), ids[..k])
      {
        assert ids[..k + 1][..k] == ids[..k];
        if ids[k] !in m {
          m := m[ids[k] := ProjectRuntime(ids[k], "idle", 0, 0, 0, 0, "")];
        } else {
          assert m == m[ids[k] := m[ids[k]]];
        }
      }
    }

    /** The entry of a project, created when absent. */
    method GetOrInitLocked(id: string) returns (r: ProjectRuntime)
      modifies this
      ensures r == GetOrInit(old(m), id) && m == old(m)[id := r]
    {
      if id in m {
        r := m[id];
        assert m == m[id := r];
      } else {
        r := ProjectRuntime(id, "idle", 0, 0, 0, 0, "");
        m := m[id := r];
      }
    }

    /** Every project once, in the order of the ids. */
    method Snapshot() returns (out: seq<ProjectRuntime>)
      requires Valid()
      ensures forall k :: 0 <= k < |out| ==> out[k].id in m && m[out[k].id] == out[k]
      ensures Ordered(out)
      ensures forall id :: id in m ==> exists k :: 0 <= k < |out| && out[k].id == id
    {
      hide Less;
      out := [];
      var left := m.Keys;
      while left != {}
        invariant left <= m.Keys
        invariant Ordered(out)
        invariant forall k :: 0 <= k < |out| ==> out[k].id in m && out[k].id !in left && m[out[k].id] == out[k]
        invariant forall id :: id in m && id !in left ==> exists k :: 0 <= k < |out| && out[k].id == id
        decreases |left|
      {
        var id :| id in left;
        left := left - {id};
        out := Insert(out, m[id]);
      }
    }
  }

  /** Sorts an entry with a new id into the others. */
  method Insert(out: seq<ProjectRuntime>, r: ProjectRuntime) returns (next: seq<ProjectRuntime>)
    requires Ordered(out) && forall k :: 0 <= k < |out| ==> out[k].id != r.id
    ensures Ordered(next) && |next| == |out| + 1
    ensures forall k :: 0 <= k < |next| ==> next[k] == r || next[k] in out
    ensures r in next && forall k :: 0 <= k < |out| ==> out[k] in next
  {
    var p := 0;
    while p < |out| && Less(out[p].id, r.id)
      invariant 0 <= p <= |out|
      invariant forall j :: 0 <= j < p ==> Less(out[j].id, r.id)
    {
      p := p + 1;
    }
    if p < |out| {
      LessIsTotal(out[p].id, r.id);
    }
    InsertOrdered(out, r, p);
    next := out[..p] + [r] + out[p..];
    assert next[p] == r;
    forall k | 0 <= k < |out| ensures out[k] in next {
      assert out[k] == next[if k < p then k else k + 1];
    }
  }
}
