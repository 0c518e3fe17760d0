/** The daemon's source goroutine (internal/daemon/server.go). */
module Servers {
  import opened ClientConns
  import opened Ipc
  import opened LogRings
  import opened Runtimes

  /** The broadcast rings after one event. */
  function Recorded(bring: Rings, ev: Event, n: nat): Rings {
    if ev.LogLine? then Pushed(bring, ev.id, [LineOf(ev)], n) else bring
  }

  function Forwarded(q: Queues, ev: Event): Queues {
    if EventEnvelope(ev) == [] then q else Enqueued(q, EventEnvelope(ev)[0])
  }

  /** Every project once, in the order of the ids, with its state, its PID and the lines of its ring. */
  ghost predicate IsSnapshot(projects: seq<ProjectSnap>, rt: Store, bring: Rings) {
    && (forall k :: 0 <= k < |projects| ==> projects[k].id in rt && projects[k] == SnapOf(projects[k].id, rt, bring))
    && (forall j, k :: 0 <= j < k < |projects| ==> Less(projects[j].id, projects[k].id))
    && (forall id :: id in rt ==> exists k :: 0 <= k < |projects| && projects[k].id == id)
  }

  function SnapOf(id: string, rt: Store, bring: Rings): ProjectSnap
    requires id in rt
  {
    ProjectSnap(id, rt[id].state, rt[id].pid, RingOf(bring, id))
  }

  lemma SnapshotDistinct(projects: seq<ProjectSnap>, rt: Store, bring: Rings)
    requires IsSnapshot(projects, rt, bring)
    ensures forall j, k :: 0 <= j < k < |projects| ==> projects[j].id != projects[k].id
  {
    hide Less, SnapOf;
    forall j, k | 0 <= j < k < |projects| ensures projects[j].id != projects[k].id {
      LessIsStrict(projects[j].id);
    }
  }

  datatype ChildRec = ChildRec(id: string, pid: int)

  /** Every project with a live process once, in the order of the ids. */
  ghost predicate AreLive(recs: seq<ChildRec>, rt: Store) {
    && (forall k :: 0 <= k < |recs| ==> recs[k].id in rt && rt[recs[k].id].pid == recs[k].pid > 0)
    && (forall j, k :: 0 <= j < k < |recs| ==> Less(recs[j].id, recs[k].id))
    && (forall id :: id in rt && rt[id].pid > 0 ==> exists k :: 0 <= k < |recs| && recs[k].id == id)
  }

  /** The records of the first k entries, all of them in front of the entries to come. */
  ghost predicate LiveUpTo(recs: seq<ChildRec>, runtimes: seq<ProjectRuntime>, k: nat, rt: Store) {
    && k <= |runtimes|
    && (forall j :: 0 <= j < |recs| ==> recs[j].id in rt && rt[recs[j].id].pid == recs[j].pid > 0)
    && (forall i, j :: 0 <= i < j < |recs| ==> Less(recs[i].id, recs[j].id))
    && (forall i, j :: 0 <= i < |recs| && k <= j < |runtimes| ==> Less(recs[i].id, runtimes[j].id))
    && forall i :: 0 <= i < k && runtimes[i].pid > 0 ==> ChildRec(runtimes[i].id, runtimes[i].pid) in recs
  }

  lemma LiveStart(runtimes: seq<ProjectRuntime>, rt: Store)
    ensures LiveUpTo([], runtimes, 0, rt)
  {}

  lemma LiveStep(recs: seq<ChildRec>, runtimes: seq<ProjectRuntime>, k: nat, rt: Store)
    requires k < |runtimes| && LiveUpTo(recs, runtimes, k, rt) && Ordered(runtimes)
    requires runtimes[k].id in rt && rt[runtimes[k].id] == runtimes[k]
    ensures LiveUpTo(if runtimes[k].pid > 0 then recs + [ChildRec(runtimes[k].id, runtimes[k].pid)] else recs,
                     runtimes, k + 1, rt)
  {
    hide Less;
    if runtimes[k].pid > 0 {
      var next := recs + [ChildRec(runtimes[k].id, runtimes[k].pid)];
      assert next[|recs|] in next;
    }
  }

  lemma LiveEnd(recs: seq<ChildRec>, runtimes: seq<ProjectRuntime>, rt: Store)
    requires LiveUpTo(recs, runtimes, |runtimes|, rt)
    requires forall k :: 0 <= k < |runtimes| ==> runtimes[k].id in rt && rt[runtimes[k].id] == runtimes[k]
    requires forall id :: id in rt ==> exists k :: 0 <= k < |runtimes| && runtimes[k].id == id
    ensures AreLive(recs, rt)
  {
    hide Less;
    forall id | id in rt && rt[id].pid > 0 ensures exists k :: 0 <= k < |recs| && recs[k].id == id {
      var i :| 0 <= i < |runtimes| && runtimes[i].id == id;
      assert ChildRec(id, runtimes[i].pid) in recs;
    }
  }

  class Server {
    const limit: int
    const childrenPath: string
    const rt: RuntimeStore
    var bring: Rings
    var client: ClientConn?
    var children: seq<ChildRec>

    ghost predicate Valid()
      reads this, rt
    {
      rt.Valid()
    }

    constructor (limit: int, childrenPath: string, rt: RuntimeStore)
      requires rt.Valid()
      ensures Valid() && this.limit == limit && this.childrenPath == childrenPath && this.rt == rt
      ensures bring == map[] && client == null && children == []
    {
      this.limit, this.childrenPath, this.rt := limit, childrenPath, rt;
      bring, client, children := map[], null, [];
    }

    ghost function Conn(): set<object>
      reads this
    {
      if client == null then {} else {client}
    }

    /** One event; children is what the file of live child PIDs holds. */
    method ApplyAndForward(ev: Event)
      requires Valid()
      modifies this, rt, Conn()
      ensures Valid() && rt.m == Applied(old(rt.m), ev)
      ensures bring == Recorded(old(bring), ev, Capacity(limit))
      ensures client == old(client)
      ensures client != null ==> client.View() == Forwarded(old(QueuesOf(client)), ev)
      ensures if (ev.Started? || ev.Exited?) && childrenPath != "" then AreLive(children, rt.m)
              else children == old(children)
    {
      rt.Apply(ev);
      match ev {
        case LogLine(id, bytes, isPartial, at) =>
          bring := Pushed(bring, id, [Line(bytes, isPartial, at)], Capacity(limit));
        case Started(_, _, _) => PersistChildren();
        case Exited(_, _, _, _) => PersistChildren();
        case _ =>
      }
      if client != null {
        var env := EventEnvelope(ev);
        if env != [] {
          client.Enqueue(env[0]);
        }
      }
    }

    /** Takes a new connection as the client: the old one is closed, the new one starts with a snapshot. */
    method Register(conn: ClientConn)
      requires Valid() && conn.View() == Queues([], [], false)
      modifies this, Conn(), conn
      ensures Valid() && client == conn && bring == old(bring) && children == old(children)
      ensures conn.logq == [] && !conn.closed && |conn.ctrl| == 1 && conn.ctrl[0].Snapshot?
      ensures IsSnapshot(conn.ctrl[0].projects, rt.m, bring)
      ensures old(client) != null && old(client) != conn ==> old(client).View() == old(QueuesOf(client)).(closed := true)
    {
      if client != null && client != conn {
        client.Close();
      }
      var projects := BuildSnapshot();
      conn.Enqueue(Envelope.Snapshot(projects));
      client := conn;
    }

    /** Ends a connection; a late end of a displaced one leaves its successor alone. */
    method Unregister(c: ClientConn)
      requires Valid()
      modifies this, c
      ensures Valid() && client == if old(client) == c then null else old(client)
      ensures c.View() == old(c.View()).(closed := true) && bring == old(bring) && children == old(children)
    {
      if client == c {
        client := null;
      }
      c.Close();
    }

    method BuildSnapshot() returns (projects: seq<ProjectSnap>)
      requires Valid()
      ensures IsSnapshot(projects, rt.m, bring)
    {
      hide Less;
      var runtimes := rt.Snapshot();
      projects := [];
      for k := 0 to |runtimes|
        invariant |projects| == k
        invariant forall j :: 0 <= j < k ==> projects[j] == SnapOf(runtimes[j].id, rt.m, bring)
      {
        var r := runtimes[k];
        var ps := ProjectSnap(r.id, r.state, r.pid, []);
        if r.id in bring {
          ps := ps.(lines := bring[r.id]);
        }
        projects := projects + [ps];
      }
      forall id | id in rt.m ensures exists k :: 0 <= k < |projects| && projects[k].id == id {
        var k :| 0 <= k < |runtimes| && runtimes[k].id == id;
        assert projects[k].id == id;
      }
    }

    /** Records the projects with a live process, for the search for orphans after a crash. */
    method PersistChildren()
      requires Valid()
      modifies this`children
      ensures if childrenPath == "" then children == old(children) else AreLive(children, rt.m)
    {
      if childrenPath == "" {
        return;
      }
      hide Less, LiveUpTo, AreLive;
      var runtimes := rt.Snapshot();
      var recs: seq<ChildRec> := [];
      LiveStart(runtimes, rt.m);
      for k := 0 to |runtimes|
        invariant LiveUpTo(recs, runtimes, k, rt.m)
      {
        var r := runtimes[k];
        LiveStep(recs, runtimes, k, rt.m);
        if r.pid > 0 {
          recs := recs + [ChildRec(r.id, r.pid)];
        }
      }
      LiveEnd(recs, runtimes, rt.m);
      children := recs;
    }
  }

  function QueuesOf(c: ClientConn?): Queues
    reads if c == null then {} else {c}
  {
    if c == null then Queues([], [], true) else c.View()
  }
}
