/** What the daemon promises its clients, in every state it can reach. */
module ReplicationLaws {
  import opened ClientConns
  import opened Clients
  import opened Ipc
  import opened LogRings
  import opened Options
  import opened Replication
  import opened ReplicationInvariant
  import opened ReplicationSteps
  import opened Runtimes
  import opened Seqs
  import opened Servers

  // ----- Mirroring -----

  lemma {:induction false} SnapshotRt(m: Mirror, m': Mirror, projects: seq<ProjectSnap>, n: nat)
    requires m.rt == m'.rt
    ensures WithSnapshot(m, projects, n).rt == WithSnapshot(m', projects, n).rt
  {
    if projects != [] {
      SnapshotRt(m, m', projects[..|projects| - 1], n);
    }
  }

  /** The project states a client arrives at depend on the control envelopes alone. */
  lemma {:induction false} ControlDecides(m: Mirror, envs: seq<Envelope>, n: nat)
    ensures DeliveredAll(m, envs, n).rt == DeliveredAll(m, Control(envs), n).rt
  {
    if envs != [] {
      var init, e := envs[..|envs| - 1], envs[|envs| - 1];
      ControlDecides(m, init, n);
      assert Control(envs) == Control(init) + if IsLogLine(e) || e.Toast? then [] else [e];
      if IsLogLine(e) || e.Toast? {
        assert Control(envs) == Control(init);
      } else {
        DeliveredSnoc(m, Control(init), e, n);
        var a, b := DeliveredAll(m, init, n), DeliveredAll(m, Control(init), n);
        hide Control, DeliveredAll, WithSnapshot;
        if e.Snapshot? {
          SnapshotRt(a, b, e.projects, n);
        }
      }
    }
  }

  lemma {:induction false} DeliveredAppend(m: Mirror, a: seq<Envelope>, b: seq<Envelope>, n: nat)
    ensures DeliveredAll(m, a + b, n) == DeliveredAll(DeliveredAll(m, a, n), b, n)
  {
    if b == [] {
      assert a + b == a;
    } else {
      var init, e := b[..|b| - 1], b[|b| - 1];
      DeliveredAppend(m, a, init, n);
      hide Delivered;
      assert a + b == a + init + [e];
      DeliveredSnoc(m, a + init, e, n);
    }
  }

  lemma {:induction false} ReplayAppend(m: Store, a: seq<Event>, b: seq<Event>)
    ensures Replay(m, a + b) == Replay(Replay(m, a), b)
  {
    if b == [] {
      assert a + b == a;
    } else {
      var init, ev := b[..|b| - 1], b[|b| - 1];
      ReplayAppend(m, a, init);
      hide Applied;
      assert a + b == a + init + [ev];
      ReplaySnoc(m, a + init, ev);
    }
  }

  /** A mirror made of some project snapshots has those projects in those states. */
  lemma {:induction false} SnapshotStates(projects: seq<ProjectSnap>, n: nat)
    requires forall j, k :: 0 <= j < k < |projects| ==> projects[j].id != projects[k].id
    ensures var rt := WithSnapshot(EMPTY_MIRROR, projects, n).rt;
            && (forall k :: 0 <= k < |projects| ==>
                  projects[k].id in rt && rt[projects[k].id].state == projects[k].state && rt[projects[k].id].pid == projects[k].pid)
            && forall id :: id in rt ==> exists k :: 0 <= k < |projects| && projects[k].id == id
  {
    if projects != [] {
      var init, p := projects[..|projects| - 1], projects[|projects| - 1];
      SnapshotStates(init, n);
      var before, rt := WithSnapshot(EMPTY_MIRROR, init, n).rt, WithSnapshot(EMPTY_MIRROR, projects, n).rt;
      assert rt == WithSet(before, p.id, p.state, p.pid);
      hide WithSnapshot;
      forall id | id in rt ensures exists k :: 0 <= k < |projects| && projects[k].id == id {
        if id == p.id {
          assert projects[|projects| - 1].id == id;
        } else {
          var k :| 0 <= k < |init| && init[k].id == id;
          assert projects[k].id == id;
        }
      }
      forall k | 0 <= k < |projects|
        ensures projects[k].id in rt && rt[projects[k].id].state == projects[k].state && rt[projects[k].id].pid == projects[k].pid
      {
        if k < |init| {
          assert init[k] == projects[k];
        }
      }
    }
  }

  /** A fresh client that gets a snapshot of the store agrees with it. */
  lemma SnapshotAgrees(projects: seq<ProjectSnap>, rt: Store, bring: Rings, n: nat)
    requires IsSnapshot(projects, rt, bring)
    ensures View(WithSnapshot(EMPTY_MIRROR, projects, n).rt) == View(rt)
  {
    SnapshotDistinct(projects, rt, bring);
    SnapshotStates(projects, n);
    var mine := WithSnapshot(EMPTY_MIRROR, projects, n).rt;
    hide WithSnapshot, Less, RingOf, View;
    forall id ensures id in mine <==> id in rt
    ensures id in rt ==> mine[id].state == rt[id].state && mine[id].pid == rt[id].pid {
      if id in rt {
        var k :| 0 <= k < |projects| && projects[k].id == id;
      }
    }
    SameView(mine, rt);
  }

  lemma SameView(m: Store, m': Store)
    requires forall id :: id in m <==> id in m'
    requires forall id :: id in m ==> m[id].state == m'[id].state && m[id].pid == m'[id].pid
    ensures View(m) == View(m')
  {}

  /** After all that is due, a client agrees with the store that saw the same events. */
  lemma {:induction false} DueAgrees(snap: seq<ProjectSnap>, rt: Store, bring: Rings, seen: seq<Event>, n: nat)
    requires IsSnapshot(snap, rt, bring)
    ensures View(DeliveredAll(EMPTY_MIRROR, [Snapshot(snap)] + ControlOf(seen), n).rt) == View(Replay(rt, seen))
  {
    if seen == [] {
      SnapshotAgrees(snap, rt, bring, n);
      DeliveredSnoc(EMPTY_MIRROR, [], Snapshot(snap), n);
      assert [] + [Snapshot(snap)] == [Snapshot(snap)] == [Snapshot(snap)] + ControlOf(seen);
    } else {
      var init, ev := seen[..|seen| - 1], seen[|seen| - 1];
      DueAgrees(snap, rt, bring, init, n);
      var due := [Snapshot(snap)] + ControlOf(init);
      var more := if ev.LogLine? then [] else EventEnvelope(ev);
      Regroup([Snapshot(snap)], ControlOf(init), more);
      assert [Snapshot(snap)] + ControlOf(seen) == due + more;
      OneMore(DeliveredAll(EMPTY_MIRROR, due, n), Replay(rt, init), ev, n);
      if more == [] {
        assert due + more == due;
      } else {
        DeliveredSnoc(EMPTY_MIRROR, due, EventMsg(ev), n);
      }
    }
  }

  lemma OneMore(m: Mirror, rt: Store, ev: Event, n: nat)
    requires View(m.rt) == View(rt)
    ensures ev.LogLine? || EventEnvelope(ev) == [] ==> View(Applied(rt, ev)) == View(m.rt)
    ensures !ev.LogLine? ==> View(Delivered(m, EventMsg(ev), n).rt) == View(Applied(rt, ev))
  {
    ApplyKeepsAgreement(m.rt, rt, ev);
    hide View;
  }

  /**
   * As long as a connection is open and no control event found its queue full, what its client has made of
   * the stream, carried on with what is written, held by the writer and queued as control, is exactly the
   * daemon's store in state and PID of every project.
   */
  lemma Mirrors(n: nat, rt0: Store, steps: seq<Step>, s: State, i: nat)
    requires Runs(Start(n, rt0), steps, s) && i < |s.conns|
    requires !s.conns[i].q.closed && !s.conns[i].gap
    ensures var c := s.conns[i];
            View(DeliveredAll(c.local, c.wire + c.hand + c.q.ctrl, s.n).rt) == View(s.rt)
  {
    Reached(n, rt0, steps, s);
    GoodFacts(s, i);
    InvFacts(s);
    var c := s.conns[i];
    MirrorOf(c, s);
  }

  /** So a client that has nothing left to read shows exactly the daemon's states: none can stay wrong. */
  lemma DrainedAgrees(n: nat, rt0: Store, steps: seq<Step>, s: State, i: nat)
    requires Runs(Start(n, rt0), steps, s) && i < |s.conns|
    requires var c := s.conns[i];
             !c.q.closed && !c.gap && c.q.ctrl == [] && c.hand == [] && c.wire == []
    ensures View(s.conns[i].local.rt) == View(s.rt)
  {
    hide Runs, View;
    Mirrors(n, rt0, steps, s, i);
    var c := s.conns[i];
    assert c.wire + c.hand + c.q.ctrl == [];
  }

  lemma MirrorOf(c: Conn, s: State)
    requires CtlOk(c) && LocalOk(c, s.n) && BaseOk(c, s.rt0, s.hist, s.n) && Linked(c, true, s.hist, s.closing)
    requires !c.q.closed && !c.gap && s.rt == Replay(s.rt0, s.hist)
    ensures View(DeliveredAll(c.local, c.wire + c.hand + c.q.ctrl, s.n).rt) == View(s.rt)
  {
    var rest := c.wire + c.hand + c.q.ctrl;
    assert Sent(c) == c.got + rest;
    var before := s.hist[..c.base];
    assert before + c.seen == s.hist;
    assert Control(Sent(c)) == Due(c);
    var due := Due(c);
    assert due == [Snapshot(c.snap)] + ControlOf(c.seen);
    assert c.local == DeliveredAll(EMPTY_MIRROR, c.got, s.n);
    hide *;
    BaseSnapshot(c, s.rt0, s.hist, s.n);
    DeliveredAppend(EMPTY_MIRROR, c.got, rest, s.n);
    ControlDecides(EMPTY_MIRROR, Sent(c), s.n);
    DueAgrees(c.snap, Replay(s.rt0, before), RecordedAll(before, s.n), c.seen, s.n);
    ReplayAppend(s.rt0, before, c.seen);
  }

  lemma BaseSnapshot(c: Conn, rt0: Store, hist: seq<Event>, n: nat)
    requires BaseOk(c, rt0, hist, n)
    ensures c.base <= |hist| && c.seen <= hist[c.base..]
    ensures IsSnapshot(c.snap, Replay(rt0, hist[..c.base]), RecordedAll(hist[..c.base], n))
  {
    hide IsSnapshot, Replay, RecordedAll;
  }

  // ----- The handoff -----

  /**
   * The handoff is exactly once. The snapshot holds what the first base events made of the stores, and
   * the connection was fed the events from there on, all of them while it is the client. What is taken
   * and queued starts with the snapshot, goes on with the control events it was fed, each once and in
   * order, and while it is open it is all of them if and only if none found the queue full; one that
   * has a gap is about to be closed.
   */
  lemma ExactlyOnce(n: nat, rt0: Store, steps: seq<Step>, s: State, i: nat)
    requires Runs(Start(n, rt0), steps, s) && i < |s.conns|
    ensures var c := s.conns[i];
            && c.base <= |s.hist| && c.seen <= s.hist[c.base..]
            && (s.client == Some(i) ==> c.seen == s.hist[c.base..])
            && IsSnapshot(c.snap, Replay(s.rt0, s.hist[..c.base]), RecordedAll(s.hist[..c.base], s.n))
            && (Passed(c) != [] ==> Passed(c)[0] == Snapshot(c.snap))
            && Control(Sent(c)) <= [Snapshot(c.snap)] + ControlOf(c.seen)
            && (!c.q.closed ==> (Control(Sent(c)) == [Snapshot(c.snap)] + ControlOf(c.seen) <==> !c.gap))
            && (!c.q.closed && c.gap ==> s.closing)
  {
    Reached(n, rt0, steps, s);
    GoodFacts(s, i);
    var c := s.conns[i];
    assert Passed(c) != [] ==> Passed(c)[0] == Sent(c)[0];
    hide Inv, Runs, Replay, RecordedAll, IsSnapshot, Control, ControlOf, LogOk, LocalOk, Passed;
  }

  /** At most one connection is open, and it is the client. */
  lemma OnlyOneOpen(n: nat, rt0: Store, steps: seq<Step>, s: State)
    requires Runs(Start(n, rt0), steps, s)
    ensures forall i :: 0 <= i < |s.conns| && !s.conns[i].q.closed ==> s.client == Some(i)
    ensures s.client.Some? ==> s.client.value < |s.conns|
  {
    Reached(n, rt0, steps, s);
    InvFacts(s);
    forall i | 0 <= i < |s.conns| && !s.conns[i].q.closed ensures s.client == Some(i) {
      if s.client != Some(i) {
        OnlyClientOpen(s, i);
      }
    }
  }

  /** The late end of a displaced connection changes nothing for its successor: it was closed already. */
  lemma LateUnregister(n: nat, rt0: Store, steps: seq<Step>, s: State, i: nat)
    requires Runs(Start(n, rt0), steps, s) && i < |s.conns| && s.client != Some(i) && Idle(s)
    ensures Enabled(s, Unregister(i)) && Next(s, Unregister(i)) == s
  {
    Reached(n, rt0, steps, s);
    OnlyClientOpen(s, i);
    assert Closed(s.conns[i]) == s.conns[i];
    assert s.conns[i := s.conns[i]] == s.conns;
  }

  // ----- Log lines -----

  /**
   * The log queue is the newest part of the lines forwarded, what was taken before is the rest in order
   * without the lost lines, and every lost line is followed by at least MAX_LOG_QUEUE newer ones. The lines
   * forwarded are those of the events fed since the snapshot, so none of the snapshot's comes again.
   */
  lemma LogLoss(n: nat, rt0: Store, steps: seq<Step>, s: State, i: nat)
    requires Runs(Start(n, rt0), steps, s) && i < |s.conns|
    ensures var c := s.conns[i];
            && |c.q.logq| <= MAX_LOG_QUEUE && |c.q.logq| <= |c.fwd|
            && (forall j :: 0 <= j < |c.q.logq| ==> c.q.logq[j] == EventMsg(c.fwd[|c.fwd| - |c.q.logq| + j]))
            && Logs(Passed(c)) == Kept(c.fwd, c.lost, |c.fwd| - |c.q.logq|)
            && (forall k :: k in c.lost ==> k < |c.fwd| && |c.fwd| - 1 - k >= MAX_LOG_QUEUE)
            && c.fwd <= LinesOf(c.seen)
            && (!c.q.closed ==> c.base <= |s.hist| && c.fwd == LinesOf(s.hist[c.base..]))
  {
    Reached(n, rt0, steps, s);
    GoodFacts(s, i);
    hide Inv, Runs, LinesOf, Logs, Kept, CtlOk, LocalOk, BaseOk, Passed;
  }

  /** The lines of one project among some events, as a ring stores them. */
  function LinesFor(events: seq<Event>, id: string): seq<Line> {
    if events == [] then []
    else
      var ev := events[|events| - 1];
      LinesFor(events[..|events| - 1], id) + if ev.LogLine? && ev.id == id then [Line(ev.bytes, ev.isPartial, ev.at)] else []
  }

  function SnapLines(projects: seq<ProjectSnap>, id: string): seq<Line> {
    if projects == [] then []
    else
      var p := projects[|projects| - 1];
      SnapLines(projects[..|projects| - 1], id) + if p.id == id then p.lines else []
  }

  function LinesOfOne(e: Envelope, id: string): seq<Line> {
    match e
    case Snapshot(projects) => SnapLines(projects, id)
    case EventMsg(ev) => if ev.LogLine? && ev.id == id then [LineOf(ev)] else []
    case Toast(_, _) => []
  }

  /** The lines of a project that some envelopes push to its ring. */
  function LinesIn(envs: seq<Envelope>, id: string): seq<Line> {
    if envs == [] then []
    else LinesIn(envs[..|envs| - 1], id) + LinesOfOne(envs[|envs| - 1], id)
  }

  lemma LinesSnoc(events: seq<Event>, ev: Event, id: string)
    ensures LinesFor(events + [ev], id)
         == LinesFor(events, id) + if ev.LogLine? && ev.id == id then [Line(ev.bytes, ev.isPartial, ev.at)] else []
  {
    assert (events + [ev])[..|events|] == events;
  }

  lemma {:induction false} LinesAppend(a: seq<Event>, b: seq<Event>, id: string)
    ensures LinesFor(a + b, id) == LinesFor(a, id) + LinesFor(b, id)
  {
    if b == [] {
      assert a + b == a;
    } else {
      var init, ev := b[..|b| - 1], b[|b| - 1];
      LinesAppend(a, init, id);
      assert a + b == a + init + [ev];
      LinesSnoc(a + init, ev, id);
    }
  }

  lemma {:induction false} LinesOfLines(events: seq<Event>, id: string)
    ensures LinesFor(LinesOf(events), id) == LinesFor(events, id)
  {
    if events != [] {
      var init, ev := events[..|events| - 1], events[|events| - 1];
      LinesOfLines(init, id);
      if ev.LogLine? {
        LinesSnoc(LinesOf(init), ev, id);
      } else {
        assert LinesOf(events) == LinesOf(init);
      }
    }
  }

  lemma LastNMore(ring: seq<Line>, all: seq<Line>, more: seq<Line>, n: nat)
    requires ring == LastN(all, n)
    ensures LastN(ring + more, n) == LastN(all + more, n)
  {
    LastNAppend(all, more, n);
  }

  /** A ring holds the newest n lines pushed for its project: the daemon's. */
  lemma {:induction false} ServerRing(hist: seq<Event>, n: nat, id: string)
    ensures RingOf(RecordedAll(hist, n), id) == LastN(LinesFor(hist, id), n)
  {
    if hist != [] {
      var init, ev := hist[..|hist| - 1], hist[|hist| - 1];
      ServerRing(init, n, id);
      if ev.LogLine? {
        PushedRing(RecordedAll(init, n), ev.id, [LineOf(ev)], n, id);
        LastNMore(RingOf(RecordedAll(init, n), id), LinesFor(init, id), [LineOf(ev)], n);
      }
      hide Pushed, RingOf, LastN;
      assert LinesFor(init, id) + [] == LinesFor(init, id);
    }
  }

  lemma {:induction false} SnapshotRing(m: Mirror, all: seq<Line>, projects: seq<ProjectSnap>, n: nat, id: string)
    requires RingOf(m.rings, id) == LastN(all, n)
    ensures RingOf(WithSnapshot(m, projects, n).rings, id) == LastN(all + SnapLines(projects, id), n)
  {
    if projects == [] {
      assert all + SnapLines(projects, id) == all;
    } else {
      var init, p := projects[..|projects| - 1], projects[|projects| - 1];
      var before := WithSnapshot(m, init, n);
      SnapshotRing(m, all, init, n, id);
      PushedRing(before.rings, p.id, p.lines, n, id);
      LastNMore(RingOf(before.rings, id), all + SnapLines(init, id), p.lines, n);
      assert SnapLines(projects, id) == SnapLines(init, id) + if p.id == id then p.lines else [];
      assert WithSnapshot(m, projects, n) == WithProject(before, p, n);
      hide Pushed, RingOf, LastN, SnapLines, WithSnapshot;
      Regroup(all, SnapLines(init, id), p.lines);
      assert SnapLines(init, id) + [] == SnapLines(init, id);
    }
  }

  /** And the client's. */
  lemma {:induction false} ClientRing(envs: seq<Envelope>, n: nat, id: string)
    ensures RingOf(DeliveredAll(EMPTY_MIRROR, envs, n).rings, id) == LastN(LinesIn(envs, id), n)
  {
    if envs != [] {
      var init, e := envs[..|envs| - 1], envs[|envs| - 1];
      ClientRing(init, n, id);
      var m, all := DeliveredAll(EMPTY_MIRROR, init, n), LinesIn(init, id);
      assert DeliveredAll(EMPTY_MIRROR, envs, n) == Delivered(m, e, n);
      LineRing(m, all, e, n, id);
    }
  }

  lemma LineRing(m: Mirror, all: seq<Line>, e: Envelope, n: nat, id: string)
    requires RingOf(m.rings, id) == LastN(all, n)
    ensures RingOf(Delivered(m, e, n).rings, id) == LastN(all + LinesOfOne(e, id), n)
  {
    hide Pushed, RingOf, LastN, SnapLines, WithSnapshot, Applied;
    assert all + [] == all;
    match e
    case Snapshot(projects) => SnapshotRing(m, all, projects, n, id);
    case EventMsg(ev) =>
      if ev.LogLine? {
        PushedRing(m.rings, ev.id, [LineOf(ev)], n, id);
        LastNMore(RingOf(m.rings, id), all, [LineOf(ev)], n);
      }
    case Toast(_, _) =>
  }

  // ----- Lost lines heal -----

  lemma {:induction false} NoSnapLines(projects: seq<ProjectSnap>, id: string)
    requires forall k :: 0 <= k < |projects| ==> projects[k].id != id
    ensures SnapLines(projects, id) == []
  {
    if projects != [] {
      NoSnapLines(projects[..|projects| - 1], id);
    }
  }

  lemma {:induction false} SnapLinesAt(projects: seq<ProjectSnap>, k: nat)
    requires k < |projects| && forall i, j :: 0 <= i < j < |projects| ==> projects[i].id != projects[j].id
    ensures SnapLines(projects, projects[k].id) == projects[k].lines
  {
    var init := projects[..|projects| - 1];
    if k == |init| {
      NoSnapLines(init, projects[k].id);
    } else {
      SnapLinesAt(init, k);
    }
  }

  /** A snapshot carries the whole ring of a known project, and no line of any other. */
  lemma SnapshotLines(projects: seq<ProjectSnap>, rt: Store, bring: Rings, id: string)
    requires IsSnapshot(projects, rt, bring)
    ensures SnapLines(projects, id) == if id in rt then RingOf(bring, id) else []
  {
    SnapshotDistinct(projects, rt, bring);
    hide SnapLines, RingOf, Less;
    if id in rt {
      var k :| 0 <= k < |projects| && projects[k].id == id;
      SnapLinesAt(projects, k);
    } else {
      NoSnapLines(projects, id);
    }
  }

  lemma {:induction false} ControlHolds(envs: seq<Envelope>, k: nat)
    requires k < |envs| && !IsLogLine(envs[k]) && !envs[k].Toast?
    ensures |Control(envs[..k])| < |Control(envs)| && Control(envs)[|Control(envs[..k])|] == envs[k]
  {
    var init := envs[..|envs| - 1];
    if k < |init| {
      assert init[..k] == envs[..k];
      ControlHolds(init, k);
    }
  }

  lemma {:induction false} ControlOfEvents(events: seq<Event>)
    ensures forall k :: 0 <= k < |ControlOf(events)| ==> ControlOf(events)[k].EventMsg?
  {
    if events != [] {
      ControlOfEvents(events[..|events| - 1]);
    }
  }

  lemma LaterControl(c: Conn)
    requires CtlOk(c)
    ensures forall k :: 0 < k < |Control(Sent(c))| ==> Control(Sent(c))[k].EventMsg?
  {
    ControlOfEvents(c.seen);
    hide Control, ControlOf, Sent;
    assert forall k :: 0 < k < |Due(c)| ==> Due(c)[k] == ControlOf(c.seen)[k - 1];
  }

  /** Behind the first there is no other snapshot. */
  lemma OneSnapshot(c: Conn, k: nat)
    requires CtlOk(c) && 0 < k < |Sent(c)|
    ensures !Sent(c)[k].Snapshot?
  {
    LaterControl(c);
    var envs := Sent(c);
    if !IsLogLine(envs[k]) && !envs[k].Toast? {
      assert envs[0] == Snapshot(c.snap);
      hide *;
      ControlHolds(envs, k);
      FirstControl(envs[..k]);
    }
  }

  lemma FirstControl(envs: seq<Envelope>)
    requires envs != [] && envs[0].Snapshot?
    ensures Control(envs) != []
  {
    ControlHolds(envs, 0);
  }

  lemma {:induction false} GotLines(envs: seq<Envelope>, snap: seq<ProjectSnap>, id: string)
    requires envs != [] && envs[0] == Snapshot(snap) && forall k :: 0 < k < |envs| ==> !envs[k].Snapshot?
    ensures LinesIn(envs, id) == SnapLines(snap, id) + LinesFor(Logs(envs), id)
  {
    var init, e := envs[..|envs| - 1], envs[|envs| - 1];
    if |envs| == 1 {
      assert LinesIn(init, id) == [] && Logs(init) == [];
    } else {
      GotLines(init, snap, id);
      if IsLogLine(e) {
        LinesSnoc(Logs(init), e.ev, id);
      } else {
        assert Logs(envs) == Logs(init);
      }
    }
  }

  lemma LastNCut(a: seq<Line>, b: seq<Line>, n: nat)
    requires |b| >= n
    ensures LastN(a + b, n) == LastN(b, n)
  {
    assert (a + b)[|a + b| - n..] == b[|b| - n..];
  }

  /** Every lost line of the project has n newer lines of the project behind it. */
  ghost predicate Outlived(fwd: seq<Event>, lost: set<nat>, id: string, n: nat) {
    forall k :: k in lost && k < |fwd| && fwd[k].LogLine? && fwd[k].id == id ==> |LinesFor(fwd[k + 1..], id)| >= n
  }

  /** Then the newest n lines are there, however many older ones are missing. */
  lemma {:induction false} Heals(fwd: seq<Event>, lost: set<nat>, id: string, n: nat, pre: seq<Line>, k: nat)
    requires k <= |fwd| && Outlived(fwd, lost, id, n)
    ensures LastN(pre + LinesFor(Kept(fwd, lost, k), id) + LinesFor(fwd[k..], id), n) == LastN(pre + LinesFor(fwd, id), n)
    decreases k
  {
    if k == 0 {
      assert fwd[0..] == fwd && pre + [] == pre;
    } else {
      hide *;
      Heals(fwd, lost, id, n, pre, k - 1);
      KeptLines(fwd, lost, id, k);
      RestLines(fwd, id, k);
      HealStep(fwd, lost, id, n, pre + LinesFor(Kept(fwd, lost, k - 1), id), LinesFor(Kept(fwd, lost, k - 1), id), pre, k);
    }
  }

  function Own(ev: Event, id: string): seq<Line> {
    if ev.LogLine? && ev.id == id then [LineOf(ev)] else []
  }

  lemma KeptLines(fwd: seq<Event>, lost: set<nat>, id: string, k: nat)
    requires 0 < k <= |fwd|
    ensures LinesFor(Kept(fwd, lost, k), id)
         == LinesFor(Kept(fwd, lost, k - 1), id) + if k - 1 in lost then [] else Own(fwd[k - 1], id)
  {
    LinesSnoc(Kept(fwd, lost, k - 1), fwd[k - 1], id);
    hide LinesFor;
    assert k - 1 in lost ==> Kept(fwd, lost, k) == Kept(fwd, lost, k - 1);
  }

  lemma RestLines(fwd: seq<Event>, id: string, k: nat)
    requires 0 < k <= |fwd|
    ensures LinesFor(fwd[k - 1..], id) == Own(fwd[k - 1], id) + LinesFor(fwd[k..], id)
  {
    var ev := fwd[k - 1];
    assert fwd[k - 1..] == [ev] + fwd[k..];
    LinesAppend([ev], fwd[k..], id);
    LinesSnoc([], ev, id);
    assert [] + [ev] == [ev] && LinesFor([], id) == [];
    hide LinesFor;
    assert [] + Own(ev, id) == Own(ev, id);
  }

  lemma HealStep(fwd: seq<Event>, lost: set<nat>, id: string, n: nat, head: seq<Line>, kept: seq<Line>, pre: seq<Line>, k: nat)
    requires 0 < k <= |fwd| && Outlived(fwd, lost, id, n) && head == pre + kept
    ensures var own := Own(fwd[k - 1], id);
            var rest := LinesFor(fwd[k..], id);
            LastN(pre + (kept + if k - 1 in lost then [] else own) + rest, n) == LastN(head + (own + rest), n)
  {
    var own := Own(fwd[k - 1], id);
    var rest := LinesFor(fwd[k..], id);
    if k - 1 in lost && own != [] {
      assert |rest| >= n;
    }
    hide *;
    if k - 1 in lost {
      assert kept + [] == kept;
      if own != [] {
        LastNCut(head, rest, n);
        LastNCut(head + own, rest, n);
        Regroup(head, own, rest);
      } else {
        assert own + rest == rest;
      }
    } else {
      Regroup(pre, kept, own);
      Regroup(head, own, rest);
    }
  }

  /**
   * Loss heals. When nothing is queued or under way, the client's ring of a project that was known when
   * the snapshot was taken, or had no line then, is the daemon's ring, if every lost line of the project
   * has as many newer lines of the project behind it as the rings hold.
   */
  lemma LossHeals(n: nat, rt0: Store, steps: seq<Step>, s: State, i: nat, id: string)
    requires Runs(Start(n, rt0), steps, s) && i < |s.conns| && !s.conns[i].q.closed
    requires var c := s.conns[i]; c.q.ctrl == [] && c.q.logq == [] && c.hand == [] && c.wire == []
    requires s.conns[i].base <= |s.hist|
    requires var before := s.hist[..s.conns[i].base];
             id in Replay(s.rt0, before) || RingOf(RecordedAll(before, s.n), id) == []
    requires Outlived(s.conns[i].fwd, s.conns[i].lost, id, s.n)
    ensures RingOf(s.conns[i].local.rings, id) == RingOf(s.bring, id)
  {
    Reached(n, rt0, steps, s);
    GoodFacts(s, i);
    InvFacts(s);
    hide Runs, Inv;
    HealedRing(s.conns[i], s, id);
  }

  lemma DrainedSent(c: Conn)
    requires CtlOk(c) && LogOk(c) && c.q.ctrl == [] && c.q.logq == [] && c.hand == [] && c.wire == []
    ensures Sent(c) == c.got && c.got != [] && c.got[0] == Snapshot(c.snap)
    ensures Logs(c.got) == Kept(c.fwd, c.lost, |c.fwd|)
    ensures !c.q.closed ==> c.fwd == LinesOf(c.seen)
  {
    hide Control, ControlOf, Logs, Kept, LinesOf, LostOk;
    assert c.got + [] + [] == c.got;
  }

  lemma HealedRing(c: Conn, s: State, id: string)
    requires CtlOk(c) && LogOk(c) && LocalOk(c, s.n) && BaseOk(c, s.rt0, s.hist, s.n) && Linked(c, true, s.hist, s.closing)
    requires !c.q.closed && c.q.ctrl == [] && c.q.logq == [] && c.hand == [] && c.wire == []
    requires s.bring == RecordedAll(s.hist, s.n)
    requires id in Replay(s.rt0, s.hist[..c.base]) || RingOf(RecordedAll(s.hist[..c.base], s.n), id) == []
    requires Outlived(c.fwd, c.lost, id, s.n)
    ensures RingOf(c.local.rings, id) == RingOf(s.bring, id)
  {
    hide *;
    BaseSnapshot(c, s.rt0, s.hist, s.n);
    var n, before := s.n, s.hist[..c.base];
    AllSeen(c, s);
    DrainedSent(c);
    forall k | 0 < k < |c.got| ensures !c.got[k].Snapshot? {
      OneSnapshot(c, k);
    }
    GotLines(c.got, c.snap, id);
    SnapshotLines(c.snap, Replay(s.rt0, before), RecordedAll(before, n), id);
    ClientRing(c.got, n, id);
    LinesOfLines(c.seen, id);
    ServerRing(before, n, id);
    ServerRing(s.hist, n, id);
    LinesAppend(before, c.seen, id);
    HealedLines(c.fwd, c.lost, id, n, SnapLines(c.snap, id), LinesFor(before, id));
  }

  lemma AllSeen(c: Conn, s: State)
    requires LocalOk(c, s.n) && Linked(c, true, s.hist, s.closing)
    ensures c.base <= |s.hist| && s.hist[..c.base] + c.seen == s.hist
    ensures c.local == DeliveredAll(EMPTY_MIRROR, c.got, s.n)
  {
    hide DeliveredAll;
  }

  /** The ring of the lines kept, on top of the snapshot's, is the ring of all lines. */
  lemma HealedLines(fwd: seq<Event>, lost: set<nat>, id: string, n: nat, snapped: seq<Line>, before: seq<Line>)
    requires Outlived(fwd, lost, id, n) && snapped == LastN(before, n)
    ensures LastN(snapped + LinesFor(Kept(fwd, lost, |fwd|), id), n) == LastN(before + LinesFor(fwd, id), n)
  {
    hide *;
    Heals(fwd, lost, id, n, snapped, |fwd|);
    NothingMore(fwd, id, snapped + LinesFor(Kept(fwd, lost, |fwd|), id));
    LastNMore(snapped, before, LinesFor(fwd, id), n);
  }

  lemma NothingMore(fwd: seq<Event>, id: string, lines: seq<Line>)
    ensures lines + LinesFor(fwd[|fwd|..], id) == lines
  {}

  lemma {:induction false} AllOfOne(events: seq<Event>, id: string)
    requires forall k :: 0 <= k < |events| ==> events[k].LogLine? && events[k].id == id
    ensures |LinesFor(events, id)| == |events|
  {
    if events != [] {
      AllOfOne(events[..|events| - 1], id);
    }
  }

  /** With one project logging, into rings no larger than the log queue, every lost line is outlived. */
  lemma OneProjectHeals(c: Conn, id: string, n: nat)
    requires LogOk(c) && n <= MAX_LOG_QUEUE && forall k :: 0 <= k < |c.fwd| ==> c.fwd[k].id == id
    ensures Outlived(c.fwd, c.lost, id, n)
  {
    forall k | k in c.lost && k < |c.fwd| ensures |LinesFor(c.fwd[k + 1..], id)| >= n {
      AllOfOne(c.fwd[k + 1..], id);
      hide LinesFor, Kept, Logs, LinesOf;
    }
  }

  /** So with one project logging, the drained client always has the daemon's ring. */
  lemma OneProjectAlwaysHeals(n: nat, rt0: Store, steps: seq<Step>, s: State, i: nat, id: string)
    requires Runs(Start(n, rt0), steps, s) && i < |s.conns| && !s.conns[i].q.closed
    requires var c := s.conns[i]; c.q.ctrl == [] && c.q.logq == [] && c.hand == [] && c.wire == []
    requires s.n <= MAX_LOG_QUEUE && id in s.rt0 && forall k :: 0 <= k < |s.hist| && s.hist[k].LogLine? ==> s.hist[k].id == id
    ensures RingOf(s.conns[i].local.rings, id) == RingOf(s.bring, id)
  {
    Reached(n, rt0, steps, s);
    GoodFacts(s, i);
    var c := s.conns[i];
    hide Runs, Inv, Outlived;
    BaseSnapshot(c, s.rt0, s.hist, s.n);
    ReplayKeeps(s.rt0, s.hist[..c.base], id);
    LogOfOne(c, s.hist, id);
    OneProjectHeals(c, id, s.n);
    LossHeals(n, rt0, steps, s, i, id);
  }

  lemma {:induction false} LinesAmong(events: seq<Event>, hist: seq<Event>, id: string)
    requires forall k :: 0 <= k < |events| ==> events[k] in hist
    requires forall k :: 0 <= k < |hist| && hist[k].LogLine? ==> hist[k].id == id
    ensures forall k :: 0 <= k < |LinesOf(events)| ==> LinesOf(events)[k].id == id
  {
    if events != [] {
      LinesAmong(events[..|events| - 1], hist, id);
    }
  }

  lemma LogOfOne(c: Conn, hist: seq<Event>, id: string)
    requires LogOk(c) && c.base <= |hist| && c.seen <= hist[c.base..]
    requires forall k :: 0 <= k < |hist| && hist[k].LogLine? ==> hist[k].id == id
    ensures forall k :: 0 <= k < |c.fwd| ==> c.fwd[k].id == id
  {
    forall k | 0 <= k < |c.seen| ensures c.seen[k] in hist {
      assert c.seen[k] == hist[c.base..][k] == hist[c.base + k];
    }
    LinesAmong(c.seen, hist, id);
    hide LinesOf, Logs, Kept, LostOk;
    assert c.fwd <= LinesOf(c.seen);
  }
}
