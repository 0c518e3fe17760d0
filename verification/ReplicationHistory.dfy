/** What a client shows, told from the history of events alone. */
module ReplicationHistory {
  import opened ClientConns
  import opened Clients
  import opened Ipc
  import opened Options
  import opened Replication
  import opened ReplicationInvariant
  import opened ReplicationLaws
  import opened ReplicationSteps
  import opened RuntimeLaws
  import opened Runtimes
  import opened Seqs
  import opened Servers

  /** A client that has read all that is due holds the snapshot's projects with every event since applied. */
  lemma {:induction false} DueReplays(snap: seq<ProjectSnap>, seen: seq<Event>, n: nat)
    ensures DeliveredAll(EMPTY_MIRROR, [Snapshot(snap)] + ControlOf(seen), n).rt
         == Replay(WithSnapshot(EMPTY_MIRROR, snap, n).rt, seen)
  {
    hide WithSnapshot;
    if seen == [] {
      DeliveredSnoc(EMPTY_MIRROR, [], Snapshot(snap), n);
      assert [] + [Snapshot(snap)] == [Snapshot(snap)] == [Snapshot(snap)] + ControlOf(seen);
    } else {
      var init, ev := seen[..|seen| - 1], seen[|seen| - 1];
      DueReplays(snap, init, n);
      var due := [Snapshot(snap)] + ControlOf(init);
      var more := if ev.LogLine? then [] else EventEnvelope(ev);
      Regroup([Snapshot(snap)], ControlOf(init), more);
      assert [Snapshot(snap)] + ControlOf(seen) == due + more;
      hide Replay, DeliveredAll, ControlOf;
      assert init + [ev] == seen;
      ReplaySnoc(WithSnapshot(EMPTY_MIRROR, snap, n).rt, init, ev);
      if more == [] {
        assert due + more == due;
      } else {
        DeliveredSnoc(EMPTY_MIRROR, due, EventMsg(ev), n);
      }
    }
  }

  /** A snapshot tells state and PID; the rest is as for a new project. */
  lemma {:induction false} SnapshotTells(projects: seq<ProjectSnap>, n: nat, id: string)
    ensures var m := WithSnapshot(EMPTY_MIRROR, projects, n).rt;
            StartOf(m, id) == 0 && ExitOf(m, id) == (0, "") && AttemptsOf(m, id) == 0
  {
    if projects != [] {
      SnapshotTells(projects[..|projects| - 1], n, id);
    }
  }

  lemma ViewTells(m: Store, m': Store, id: string)
    requires View(m) == View(m')
    ensures StateOf(m, id) == StateOf(m', id) && PidOf(m, id) == PidOf(m', id) && (id in m <==> id in m')
  {
    SameKeys(m, m');
    assert id in m ==> View(m)[id] == View(m')[id];
  }

  /** What a drained client holds is the snapshot it was sent and the events since. */
  lemma DrainedReplays(c: Conn, n: nat)
    requires CtlOk(c) && LocalOk(c, n) && !c.q.closed && !c.gap && c.q.ctrl == [] && c.hand == [] && c.wire == []
    ensures c.local.rt == Replay(WithSnapshot(EMPTY_MIRROR, c.snap, n).rt, c.seen)
  {
    assert Sent(c) == c.got;
    assert Control(c.got) == [Snapshot(c.snap)] + ControlOf(c.seen);
    hide *;
    Local(c, n);
    ControlDecides(EMPTY_MIRROR, c.got, n);
    DueReplays(c.snap, c.seen, n);
  }

  lemma Local(c: Conn, n: nat)
    requires LocalOk(c, n)
    ensures c.local == DeliveredAll(EMPTY_MIRROR, c.got, n)
  {
    hide DeliveredAll;
  }

  /**
   * In every reachable state, a client with nothing left to read shows each project in the state of its last
   * start or state change, with the PID of its last start, or none when an exit came after it. Starting time,
   * exit and restart attempts are those of the events since it connected.
   */
  lemma ClientTellsHistory(n: nat, rt0: Store, steps: seq<Step>, s: State, i: nat, id: string)
    requires Runs(Start(n, rt0), steps, s) && i < |s.conns|
    requires var c := s.conns[i];
             !c.q.closed && !c.gap && c.q.ctrl == [] && c.hand == [] && c.wire == []
    ensures var c, rt := s.conns[i], s.conns[i].local.rt;
            && c.base <= |s.hist|
            && Tells(s.hist, id, SetsState, NewState, StateOf(s.rt0, id), StateOf(rt, id))
            && Tells(s.hist, id, SetsPid, NewPid, PidOf(s.rt0, id), PidOf(rt, id))
            && Tells(s.hist[c.base..], id, IsStart, NewStart, 0, StartOf(rt, id))
            && Tells(s.hist[c.base..], id, IsExit, NewExit, (0, ""), ExitOf(rt, id))
            && Tells(s.hist[c.base..], id, IsRestart, NewAttempts, 0, AttemptsOf(rt, id))
            && (id in rt <==> id in s.rt0 || !NoneOf(s.hist, id, Names))
  {
    var c := s.conns[i];
    hide *;
    Reached(n, rt0, steps, s);
    GoodFacts(s, i);
    InvFacts(s);
    OpenSeen(c, s.client == Some(i), s.hist, s.closing);
    DrainedAgrees(n, rt0, steps, s, i);
    ViewTells(c.local.rt, s.rt, id);
    HistoryDecides(s.rt0, s.hist, id);
    HistoryParts(s.rt0, s.hist, s.rt, id);
    DrainedReplays(c, s.n);
    var m := WithSnapshot(EMPTY_MIRROR, c.snap, s.n).rt;
    SnapshotTells(c.snap, s.n, id);
    HistoryDecides(m, c.seen, id);
    HistoryParts(m, c.seen, c.local.rt, id);
  }

  lemma OpenSeen(c: Conn, isClient: bool, hist: seq<Event>, closing: bool)
    requires Linked(c, isClient, hist, closing) && !c.q.closed
    ensures c.base <= |hist| && c.seen == hist[c.base..]
  {}

  lemma HistoryParts(m: Store, events: seq<Event>, r: Store, id: string)
    requires TellsHistory(m, events, r, id)
    ensures Tells(events, id, SetsState, NewState, StateOf(m, id), StateOf(r, id))
    ensures Tells(events, id, SetsPid, NewPid, PidOf(m, id), PidOf(r, id))
    ensures Tells(events, id, IsStart, NewStart, StartOf(m, id), StartOf(r, id))
    ensures Tells(events, id, IsExit, NewExit, ExitOf(m, id), ExitOf(r, id))
    ensures Tells(events, id, IsRestart, NewAttempts, AttemptsOf(m, id), AttemptsOf(r, id))
    ensures id in r <==> id in m || !NoneOf(events, id, Names)
  {
    hide Tells, StateOf, PidOf, StartOf, ExitOf, AttemptsOf, NoneOf;
  }

  /** Either no event of the project sets it, or there is a last one that does. */
  lemma {:induction false} LastExists(events: seq<Event>, id: string, sets: Event -> bool)
    ensures NoneOf(events, id, sets) || exists k :: LastOf(events, id, sets, k)
    decreases |events|
  {
    if events != [] {
      var init, ev := events[..|events| - 1], events[|events| - 1];
      LastExists(init, id, sets);
      assert events == init + [ev];
      if ev.id == id && sets(ev) {
        LastSnoc(init, ev, id, sets, |init|);
      } else if !NoneOf(init, id, sets) {
        var k :| LastOf(init, id, sets, k);
        LastSnoc(init, ev, id, sets, k);
      } else {
        LastSnoc(init, ev, id, sets, 0);
      }
    }
  }

  /**
   * The file of child PIDs, told from the history: a project that had no process before is in it exactly if it
   * was started with a PID and has not exited since, and then with that PID.
   */
  lemma ChildrenTellHistory(recs: seq<ChildRec>, m: Store, events: seq<Event>, id: string)
    requires AreLive(recs, Replay(m, events)) && PidOf(m, id) == 0
    ensures forall pid :: ChildRec(id, pid) in recs <==>
              exists k :: LastOf(events, id, SetsPid, k) && events[k].Started? && events[k].pid == pid > 0
  {
    HistoryDecides(m, events, id);
    HistoryParts(m, events, Replay(m, events), id);
    LastExists(events, id, SetsPid);
    RecordOf(recs, Replay(m, events), id);
    hide Replay, AreLive, NoneOf, PidOf;
    forall pid
      ensures ChildRec(id, pid) in recs <==>
                exists k :: LastOf(events, id, SetsPid, k) && events[k].Started? && events[k].pid == pid > 0
    {
      if k :| LastOf(events, id, SetsPid, k) {
        OnlyLast(events, id, SetsPid, k);
      }
    }
  }

  lemma RecordOf(recs: seq<ChildRec>, rt: Store, id: string)
    requires AreLive(recs, rt)
    ensures forall pid :: ChildRec(id, pid) in recs <==> PidOf(rt, id) == pid > 0
  {
    hide Less;
    if PidOf(rt, id) > 0 {
      var k :| 0 <= k < |recs| && recs[k].id == id;
      assert recs[k] == ChildRec(id, rt[id].pid);
    }
  }

  lemma OnlyLast(events: seq<Event>, id: string, sets: Event -> bool, k: int)
    requires LastOf(events, id, sets, k)
    ensures forall j :: LastOf(events, id, sets, j) ==> j == k
  {}
}
