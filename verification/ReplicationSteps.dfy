/** What every step keeps on one connection. */
module ReplicationSteps {
  import opened ClientConns
  import opened Clients
  import opened Ipc
  import opened LogRings
  import opened Replication
  import opened Runtimes
  import opened Seqs

  // ----- Control -----

  ghost predicate NoLogs(envs: seq<Envelope>) {
    forall k :: 0 <= k < |envs| ==> !IsLogLine(envs[k])
  }

  /** The control queue holds no log line; what was due starts with the snapshot and is sent in order, all of it while open. */
  ghost predicate CtlOk(c: Conn) {
    && NoLogs(c.q.ctrl)
    && Sent(c) != [] && Sent(c)[0] == Snapshot(c.snap)
    && Control(Sent(c)) <= Due(c)
    && (!c.q.closed && !c.gap ==> Control(Sent(c)) == Due(c))
    && (c.gap ==> |Control(Sent(c))| < |Due(c)|)
  }

  lemma FreshCtl(snap: seq<ProjectSnap>, base: nat)
    ensures CtlOk(Fresh(snap, base))
  {
    var c := Fresh(snap, base);
    ControlSnoc([], Snapshot(snap));
    assert [] + [Snapshot(snap)] == [Snapshot(snap)];
    assert Sent(c) == [Snapshot(snap)];
  }

  /** A step that keeps what is sent, the history and the state of the connection keeps it all. */
  lemma CtlSame(c: Conn, d: Conn)
    requires CtlOk(c) && Sent(d) == Sent(c) && d.snap == c.snap && d.seen == c.seen && NoLogs(d.q.ctrl)
    requires (d.q.closed || !c.q.closed) && d.gap == c.gap
    ensures CtlOk(d)
  {
    hide Control, Sent, NoLogs;
  }

  /** An envelope that is no control envelope goes through without a trace. */
  lemma CtlAside(c: Conn, d: Conn, e: Envelope)
    requires CtlOk(c) && Sent(d) == Sent(c) + [e] && (IsLogLine(e) || e.Toast?)
    requires d.snap == c.snap && d.seen == c.seen && NoLogs(d.q.ctrl) && d.q.closed == c.q.closed && d.gap == c.gap
    ensures CtlOk(d)
  {
    ControlSnoc(Sent(c), e);
    hide Control, Sent, NoLogs;
  }

  /** An event that is not sent was none to be sent, or the connection is closed or marked from now on. */
  lemma CtlMissed(c: Conn, d: Conn, ev: Event)
    requires CtlOk(c) && Sent(d) == Sent(c) && d.snap == c.snap && d.seen == c.seen + [ev] && NoLogs(d.q.ctrl)
    requires d.q.closed == c.q.closed && (d.q.closed || d.gap || ev.LogLine? || EventEnvelope(ev) == [])
    requires d.gap == c.gap || (d.gap && EventEnvelope(ev) != [] && !ev.LogLine?)
    ensures CtlOk(d)
  {
    EventsSnoc(c.seen, ev);
    var more := if ev.LogLine? then [] else EventEnvelope(ev);
    DueGrows(c.snap, ControlOf(c.seen), more);
    assert |Due(d)| == |Due(c)| + |more|;
    hide Control, ControlOf, Sent, NoLogs, EventEnvelope;
    assert ControlOf(c.seen) + [] == ControlOf(c.seen);
    assert |Control(Sent(c))| <= |Due(c)|;
  }

  lemma DueGrows(snap: seq<ProjectSnap>, a: seq<Envelope>, b: seq<Envelope>)
    ensures [Snapshot(snap)] + (a + b) == [Snapshot(snap)] + a + b
    ensures [Snapshot(snap)] + a <= [Snapshot(snap)] + (a + b)
  {}

  lemma CtlSent(c: Conn, d: Conn, ev: Event)
    requires CtlOk(c) && !c.q.closed && !c.gap && !d.gap && EventEnvelope(ev) != [] && !ev.LogLine?
    requires Sent(d) == Sent(c) + EventEnvelope(ev) && d.snap == c.snap && d.seen == c.seen + [ev] && NoLogs(d.q.ctrl)
    ensures CtlOk(d)
  {
    ControlSnoc(Sent(c), EventMsg(ev));
    EventsSnoc(c.seen, ev);
    DueGrows(c.snap, ControlOf(c.seen), EventEnvelope(ev));
    hide Control, ControlOf, Sent, NoLogs;
  }

  lemma FedCtl(c: Conn, ev: Event)
    requires CtlOk(c) && (c.gap ==> c.q.closed)
    ensures CtlOk(Fed(c, ev))
  {
    var d := Fed(c, ev);
    hide CtlOk, Control, ControlOf;
    var full := |c.q.ctrl| >= MAX_CTRL_QUEUE;
    CtlNoLogs(c);
    if EventEnvelope(ev) == [] || ev.LogLine? || c.q.closed || full {
      assert d.q.ctrl == c.q.ctrl;
      assert Sent(d) == Sent(c);
      CtlMissed(c, d, ev);
    } else {
      assert d.q.ctrl == c.q.ctrl + EventEnvelope(ev);
      Regroup(Passed(c), c.q.ctrl, EventEnvelope(ev));
      CtlSent(c, d, ev);
    }
  }

  lemma CtlNoLogs(c: Conn)
    requires CtlOk(c)
    ensures NoLogs(c.q.ctrl) && Sent(c) != []
  {}

  lemma ToastedCtl(c: Conn, text: string, level: string)
    requires CtlOk(c)
    ensures CtlOk(Toasted(c, text, level))
  {
    var d, e := Toasted(c, text, level), Toast(text, level);
    hide CtlOk, Control, ControlOf;
    CtlNoLogs(c);
    if d.q.ctrl == c.q.ctrl {
      assert Sent(d) == Sent(c);
      CtlSame(c, d);
    } else {
      Regroup(Passed(c), c.q.ctrl, [e]);
      CtlAside(c, d, e);
    }
  }

  lemma ClosedCtl(c: Conn)
    requires CtlOk(c)
    ensures CtlOk(Closed(c))
  {
    hide Control, ControlOf;
    assert Sent(Closed(c)) == Sent(c);
  }

  lemma TookCtl(c: Conn)
    requires CtlOk(c) && CanTake(c) && forall k :: 0 <= k < |c.q.logq| ==> IsLogLine(c.q.logq[k])
    ensures CtlOk(Took(c))
  {
    var d := Took(c);
    hide CtlOk, Control, ControlOf;
    CtlNoLogs(c);
    assert Passed(d) == Passed(c) + [Head(c.q)];
    if c.q.ctrl != [] {
      assert [c.q.ctrl[0]] + c.q.ctrl[1..] == c.q.ctrl;
      Regroup(Passed(c), [c.q.ctrl[0]], c.q.ctrl[1..]);
      CtlSame(c, d);
    } else {
      assert Sent(d) == Sent(c) + [c.q.logq[0]];
      CtlAside(c, d, c.q.logq[0]);
    }
  }

  /** Writing, failing to write and reading move envelopes along without changing their order. */
  lemma MovedPassed(c: Conn, n: nat)
    ensures Passed(Wrote(c)) == Passed(c) && Passed(Failed(c)) == Passed(c)
    ensures c.wire != [] ==> Passed(ReadOne(c, n)) == Passed(c)
  {
    if c.wire != [] {
      hide Delivered;
      assert c.wire == [c.wire[0]] + c.wire[1..];
    }
  }

  lemma MovedCtl(c: Conn, d: Conn)
    requires CtlOk(c) && Passed(d) == Passed(c) && d.q == c.q && d.snap == c.snap && d.seen == c.seen && d.gap == c.gap
    ensures CtlOk(d)
  {
    hide Control, Passed, NoLogs;
    assert Sent(d) == Sent(c);
  }

  // ----- Log lines -----

  /** The log queue is the newest part of the lines forwarded, and those not taken or queued were lost far back. */
  ghost predicate LogOk(c: Conn) {
    && |c.q.logq| <= MAX_LOG_QUEUE
    && Newest(c.q.logq, c.fwd)
    && AllLines(c.fwd)
    && Logs(Passed(c)) == Kept(c.fwd, c.lost, |c.fwd| - |c.q.logq|)
    && LostOk(c.lost, |c.fwd|, |c.fwd| - |c.q.logq|)
    && c.fwd <= LinesOf(c.seen)
    && (!c.q.closed ==> c.fwd == LinesOf(c.seen))
  }

  ghost predicate AllLines(fwd: seq<Event>) {
    forall j :: 0 <= j < |fwd| ==> fwd[j].LogLine?
  }

  /** The queue holds the newest lines forwarded, in order. */
  ghost predicate Newest(logq: seq<Envelope>, fwd: seq<Event>) {
    && |logq| <= |fwd|
    && forall j :: 0 <= j < |logq| ==> logq[j] == EventMsg(fwd[|fwd| - |logq| + j])
  }

  lemma NewestPush(logq: seq<Envelope>, fwd: seq<Event>, ev: Event)
    requires Newest(logq, fwd)
    ensures Newest(logq + [EventMsg(ev)], fwd + [ev])
    ensures logq != [] ==> Newest(logq[1..], fwd) && Newest(logq[1..] + [EventMsg(ev)], fwd + [ev])
  {}

  /** Every lost line is followed by a queue full of newer ones. */
  ghost predicate LostOk(lost: set<nat>, count: nat, taken: nat) {
    forall k :: k in lost ==> k < taken && k + MAX_LOG_QUEUE < count
  }

  lemma {:induction false} KeptAgree(fwd: seq<Event>, lost: set<nat>, fwd': seq<Event>, lost': set<nat>, k: nat)
    requires k <= |fwd| && fwd <= fwd' && forall j :: 0 <= j < k ==> (j in lost <==> j in lost')
    ensures Kept(fwd', lost', k) == Kept(fwd, lost, k)
  {
    if k > 0 {
      KeptAgree(fwd, lost, fwd', lost', k - 1);
    }
  }

  lemma FreshLog(snap: seq<ProjectSnap>, base: nat)
    ensures LogOk(Fresh(snap, base))
  {}

  lemma LogSame(c: Conn, d: Conn)
    requires LogOk(c) && Logs(Passed(d)) == Logs(Passed(c)) && d.q.logq == c.q.logq && d.seen == c.seen
    requires d.fwd == c.fwd && d.lost == c.lost && (!d.q.closed ==> !c.q.closed)
    ensures LogOk(d)
  {
    hide Logs, Passed, Kept, LostOk;
  }

  lemma LinesOfSnoc(events: seq<Event>, ev: Event)
    ensures LinesOf(events + [ev]) == LinesOf(events) + if ev.LogLine? then [ev] else []
  {
    hide LinesOf;
    EventsSnoc(events, ev);
  }

  /** An event that is no log line, or comes when the connection is closed, leaves the lines alone. */
  lemma LogIdle(c: Conn, d: Conn, ev: Event)
    requires LogOk(c) && Passed(d) == Passed(c) && d.q.logq == c.q.logq && d.seen == c.seen + [ev]
    requires d.fwd == c.fwd && d.lost == c.lost && d.q.closed == c.q.closed && (ev.LogLine? ==> c.q.closed)
    ensures LogOk(d)
  {
    LinesOfSnoc(c.seen, ev);
    hide Logs, Passed, Kept, LostOk, LinesOf;
  }

  /** A line is queued behind the others. */
  lemma LogQueued(c: Conn, d: Conn, ev: Event)
    requires LogOk(c) && ev.LogLine? && !c.q.closed && |c.q.logq| < MAX_LOG_QUEUE
    requires Passed(d) == Passed(c) && d.seen == c.seen + [ev] && d.fwd == c.fwd + [ev]
    requires d.q.logq == c.q.logq + [EventMsg(ev)] && d.lost == c.lost
    ensures LogOk(d)
  {
    hide *;
    LogParts(c);
    var taken := |c.fwd| - |c.q.logq|;
    LinesOfSnoc(c.seen, ev);
    NewestPush(c.q.logq, c.fwd, ev);
    AllLinesPush(c.fwd, ev);
    LostStays(c.lost, |c.fwd|, taken);
    KeptAgree(c.fwd, c.lost, d.fwd, d.lost, taken);
    MakeLogOk(d, taken);
  }

  /** The queue is full: its oldest line is lost for the new one. */
  lemma LogDropped(c: Conn, d: Conn, ev: Event)
    requires LogOk(c) && ev.LogLine? && !c.q.closed && |c.q.logq| == MAX_LOG_QUEUE && |c.q.logq| <= |c.fwd|
    requires Passed(d) == Passed(c) && d.seen == c.seen + [ev] && d.fwd == c.fwd + [ev]
    requires d.q.logq == c.q.logq[1..] + [EventMsg(ev)] && d.lost == c.lost + {|c.fwd| - |c.q.logq|}
    ensures LogOk(d)
  {
    assert 0 < MAX_LOG_QUEUE;
    hide *;
    LogParts(c);
    var taken := |c.fwd| - |c.q.logq|;
    LinesOfSnoc(c.seen, ev);
    NewestPush(c.q.logq, c.fwd, ev);
    AllLinesPush(c.fwd, ev);
    LostStays(c.lost, |c.fwd|, taken);
    KeptDropped(c.fwd, c.lost, ev, taken);
    MakeLogOk(d, taken + 1);
  }

  lemma KeptDropped(fwd: seq<Event>, lost: set<nat>, ev: Event, taken: nat)
    requires taken < |fwd|
    ensures Kept(fwd + [ev], lost + {taken}, taken + 1) == Kept(fwd, lost, taken)
  {
    hide Kept;
    KeptAgree(fwd, lost, fwd + [ev], lost + {taken}, taken);
    KeptLost(fwd + [ev], lost + {taken}, taken);
  }

  lemma AllLinesPush(fwd: seq<Event>, ev: Event)
    requires AllLines(fwd) && ev.LogLine?
    ensures AllLines(fwd + [ev])
  {}

  lemma LogParts(c: Conn)
    requires LogOk(c)
    ensures |c.q.logq| <= MAX_LOG_QUEUE && |c.q.logq| <= |c.fwd| && Newest(c.q.logq, c.fwd) && AllLines(c.fwd)
    ensures Logs(Passed(c)) == Kept(c.fwd, c.lost, |c.fwd| - |c.q.logq|)
    ensures LostOk(c.lost, |c.fwd|, |c.fwd| - |c.q.logq|)
    ensures c.fwd <= LinesOf(c.seen) && (!c.q.closed ==> c.fwd == LinesOf(c.seen))
  {
    hide Logs, Passed, LinesOf, Kept, LostOk, AllLines;
  }

  lemma MakeLogOk(c: Conn, taken: nat)
    requires |c.q.logq| <= MAX_LOG_QUEUE && |c.q.logq| + taken == |c.fwd| && Newest(c.q.logq, c.fwd) && AllLines(c.fwd)
    requires Logs(Passed(c)) == Kept(c.fwd, c.lost, taken) && LostOk(c.lost, |c.fwd|, taken)
    requires c.fwd == LinesOf(c.seen)
    ensures LogOk(c)
  {
    hide Logs, Passed, LinesOf, Kept, LostOk, Newest, AllLines;
  }

  lemma KeptLost(fwd: seq<Event>, lost: set<nat>, k: nat)
    requires k < |fwd| && k in lost
    ensures Kept(fwd, lost, k + 1) == Kept(fwd, lost, k)
  {}

  lemma LostStays(lost: set<nat>, count: nat, taken: nat)
    requires LostOk(lost, count, taken)
    ensures LostOk(lost, count + 1, taken)
    ensures taken + MAX_LOG_QUEUE < count + 1 ==> LostOk(lost + {taken}, count + 1, taken + 1)
    ensures taken !in lost
  {}

  lemma FedLog(c: Conn, ev: Event)
    requires LogOk(c)
    ensures LogOk(Fed(c, ev))
  {
    var d := Fed(c, ev);
    LogCounts(c);
    hide LogOk, Logs, LinesOf, Kept;
    assert Passed(d) == Passed(c);
    if ev.LogLine? && !c.q.closed {
      if |c.q.logq| < MAX_LOG_QUEUE {
        LogQueued(c, d, ev);
      } else {
        LogDropped(c, d, ev);
      }
    } else {
      LogIdle(c, d, ev);
    }
  }

  lemma LogCounts(c: Conn)
    requires LogOk(c)
    ensures |c.q.logq| <= MAX_LOG_QUEUE && |c.q.logq| <= |c.fwd|
    ensures forall k :: 0 <= k < |c.q.logq| ==> IsLogLine(c.q.logq[k])
  {
    hide Logs, LinesOf, Kept, LostOk, Passed;
  }

  lemma TookLog(c: Conn)
    requires LogOk(c) && NoLogs(c.q.ctrl) && CanTake(c)
    ensures LogOk(Took(c))
  {
    var d := Took(c);
    assert Passed(d) == Passed(c) + [Head(c.q)];
    ControlSnoc(Passed(c), Head(c.q));
    hide Passed, Logs, LinesOf;
    if c.q.ctrl != [] {
      assert Logs(Passed(d)) == Logs(Passed(c)) + [];
      LogSame(c, d);
    } else {
      var taken := |c.fwd| - |c.q.logq|;
      LostStays(c.lost, |c.fwd|, taken);
      LostMore(c.lost, |c.fwd|, taken);
      hide LostOk;
    }
  }

  lemma LostMore(lost: set<nat>, count: nat, taken: nat)
    requires LostOk(lost, count, taken)
    ensures LostOk(lost, count, taken + 1)
  {}
}
