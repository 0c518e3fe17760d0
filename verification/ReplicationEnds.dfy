/** What becomes of a connection when it is closed, when the events end, and when its queue overflows. */
module ReplicationEnds {
  import opened ClientConns
  import opened Clients
  import opened Ipc
  import opened LogRings
  import opened Options
  import opened Replication
  import opened ReplicationInvariant
  import opened ReplicationLaws
  import opened ReplicationSteps
  import opened Runtimes
  import opened Servers

  // ----- Nothing is delivered after a close -----

  /** The queues and what was taken from them stay as they are. */
  predicate Frozen(c: Conn, d: Conn) {
    c.q.closed && d.q == c.q && Passed(d) == Passed(c) && (d.hand == c.hand || d.hand == [])
  }

  lemma FrozenMoves(c: Conn, ev: Event, text: string, level: string, n: nat)
    requires c.q.closed
    ensures Frozen(c, c) && Frozen(c, Fed(c, ev)) && Frozen(c, Closed(c)) && Frozen(c, Toasted(c, text, level))
    ensures Frozen(c, Wrote(c)) && Frozen(c, Failed(c)) && (c.wire != [] ==> Frozen(c, ReadOne(c, n)))
  {
    MovedPassed(c, n);
    hide Delivered;
  }

  lemma ClosedTurn(s: State, step: Step, i: nat)
    requires Enabled(s, step) && i < |s.conns| && s.conns[i].q.closed
    requires step.Arrive? || step.Register? || step.Unregister? || step.FinishClose? || step.EndOfEvents?
    ensures i < |Next(s, step).conns| && Frozen(s.conns[i], Next(s, step).conns[i])
  {
    FrozenMoves(s.conns[i], if step.Arrive? then step.ev else Other(""), "", "", s.n);
    if step.Arrive? {
      hide *;
      ArriveFields(s, step.ev);
    } else if step.Register? {
      hide *;
      RegisterFields(s, step.snap);
    } else if step.EndOfEvents? {
      hide *;
      EndFields(s);
    } else {
      hide Closed, Frozen, Passed;
    }
  }

  lemma ClosedStep(s: State, step: Step, i: nat)
    requires Enabled(s, step) && i < |s.conns| && s.conns[i].q.closed
    ensures i < |Next(s, step).conns| && Frozen(s.conns[i], Next(s, step).conns[i])
  {
    if step.Arrive? || step.Register? || step.Unregister? || step.FinishClose? || step.EndOfEvents? {
      hide *;
      ClosedTurn(s, step, i);
    } else {
      FrozenMoves(s.conns[i], Other(""), if step.SendToast? then step.text else "",
                  if step.SendToast? then step.level else "", s.n);
      hide Closed, Toasted, Wrote, Failed, ReadOne, Frozen, Passed, CloseClient;
    }
  }

  /**
   * From a close on a connection's queues never change again, and the writer takes nothing more: it keeps
   * the envelope in its hand or gets rid of it.
   */
  lemma {:induction false} ClosedFrozen(s: State, steps: seq<Step>, t: State, i: nat)
    requires Runs(s, steps, t) && i < |s.conns| && s.conns[i].q.closed
    ensures i < |t.conns| && t.conns[i].q == s.conns[i].q && Passed(t.conns[i]) == Passed(s.conns[i])
    ensures t.conns[i].hand == s.conns[i].hand || t.conns[i].hand == []
    decreases |steps|
  {
    hide Enabled, Next, Passed;
    if steps != [] {
      ClosedStep(s, steps[0], i);
      ClosedFrozen(Next(s, steps[0]), steps[1..], t, i);
    }
  }

  lemma {:induction false} ControlAppend(a: seq<Envelope>, b: seq<Envelope>)
    ensures Control(a + b) == Control(a) + Control(b)
    decreases |b|
  {
    hide Control;
    if b == [] {
      ControlNone();
      assert a + b == a;
    } else {
      var init, e := b[..|b| - 1], b[|b| - 1];
      ControlAppend(a, init);
      assert a + b == a + init + [e] && b == init + [e];
      ControlSnoc(a + init, e);
      ControlSnoc(init, e);
    }
  }

  lemma ControlNone()
    ensures Control([]) == []
  {}

  /** A connection that was open without a gap is closed: its writer has all that was due exactly if no control event is queued. */
  lemma FrozenDelivers(c: Conn, s: State, i: nat, more: seq<Step>, t: State)
    requires CtlOk(c) && !c.q.closed && !c.gap && i < |s.conns| && s.conns[i] == Closed(c) && Runs(s, more, t)
    ensures i < |t.conns| && t.conns[i].q.ctrl == c.q.ctrl && t.conns[i].q.logq == c.q.logq
    ensures Control(Passed(t.conns[i])) <= Due(c)
    ensures Control(Passed(t.conns[i])) == Due(c) <==> Control(c.q.ctrl) == []
  {
    ClosedFrozen(s, more, t, i);
    assert Passed(Closed(c)) == Passed(c);
    ControlAppend(Passed(c), c.q.ctrl);
    hide Control, ControlOf, Runs, NoLogs;
  }

  /** What has left the daemon: the client has read it, or it is written. */
  function Left(c: Conn): seq<Envelope> {
    c.got + c.wire
  }

  /** The writer is done with the envelope it took last: it is written, or it never will be. */
  predicate Settled(c: Conn) {
    c.hand == [] || c.dead
  }

  /** In every state reached from s exactly what is due has left on connection i. */
  ghost predicate AlwaysLeft(s: State, i: nat, due: seq<Envelope>) {
    forall more: seq<Step>, t: State :: Runs(s, more, t) ==> i < |t.conns| && Control(Left(t.conns[i])) == due
  }

  /** In every state reached from s in which the writer of connection i is done, exactly what is due has left. */
  ghost predicate LeftAtLast(s: State, i: nat, due: seq<Envelope>) {
    forall more: seq<Step>, t: State :: Runs(s, more, t) ==>
      i < |t.conns| && (Settled(t.conns[i]) ==> Control(Left(t.conns[i])) == due)
  }

  /** No control event is queued or in the writer's hand. */
  predicate NothingWaits(c: Conn) {
    Control(c.q.ctrl) == [] && Control(c.hand) == []
  }

  lemma SentParts(c: Conn)
    ensures Control(Passed(c)) == Control(Left(c)) + Control(c.hand)
    ensures Control(Sent(c)) == Control(Left(c)) + Control(c.hand) + Control(c.q.ctrl)
  {
    ControlAppend(Left(c), c.hand);
    ControlAppend(Passed(c), c.q.ctrl);
    hide Control;
  }

  /** Nothing waits: whatever the writer does, all that was due has left already. */
  lemma NothingLost(c: Conn, s: State, i: nat, more: seq<Step>, t: State)
    requires CtlOk(c) && !c.q.closed && !c.gap && NothingWaits(c)
    requires i < |s.conns| && s.conns[i] == Closed(c) && Runs(s, more, t)
    ensures i < |t.conns| && Control(Left(t.conns[i])) == Due(c)
  {
    FrozenDelivers(c, s, i, more, t);
    ClosedFrozen(s, more, t, i);
    SentParts(t.conns[i]);
    ControlNone();
    hide Control, ControlOf, Runs, NoLogs, Left, Passed;
  }

  /** Something waits: when the write in progress fails, it has not all left. */
  lemma SomethingLost(c: Conn, s: State, i: nat) returns (more: seq<Step>, t: State)
    requires CtlOk(c) && !c.q.closed && !c.gap && !NothingWaits(c)
    requires i < |s.conns| && s.conns[i] == Closed(c)
    ensures Runs(s, more, t) && i < |t.conns| && Settled(t.conns[i]) && Control(Left(t.conns[i])) != Due(c)
  {
    SentParts(c);
    assert Control(Sent(c)) == Due(c);
    assert Runs(s, [], s);
    more, t := [], s;
    if c.hand != [] && !c.dead {
      RunsSnoc(s, [], s, WriteFail(i));
      more, t := [] + [WriteFail(i)], Next(s, WriteFail(i));
    }
    assert Left(t.conns[i]) == Left(c) && Settled(t.conns[i]);
    hide Control, ControlOf, Runs, NoLogs, Left, Sent, Next;
  }

  /** A connection that was open without a gap is closed: all that was due leaves, now and at last, exactly if nothing waits. */
  lemma FrozenLeft(c: Conn, s: State, i: nat)
    requires CtlOk(c) && !c.q.closed && !c.gap && i < |s.conns| && s.conns[i] == Closed(c)
    ensures AlwaysLeft(s, i, Due(c)) <==> NothingWaits(c)
    ensures LeftAtLast(s, i, Due(c)) <==> NothingWaits(c)
  {
    hide CtlOk, NothingWaits, Runs, Control, Left, Due, Closed, Settled;
    if NothingWaits(c) {
      forall more: seq<Step>, t: State | Runs(s, more, t)
        ensures i < |t.conns| && Control(Left(t.conns[i])) == Due(c)
      {
        NothingLost(c, s, i, more, t);
      }
    } else {
      var more, t := SomethingLost(c, s, i);
    }
  }

  /** At a close of an open connection without a gap, the writer has taken all that was due then if and only if none is queued. */
  lemma CloseTakes(n: nat, rt0: Store, steps: seq<Step>, s: State, i: nat, more: seq<Step>, t: State)
    requires Runs(Start(n, rt0), steps, s) && i < |s.conns| && !s.conns[i].q.closed && !s.conns[i].gap
    requires Runs(With(s, i, Closed(s.conns[i])), more, t)
    ensures i < |t.conns| && Control(Passed(t.conns[i])) <= Due(s.conns[i])
    ensures Control(Passed(t.conns[i])) == Due(s.conns[i]) <==> Control(s.conns[i].q.ctrl) == []
  {
    hide *;
    Reached(n, rt0, steps, s);
    GoodFacts(s, i);
    WithFields(s, i, Closed(s.conns[i]));
    FrozenDelivers(s.conns[i], With(s, i, Closed(s.conns[i])), i, more, t);
  }

  /**
   * At a close of an open connection without a gap, all that was due at that moment leaves the daemon,
   * whatever happens afterwards, if and only if no control event is queued or in the writer's hand.
   */
  lemma CloseDelivers(n: nat, rt0: Store, steps: seq<Step>, s: State, i: nat)
    requires Runs(Start(n, rt0), steps, s) && i < |s.conns| && !s.conns[i].q.closed && !s.conns[i].gap
    ensures var closed, c := With(s, i, Closed(s.conns[i])), s.conns[i];
            && (AlwaysLeft(closed, i, Due(c)) <==> Control(c.q.ctrl) == [] && Control(c.hand) == [])
            && (LeftAtLast(closed, i, Due(c)) <==> Control(c.q.ctrl) == [] && Control(c.hand) == [])
  {
    hide AlwaysLeft, LeftAtLast, Runs, Inv, CtlOk, LogOk, LocalOk, BaseOk, Linked, Due, Control, Closed;
    Reached(n, rt0, steps, s);
    GoodFacts(s, i);
    WithFields(s, i, Closed(s.conns[i]));
    FrozenLeft(s.conns[i], With(s, i, Closed(s.conns[i])), i);
  }

  /** When the events end, no open connection has a gap: the source would be closing it. */
  lemma OpenAtEnd(s: State, i: nat)
    requires i < |s.conns| && Linked(s.conns[i], s.client == Some(i), s.hist, s.closing)
    requires Enabled(s, EndOfEvents) && !s.conns[i].q.closed
    ensures !s.conns[i].gap
  {}

  /** At the end of the events, when the client is closed at once, its writer has taken all control events if and only if none is queued. */
  lemma EndTakes(n: nat, rt0: Store, steps: seq<Step>, s: State, i: nat, more: seq<Step>, t: State)
    requires Runs(Start(n, rt0), steps, s) && s.client == Some(i) && Enabled(s, EndOfEvents)
    requires i < |s.conns| && !s.conns[i].q.closed
    requires Runs(Next(s, EndOfEvents), more, t)
    ensures i < |t.conns| && s.conns[i].base <= |s.hist|
    ensures var c := s.conns[i];
            var all := [Snapshot(c.snap)] + ControlOf(s.hist[c.base..]);
            && Control(Passed(t.conns[i])) <= all
            && (Control(Passed(t.conns[i])) == all <==> Control(c.q.ctrl) == [])
  {
    var c := s.conns[i];
    DueIsAll(n, rt0, steps, s, i);
    hide *;
    Reached(n, rt0, steps, s);
    GoodFacts(s, i);
    OpenAtEnd(s, i);
    EndFields(s);
    FrozenDelivers(c, Next(s, EndOfEvents), i, more, t);
  }

  /**
   * At the end of the events the snapshot and all control events of the history since, the final ones
   * included, leave the daemon for certain if and only if none is queued or in the writer's hand.
   */
  lemma EndDelivers(n: nat, rt0: Store, steps: seq<Step>, s: State, i: nat)
    requires Runs(Start(n, rt0), steps, s) && s.client == Some(i) && Enabled(s, EndOfEvents)
    requires i < |s.conns| && !s.conns[i].q.closed
    ensures s.conns[i].base <= |s.hist|
    ensures var c, end := s.conns[i], Next(s, EndOfEvents);
            var all := [Snapshot(c.snap)] + ControlOf(s.hist[c.base..]);
            && (AlwaysLeft(end, i, all) <==> Control(c.q.ctrl) == [] && Control(c.hand) == [])
            && (LeftAtLast(end, i, all) <==> Control(c.q.ctrl) == [] && Control(c.hand) == [])
  {
    DueIsAll(n, rt0, steps, s, i);
    EndFields(s);
    hide AlwaysLeft, LeftAtLast, Runs, Inv, CtlOk, LogOk, LocalOk, BaseOk, Linked, Due, Control, ControlOf, Closed, Next, Enabled;
    Reached(n, rt0, steps, s);
    GoodFacts(s, i);
    OpenAtEnd(s, i);
    FrozenLeft(s.conns[i], Next(s, EndOfEvents), i);
  }

  /** Then a client that has read all that was written shows the daemon's final states. */
  lemma EndMirrors(n: nat, rt0: Store, steps: seq<Step>, s: State, i: nat, more: seq<Step>, t: State)
    requires Runs(Start(n, rt0), steps, s) && s.client == Some(i) && Enabled(s, EndOfEvents)
    requires i < |s.conns| && !s.conns[i].q.closed
    requires Control(s.conns[i].q.ctrl) == [] && Control(s.conns[i].hand) == []
    requires Runs(Next(s, EndOfEvents), more, t) && i < |t.conns| && t.conns[i].wire == []
    ensures View(t.conns[i].local.rt) == View(s.rt)
  {
    hide *;
    var c, d := s.conns[i], t.conns[i];
    Reached(n, rt0, steps, s);
    GoodFacts(s, i);
    OpenAtEnd(s, i);
    EndFields(s);
    Waiting(c);
    NothingLost(c, Next(s, EndOfEvents), i, more, t);
    EndStep(s);
    RunKeeps(Next(s, EndOfEvents), more, t);
    GoodFacts(t, i);
    EndView(s, c, t, d);
  }

  lemma Waiting(c: Conn)
    requires Control(c.q.ctrl) == [] && Control(c.hand) == []
    ensures NothingWaits(c)
  {}

  lemma EndView(s: State, c: Conn, t: State, d: Conn)
    requires Inv(s) && BaseOk(c, s.rt0, s.hist, s.n) && Linked(c, true, s.hist, s.closing)
    requires LocalOk(d, t.n) && d.wire == [] && Control(Left(d)) == Due(c)
    ensures View(d.local.rt) == View(s.rt)
  {
    InvFacts(s);
    var before := s.hist[..c.base];
    assert before + c.seen == s.hist && Left(d) == d.got;
    assert d.local == DeliveredAll(EMPTY_MIRROR, d.got, t.n) && Due(c) == [Snapshot(c.snap)] + ControlOf(c.seen);
    hide *;
    BaseSnapshot(c, s.rt0, s.hist, s.n);
    ControlDecides(EMPTY_MIRROR, d.got, t.n);
    DueAgrees(c.snap, Replay(s.rt0, before), RecordedAll(before, s.n), c.seen, t.n);
    ReplayAppend(s.rt0, before, c.seen);
  }

  /** What is due to the client is the snapshot and every control event since. */
  lemma DueIsAll(n: nat, rt0: Store, steps: seq<Step>, s: State, i: nat)
    requires Runs(Start(n, rt0), steps, s) && s.client == Some(i) && i < |s.conns|
    ensures var c := s.conns[i];
            c.base <= |s.hist| && Due(c) == [Snapshot(c.snap)] + ControlOf(s.hist[c.base..])
  {
    Reached(n, rt0, steps, s);
    GoodFacts(s, i);
    hide Runs, Inv, CtlOk, LogOk, LocalOk, BaseOk, ControlOf;
  }

  // ----- Runs that lose something -----

  lemma {:induction false} RunsSnoc(s: State, steps: seq<Step>, t: State, step: Step)
    requires Runs(s, steps, t) && Enabled(t, step)
    ensures Runs(s, steps + [step], Next(t, step))
    decreases |steps|
  {
    hide Enabled, Next;
    if steps == [] {
      assert (steps + [step])[1..] == [];
    } else {
      assert (steps + [step])[1..] == steps[1..] + [step];
      RunsSnoc(Next(s, steps[0]), steps[1..], t, step);
    }
  }

  /** The daemon of the examples: no project is known, rings hold one line, and a client has just connected. */
  lemma Connected() returns (steps: seq<Step>, s: State)
    ensures Runs(Start(1, map[]), steps, s)
    ensures s.client == Some(0) && |s.conns| == 1 && s.conns[0] == Fresh([], 0) && Idle(s) && s.hist == [] && s.rt == map[]
  {
    var s0 := Start(1, map[]);
    assert Enabled(s0, Register([]));
    s := Next(s0, Register([]));
    assert s.conns == [Fresh([], 0)];
    assert Runs(s0, [], s0);
    RunsSnoc(s0, [], s0, Register([]));
    steps := [] + [Register([])];
  }

  const FINAL: Event := Started("a", 7, 0)

  /**
   * A run that loses its last event: the client has read its snapshot, an event is queued and the events
   * end. The daemon's store has the project, and no client ever will, whatever still happens.
   */
  lemma EndLosesEvent() returns (steps: seq<Step>, s: State)
    ensures Runs(Start(1, map[]), steps, s) && s.stopped && |s.conns| == 1 && "a" in s.rt
    ensures forall more: seq<Step>, t: State :: Runs(s, more, t) ==> |t.conns| > 0 && "a" !in t.conns[0].local.rt
  {
    var start: State;
    steps, start := Connected();
    steps, s := TakenAndRead(steps, start);
    var s1 := Next(s, Arrive(FINAL));
    RunsSnoc(Start(1, map[]), steps, s, Arrive(FINAL));
    steps := steps + [Arrive(FINAL)];
    RunsSnoc(Start(1, map[]), steps, s1, EndOfEvents);
    steps := steps + [EndOfEvents];
    s := Next(s1, EndOfEvents);
    assert Passed(s.conns[0]) == [Snapshot([])];
    hide Enabled, Next, Runs;
    Reached(1, map[], steps, s);
    forall more: seq<Step>, t: State | Runs(s, more, t) ensures |t.conns| > 0 && "a" !in t.conns[0].local.rt {
      ClosedFrozen(s, more, t, 0);
      RunKeeps(s, more, t);
      ReadNothing(t, 0);
    }
  }

  /**
   * A run that loses its last event in the writer's hand: no control event is queued when the events end,
   * but the write in progress fails as the socket is closed.
   */
  lemma EndLosesHand() returns (steps: seq<Step>, before: State, s: State)
    ensures Runs(Start(1, map[]), steps, before) && Enabled(before, EndOfEvents) && |before.conns| == 1
    ensures var c := before.conns[0];
            c.q.ctrl == [] && !c.q.closed && !c.gap && before.client == Some(0) && "a" in before.rt
    ensures Runs(Next(before, EndOfEvents), [WriteFail(0)], s)
    ensures forall more: seq<Step>, t: State :: Runs(s, more, t) ==> |t.conns| > 0 && "a" !in t.conns[0].local.rt
  {
    hide *;
    var start := Start(1, map[]);
    steps, before := Connected();
    steps, before := TakenAndRead(steps, before);
    var end: State;
    steps, before, end := InHand(steps, before);
    s := HandLost(end);
    RunsSnoc(start, steps, before, EndOfEvents);
    RunsSnoc(start, steps + [EndOfEvents], end, WriteFail(0));
    DeadKeeps(start, steps + [EndOfEvents] + [WriteFail(0)], s);
  }

  /** An event arrives, the writer takes it, and the events end. */
  lemma InHand(steps: seq<Step>, s: State) returns (steps': seq<Step>, before: State, end: State)
    requires Runs(Start(1, map[]), steps, s) && Idle(s) && s.rt == map[] && s.client == Some(0) && |s.conns| == 1
    requires var c := s.conns[0];
             && c.got == [Snapshot([])] && c.hand == [] && c.wire == [] && c.q == Queues([], [], false)
             && !c.dead && !c.gap
    ensures Runs(Start(1, map[]), steps', before) && Enabled(before, EndOfEvents) && |before.conns| == 1
    ensures var c := before.conns[0];
            c.q.ctrl == [] && !c.q.closed && !c.gap && before.client == Some(0) && "a" in before.rt
    ensures end == Next(before, EndOfEvents) && |end.conns| == 1
    ensures var c := end.conns[0];
            c.q.closed && !c.dead && c.got == [Snapshot([])] && c.wire == [] && c.hand != []
  {
    var s1 := Next(s, Arrive(FINAL));
    before := Next(s1, Take(0));
    end := Next(before, EndOfEvents);
    steps' := steps + [Arrive(FINAL)] + [Take(0)];
    hide Recorded, IsSnapshot, Runs, Start;
    RunsSnoc(Start(1, map[]), steps, s, Arrive(FINAL));
    RunsSnoc(Start(1, map[]), steps + [Arrive(FINAL)], s1, Take(0));
  }

  /** The write in progress fails. */
  lemma HandLost(s: State) returns (t: State)
    requires |s.conns| == 1 && s.conns[0].hand != [] && !s.conns[0].dead
    ensures Enabled(s, WriteFail(0)) && t == Next(s, WriteFail(0)) && Runs(s, [WriteFail(0)], t)
    ensures |t.conns| == 1 && t.conns[0] == Failed(s.conns[0])
    ensures var c, d := s.conns[0], t.conns[0];
            d.dead && d.q == c.q && d.got == c.got && d.wire == c.wire && d.hand == c.hand
  {
    t := Next(s, WriteFail(0));
    assert Runs(s, [], s);
    RunsSnoc(s, [], s, WriteFail(0));
    assert [] + [WriteFail(0)] == [WriteFail(0)];
  }

  /** A writer that has given up writes no more: its client stays with what it was sent. */
  lemma DeadKeeps(start: State, steps: seq<Step>, s: State)
    requires start == Start(1, map[]) && Runs(start, steps, s) && |s.conns| == 1
    requires var c := s.conns[0]; c.q.closed && c.dead && c.got == [Snapshot([])] && c.wire == [] && c.hand != []
    ensures forall more: seq<Step>, t: State :: Runs(s, more, t) ==> |t.conns| > 0 && "a" !in t.conns[0].local.rt
  {
    hide Enabled, Next, Runs;
    Reached(1, map[], steps, s);
    forall more: seq<Step>, t: State | Runs(s, more, t) ensures |t.conns| > 0 && "a" !in t.conns[0].local.rt {
      DeadStays(s, more, t, 0);
      RunKeeps(s, more, t);
      ReadNoMore(t, 0);
    }
  }

  /** Closed, given up, and all that was written is read. */
  predicate Dead(c: Conn) {
    c.q.closed && c.dead && c.wire == []
  }

  lemma DeadMoves(c: Conn, ev: Event, text: string, level: string)
    requires Dead(c)
    ensures Dead(Fed(c, ev)) && Dead(Closed(c)) && Dead(Toasted(c, text, level))
    ensures Fed(c, ev).got == Closed(c).got == Toasted(c, text, level).got == c.got
    ensures !CanTake(c)
  {}

  lemma DeadTurn(s: State, step: Step, i: nat)
    requires Enabled(s, step) && i < |s.conns| && Dead(s.conns[i])
    requires step.Arrive? || step.Register? || step.Unregister? || step.FinishClose? || step.EndOfEvents?
    ensures i < |Next(s, step).conns| && Dead(Next(s, step).conns[i]) && Next(s, step).conns[i].got == s.conns[i].got
  {
    DeadMoves(s.conns[i], if step.Arrive? then step.ev else Other(""), "", "");
    if step.Arrive? {
      hide *;
      ArriveFields(s, step.ev);
    } else if step.Register? {
      hide *;
      RegisterFields(s, step.snap);
    } else if step.EndOfEvents? {
      hide *;
      EndFields(s);
    } else {
      hide Closed, Dead;
    }
  }

  lemma DeadStep(s: State, step: Step, i: nat)
    requires Enabled(s, step) && i < |s.conns| && Dead(s.conns[i])
    ensures i < |Next(s, step).conns| && Dead(Next(s, step).conns[i]) && Next(s, step).conns[i].got == s.conns[i].got
  {
    if step.Arrive? || step.Register? || step.Unregister? || step.FinishClose? || step.EndOfEvents? {
      hide *;
      DeadTurn(s, step, i);
    } else {
      DeadMoves(s.conns[i], Other(""), if step.SendToast? then step.text else "", if step.SendToast? then step.level else "");
      hide Closed, Toasted, Took, CanTake, CloseClient, Delivered;
    }
  }

  lemma {:induction false} DeadStays(s: State, steps: seq<Step>, t: State, i: nat)
    requires Runs(s, steps, t) && i < |s.conns| && Dead(s.conns[i])
    ensures i < |t.conns| && t.conns[i].got == s.conns[i].got
    decreases |steps|
  {
    hide Enabled, Next, Dead;
    if steps != [] {
      DeadStep(s, steps[0], i);
      DeadStays(Next(s, steps[0]), steps[1..], t, i);
    }
  }

  /** The writer takes the snapshot and writes it, and the client reads it. */
  lemma TakenAndRead(steps: seq<Step>, s: State) returns (steps': seq<Step>, s': State)
    requires Runs(Start(1, map[]), steps, s)
    requires s.client == Some(0) && |s.conns| == 1 && s.conns[0] == Fresh([], 0) && Idle(s) && s.hist == [] && s.rt == map[]
    ensures Runs(Start(1, map[]), steps', s') && Idle(s') && s'.rt == map[] && s'.client == Some(0) && |s'.conns| == 1
    ensures var c := s'.conns[0];
            && c.got == [Snapshot([])] && c.hand == [] && c.wire == [] && c.q == Queues([], [], false)
            && !c.dead && !c.gap
  {
    var s1 := Next(s, Take(0));
    var s2 := Next(s1, WriteOk(0));
    RunsSnoc(Start(1, map[]), steps, s, Take(0));
    RunsSnoc(Start(1, map[]), steps + [Take(0)], s1, WriteOk(0));
    RunsSnoc(Start(1, map[]), steps + [Take(0)] + [WriteOk(0)], s2, Read(0));
    steps' := steps + [Take(0)] + [WriteOk(0)] + [Read(0)];
    s' := Next(s2, Read(0));
  }

  /** A client that has read nothing or just an empty snapshot knows no project. */
  lemma ReadNoMore(t: State, i: nat)
    requires Inv(t) && i < |t.conns| && (t.conns[i].got == [] || t.conns[i].got == [Snapshot([])])
    ensures t.conns[i].local.rt == map[]
  {
    GoodFacts(t, i);
    var c := t.conns[i];
    hide Inv, CtlOk, LogOk, BaseOk, Linked;
    if c.got != [] {
      assert c.got == [] + [Snapshot([])];
      DeliveredSnoc(EMPTY_MIRROR, [], Snapshot([]), t.n);
    }
  }

  lemma ReadNothing(t: State, i: nat)
    requires Inv(t) && i < |t.conns| && Passed(t.conns[i]) == [Snapshot([])]
    ensures t.conns[i].local.rt == map[]
  {
    var c := t.conns[i];
    if c.got != [] {
      assert c.got[0] == Passed(c)[0];
    }
    hide Inv;
    ReadNoMore(t, i);
  }

  /** Only the source moves: k events wait behind the snapshot. */
  ghost predicate Filling(s: State, k: nat) {
    && Idle(s) && s.client == Some(0) && |s.conns| == 1
    && !s.conns[0].q.closed && !s.conns[0].gap && |s.conns[0].q.ctrl| == k + 1
  }

  lemma FillOne(s: State, k: nat)
    requires Filling(s, k) && k + 1 < MAX_CTRL_QUEUE
    ensures Enabled(s, Arrive(FINAL)) && Filling(Next(s, Arrive(FINAL)), k + 1)
  {
    hide Applied, Recorded;
  }

  /** The queue is full: the event finds no room. */
  lemma FillLast(s: State)
    requires Filling(s, MAX_CTRL_QUEUE - 1)
    ensures Enabled(s, Arrive(FINAL))
    ensures var t := Next(s, Arrive(FINAL));
            |t.conns| == 1 && !t.conns[0].q.closed && t.conns[0].gap && t.closing
  {
    hide Applied, Recorded;
  }

  /** A client whose writer takes nothing fills up event by event. */
  lemma {:induction false} Fill(k: nat) returns (steps: seq<Step>, s: State)
    requires k < MAX_CTRL_QUEUE
    ensures Runs(Start(1, map[]), steps, s) && Filling(s, k)
  {
    hide Runs, Enabled, Next, Start;
    if k == 0 {
      steps, s := Connected();
      assert |s.conns[0].q.ctrl| == 1;
    } else {
      steps, s := Fill(k - 1);
      FillOne(s, k - 1);
      RunsSnoc(Start(1, map[]), steps, s, Arrive(FINAL));
      steps := steps + [Arrive(FINAL)];
      s := Next(s, Arrive(FINAL));
    }
  }

  /** So a gap can be reached: a connection is open and has missed a control event, which it can never get. */
  lemma GapReached() returns (steps: seq<Step>, s: State)
    ensures Runs(Start(1, map[]), steps, s) && |s.conns| == 1 && !s.conns[0].q.closed && s.conns[0].gap
    ensures |Control(Sent(s.conns[0]))| < |Due(s.conns[0])| && s.closing
  {
    assert MAX_CTRL_QUEUE > 0;
    steps, s := Fill(MAX_CTRL_QUEUE - 1);
    FillLast(s);
    hide *;
    RunsSnoc(Start(1, map[]), steps, s, Arrive(FINAL));
    steps := steps + [Arrive(FINAL)];
    s := Next(s, Arrive(FINAL));
    Reached(1, map[], steps, s);
    GoodFacts(s, 0);
    GapMissing(s.conns[0]);
  }

  lemma GapMissing(c: Conn)
    requires CtlOk(c) && c.gap
    ensures |Control(Sent(c))| < |Due(c)|
  {}
}
