/** What every run of the system keeps. */
module ReplicationInvariant {
  import opened ClientConns
  import opened Clients
  import opened Ipc
  import opened LogRings
  import opened Options
  import opened Replication
  import opened ReplicationSteps
  import opened Runtimes
  import opened Servers

  /** The broadcast rings after some events. */
  function RecordedAll(hist: seq<Event>, n: nat): Rings {
    if hist == [] then map[] else Recorded(RecordedAll(hist[..|hist| - 1], n), hist[|hist| - 1], n)
  }

  lemma RecordedSnoc(hist: seq<Event>, ev: Event, n: nat)
    ensures RecordedAll(hist + [ev], n) == Recorded(RecordedAll(hist, n), ev, n)
  {
    assert (hist + [ev])[..|hist|] == hist;
  }

  lemma DeliveredSnoc(m: Mirror, envs: seq<Envelope>, e: Envelope, n: nat)
    ensures DeliveredAll(m, envs + [e], n) == Delivered(DeliveredAll(m, envs, n), e, n)
  {
    assert (envs + [e])[..|envs|] == envs;
  }

  /** The snapshot was taken after the first base events, and the connection was fed events from there on. */
  ghost predicate BaseOk(c: Conn, rt0: Store, hist: seq<Event>, n: nat) {
    && c.base <= |hist|
    && c.seen <= hist[c.base..]
    && IsSnapshot(c.snap, Replay(rt0, hist[..c.base]), RecordedAll(hist[..c.base], n))
  }

  ghost predicate LocalOk(c: Conn, n: nat) {
    c.local == DeliveredAll(EMPTY_MIRROR, c.got, n)
  }

  ghost predicate ConnOk(c: Conn, rt0: Store, hist: seq<Event>, n: nat) {
    CtlOk(c) && LogOk(c) && LocalOk(c, n) && BaseOk(c, rt0, hist, n)
  }

  /** Only the client is open, and it was fed every event; one that missed a control event is about to be closed. */
  ghost predicate Linked(c: Conn, isClient: bool, hist: seq<Event>, closing: bool) {
    && (!c.q.closed ==> isClient)
    && (isClient ==> c.base <= |hist| && c.seen == hist[c.base..])
    && (c.gap && !c.q.closed ==> closing)
  }

  ghost predicate Good(s: State, i: nat)
    requires i < |s.conns|
  {
    ConnOk(s.conns[i], s.rt0, s.hist, s.n) && Linked(s.conns[i], s.client == Some(i), s.hist, s.closing)
  }

  ghost predicate Inv(s: State) {
    && s.rt == Replay(s.rt0, s.hist)
    && s.bring == RecordedAll(s.hist, s.n)
    && (s.client.Some? ==> s.client.value < |s.conns|)
    && (s.closing ==> s.client.Some?)
    && forall i :: 0 <= i < |s.conns| ==> Good(s, i)
  }

  // ----- Steps of one connection -----

  /** A step of connection i alone. */
  lemma OneConn(s: State, i: nat, d: Conn)
    requires Inv(s) && i < |s.conns|
    requires ConnOk(d, s.rt0, s.hist, s.n) && Linked(d, s.client == Some(i), s.hist, s.closing)
    ensures Inv(With(s, i, d))
  {
    var t := With(s, i, d);
    hide ConnOk, Linked, Replay, RecordedAll;
    forall j | 0 <= j < |t.conns| ensures Good(t, j) {
      assert j != i ==> Good(s, j);
    }
  }

  lemma GoodFacts(s: State, i: nat)
    requires Inv(s) && i < |s.conns|
    ensures var c := s.conns[i];
            && CtlOk(c) && LogOk(c) && LocalOk(c, s.n) && BaseOk(c, s.rt0, s.hist, s.n)
            && Linked(c, s.client == Some(i), s.hist, s.closing)
  {
    hide CtlOk, LogOk, LocalOk, BaseOk, Linked, Replay, RecordedAll;
    assert Good(s, i);
  }

  /** A step that keeps the history of a connection. */
  lemma SameHistory(s: State, i: nat, d: Conn)
    requires Inv(s) && i < |s.conns|
    requires var c := s.conns[i];
             && d.base == c.base && d.snap == c.snap && d.seen == c.seen && d.gap == c.gap
             && (c.q.closed ==> d.q.closed)
    requires CtlOk(d) && LogOk(d) && LocalOk(d, s.n)
    ensures Inv(With(s, i, d))
  {
    GoodFacts(s, i);
    hide CtlOk, LogOk, LocalOk, Inv, Replay, RecordedAll, IsSnapshot;
    OneConn(s, i, d);
  }

  lemma LocalSame(c: Conn, d: Conn, n: nat)
    requires LocalOk(c, n) && d.local == c.local && d.got == c.got
    ensures LocalOk(d, n)
  {}

  lemma CloseStep(s: State, i: nat)
    requires Inv(s) && i < |s.conns|
    ensures Inv(With(s, i, Closed(s.conns[i])))
  {
    hide Inv, CtlOk, LogOk, LocalOk, BaseOk, Linked;
    GoodFacts(s, i);
    var c := s.conns[i];
    var d := Closed(c);
    ClosedCtl(c);
    assert Passed(d) == Passed(c);
    LogSame(c, d);
    LocalSame(c, d, s.n);
    SameHistory(s, i, d);
  }

  lemma ToastStep(s: State, i: nat, text: string, level: string)
    requires Inv(s) && i < |s.conns|
    ensures Inv(With(s, i, Toasted(s.conns[i], text, level)))
  {
    hide Inv, CtlOk, LogOk, LocalOk, BaseOk, Linked;
    GoodFacts(s, i);
    var c := s.conns[i];
    var d := Toasted(c, text, level);
    ToastedCtl(c, text, level);
    assert Passed(d) == Passed(c);
    LogSame(c, d);
    LocalSame(c, d, s.n);
    SameHistory(s, i, d);
  }

  lemma TakeStep(s: State, i: nat)
    requires Inv(s) && i < |s.conns| && CanTake(s.conns[i])
    ensures Inv(With(s, i, Took(s.conns[i])))
  {
    hide Inv, CtlOk, LogOk, LocalOk, BaseOk, Linked;
    GoodFacts(s, i);
    var c := s.conns[i];
    LogCounts(c);
    CtlNoLogs(c);
    TookCtl(c);
    TookLog(c);
    LocalSame(c, Took(c), s.n);
    SameHistory(s, i, Took(c));
  }

  lemma WriteStep(s: State, i: nat)
    requires Inv(s) && i < |s.conns|
    ensures Inv(With(s, i, Wrote(s.conns[i]))) && Inv(With(s, i, Failed(s.conns[i])))
  {
    hide Inv, CtlOk, LogOk, LocalOk, BaseOk, Linked;
    GoodFacts(s, i);
    var c := s.conns[i];
    MovedPassed(c, s.n);
    MovedCtl(c, Wrote(c));
    MovedCtl(c, Failed(c));
    LogSame(c, Wrote(c));
    LogSame(c, Failed(c));
    LocalSame(c, Wrote(c), s.n);
    LocalSame(c, Failed(c), s.n);
    SameHistory(s, i, Wrote(c));
    SameHistory(s, i, Failed(c));
  }

  lemma ReadStep(s: State, i: nat)
    requires Inv(s) && i < |s.conns| && s.conns[i].wire != []
    ensures Inv(With(s, i, ReadOne(s.conns[i], s.n)))
  {
    hide Inv, CtlOk, LogOk, LocalOk, BaseOk, Linked;
    GoodFacts(s, i);
    var c := s.conns[i];
    var d := ReadOne(c, s.n);
    MovedPassed(c, s.n);
    MovedCtl(c, d);
    LogSame(c, d);
    ReadLocal(c, s.n);
    SameHistory(s, i, d);
  }

  lemma ReadLocal(c: Conn, n: nat)
    requires LocalOk(c, n) && c.wire != []
    ensures LocalOk(ReadOne(c, n), n)
  {
    DeliveredSnoc(EMPTY_MIRROR, c.got, c.wire[0], n);
    hide Delivered, DeliveredAll;
  }

  // ----- Turns of the source -----

  lemma BaseLater(c: Conn, rt0: Store, hist: seq<Event>, ev: Event, n: nat)
    requires BaseOk(c, rt0, hist, n)
    ensures BaseOk(c, rt0, hist + [ev], n)
    ensures c.seen == hist[c.base..] ==>
              c.seen + [ev] == (hist + [ev])[c.base..] && forall d: Conn {:trigger BaseOk(d, rt0, hist + [ev], n)} ::
                d.base == c.base && d.snap == c.snap && d.seen == c.seen + [ev] ==> BaseOk(d, rt0, hist + [ev], n)
  {
    hide Replay, RecordedAll, IsSnapshot;
    assert (hist + [ev])[c.base..] == hist[c.base..] + [ev];
    assert (hist + [ev])[..c.base] == hist[..c.base];
  }

  /** A connection that is not the client: events pass it by. */
  lemma PassedBy(s: State, t: State, j: nat, ev: Event)
    requires Inv(s) && j < |s.conns| && s.client != Some(j) && !s.closing
    requires |t.conns| == |s.conns| && t.conns[j] == s.conns[j] && t.hist == s.hist + [ev]
    requires t.client == s.client && t.n == s.n && t.rt0 == s.rt0
    ensures Good(t, j)
  {
    GoodFacts(s, j);
    BaseLater(s.conns[j], s.rt0, s.hist, ev, s.n);
    hide CtlOk, LogOk, LocalOk, BaseOk, Inv;
  }

  lemma FedFields(c: Conn, ev: Event)
    ensures var d := Fed(c, ev);
            && d.base == c.base && d.snap == c.snap && d.seen == c.seen + [ev] && d.local == c.local && d.got == c.got
            && d.q.closed == c.q.closed
            && d.gap == (c.gap || (EventEnvelope(ev) != [] && Wedged(c.q, EventEnvelope(ev)[0])))
    ensures EventEnvelope(ev) != [] && Wedged(c.q, EventEnvelope(ev)[0]) ==> !c.q.closed
  {}

  lemma FedGood(s: State, ev: Event)
    requires Inv(s) && s.client.Some? && !s.closing
    ensures s.client.value < |s.conns|
    ensures var c := s.conns[s.client.value];
            var d := Fed(c, ev);
            && ConnOk(d, s.rt0, s.hist + [ev], s.n)
            && Linked(d, true, s.hist + [ev], EventEnvelope(ev) != [] && Wedged(c.q, EventEnvelope(ev)[0]))
  {
    assert s.client.value < |s.conns|;
    hide Inv;
    GoodFacts(s, s.client.value);
    var c := s.conns[s.client.value];
    var d := Fed(c, ev);
    BaseLater(c, s.rt0, s.hist, ev, s.n);
    hide CtlOk, LogOk, LocalOk, BaseOk, Fed, Wedged;
    FedFields(c, ev);
    FedCtl(c, ev);
    FedLog(c, ev);
    LocalSame(c, d, s.n);
  }

  /** The client after the event. */
  lemma ClientFed(s: State, t: State, ev: Event)
    requires Inv(s) && s.client.Some? && !s.closing && t.client == s.client && s.client.value < |s.conns| == |t.conns|
    requires t.hist == s.hist + [ev] && t.n == s.n && t.rt0 == s.rt0
    requires var c := s.conns[s.client.value];
             && t.conns[s.client.value] == Fed(c, ev)
             && t.closing == (EventEnvelope(ev) != [] && Wedged(c.q, EventEnvelope(ev)[0]))
    ensures Good(t, s.client.value)
  {
    hide Inv, ConnOk, Linked, Fed, Wedged;
    FedGood(s, ev);
  }

  lemma MakeInv(t: State)
    requires t.rt == Replay(t.rt0, t.hist) && t.bring == RecordedAll(t.hist, t.n)
    requires (t.client.Some? ==> t.client.value < |t.conns|) && (t.closing ==> t.client.Some?)
    requires forall i :: 0 <= i < |t.conns| ==> Good(t, i)
    ensures Inv(t)
  {
    hide Good, Replay, RecordedAll;
  }

  lemma InvFacts(s: State)
    requires Inv(s)
    ensures s.rt == Replay(s.rt0, s.hist) && s.bring == RecordedAll(s.hist, s.n)
    ensures (s.client.Some? ==> s.client.value < |s.conns|) && (s.closing ==> s.client.Some?)
  {
    hide Good, Replay, RecordedAll;
  }

  lemma ArriveFields(s: State, ev: Event)
    requires Enabled(s, Arrive(ev))
    ensures var t := Next(s, Arrive(ev));
            && t.n == s.n && t.rt0 == s.rt0 && t.client == s.client && !s.closing
            && t.rt == Applied(s.rt, ev) && t.bring == Recorded(s.bring, ev, s.n) && t.hist == s.hist + [ev]
            && |t.conns| == |s.conns|
            && (forall j :: 0 <= j < |s.conns| && s.client != Some(j) ==> t.conns[j] == s.conns[j])
            && (s.client.None? ==> !t.closing)
            && (s.client.Some? ==>
                  && s.client.value < |s.conns|
                  && t.conns[s.client.value] == Fed(s.conns[s.client.value], ev)
                  && t.closing == (EventEnvelope(ev) != []
                                   && Wedged(s.conns[s.client.value].q, EventEnvelope(ev)[0])))
  {
    hide Applied, Recorded, Fed, Wedged;
  }

  lemma ArriveStep(s: State, ev: Event)
    requires Inv(s) && Enabled(s, Arrive(ev))
    ensures Inv(Next(s, Arrive(ev)))
  {
    hide *;
    var t := Next(s, Arrive(ev));
    ArriveFields(s, ev);
    InvFacts(s);
    ReplaySnoc(s.rt0, s.hist, ev);
    RecordedSnoc(s.hist, ev, s.n);
    forall j | 0 <= j < |t.conns| ensures Good(t, j) {
      if s.client == Some(j) {
        ClientFed(s, t, ev);
      } else {
        PassedBy(s, t, j, ev);
      }
    }
    MakeInv(t);
  }

  lemma FreshGood(rt0: Store, hist: seq<Event>, n: nat, snap: seq<ProjectSnap>, closing: bool)
    requires IsSnapshot(snap, Replay(rt0, hist), RecordedAll(hist, n))
    ensures var c := Fresh(snap, |hist|);
            ConnOk(c, rt0, hist, n) && Linked(c, true, hist, closing)
  {
    hide *;
    FreshCtl(snap, |hist|);
    FreshLog(snap, |hist|);
    FreshRest(rt0, hist, n, snap, closing);
    MakeConnOk(Fresh(snap, |hist|), rt0, hist, n);
  }

  lemma FreshRest(rt0: Store, hist: seq<Event>, n: nat, snap: seq<ProjectSnap>, closing: bool)
    requires IsSnapshot(snap, Replay(rt0, hist), RecordedAll(hist, n))
    ensures var c := Fresh(snap, |hist|);
            LocalOk(c, n) && BaseOk(c, rt0, hist, n) && Linked(c, true, hist, closing)
  {
    hide Replay, RecordedAll, IsSnapshot, Enqueued;
    assert hist[..|hist|] == hist && hist[|hist|..] == [];
  }

  lemma MakeConnOk(c: Conn, rt0: Store, hist: seq<Event>, n: nat)
    requires CtlOk(c) && LogOk(c) && LocalOk(c, n) && BaseOk(c, rt0, hist, n)
    ensures ConnOk(c, rt0, hist, n)
  {
    hide CtlOk, LogOk, LocalOk, BaseOk;
  }

  /** The connection that has just become the client. */
  lemma NewClient(s: State, t: State, snap: seq<ProjectSnap>)
    requires s.rt == Replay(s.rt0, s.hist) && s.bring == RecordedAll(s.hist, s.n) && IsSnapshot(snap, s.rt, s.bring)
    requires t.hist == s.hist && t.n == s.n && t.rt0 == s.rt0 && t.client == Some(|s.conns|)
    requires |t.conns| == |s.conns| + 1 && t.conns[|s.conns|] == Fresh(snap, |s.hist|)
    ensures Good(t, |s.conns|)
  {
    hide ConnOk, Linked, Fresh, Replay, RecordedAll, IsSnapshot;
    FreshGood(s.rt0, s.hist, s.n, snap, t.closing);
  }

  /** A closed connection stays as it is when another becomes the client. */
  lemma Displaced(s: State, t: State, j: nat)
    requires Inv(s) && j < |s.conns| && s.conns[j].q.closed && j < |t.conns| && t.conns[j] == s.conns[j]
    requires t.hist == s.hist && t.n == s.n && t.rt0 == s.rt0 && t.client != Some(j)
    ensures Good(t, j)
  {
    GoodFacts(s, j);
    hide CtlOk, LogOk, LocalOk, BaseOk, Inv;
  }

  lemma OnlyClientOpen(s: State, j: nat)
    requires Inv(s) && j < |s.conns| && s.client != Some(j)
    ensures s.conns[j].q.closed
  {
    GoodFacts(s, j);
  }

  lemma RegisterFields(s: State, snap: seq<ProjectSnap>)
    requires Enabled(s, Register(snap))
    ensures var t := Next(s, Register(snap));
            && t.n == s.n && t.rt0 == s.rt0 && t.rt == s.rt && t.bring == s.bring && t.hist == s.hist
            && !s.closing && !t.closing && t.client == Some(|s.conns|) && IsSnapshot(snap, s.rt, s.bring)
            && |t.conns| == |s.conns| + 1 && t.conns[|s.conns|] == Fresh(snap, |s.hist|)
            && (forall j :: 0 <= j < |s.conns| && s.client != Some(j) ==> t.conns[j] == s.conns[j])
            && (s.client.Some? ==> s.client.value < |s.conns| && t.conns[s.client.value] == Closed(s.conns[s.client.value]))
  {
    hide Fresh, Closed, IsSnapshot;
  }

  lemma WithFields(s: State, i: nat, d: Conn)
    requires i < |s.conns|
    ensures var m := With(s, i, d);
            && m.n == s.n && m.rt0 == s.rt0 && m.hist == s.hist && m.client == s.client && m.closing == s.closing
            && |m.conns| == |s.conns| && m.conns[i] == d && forall j :: 0 <= j < |s.conns| && j != i ==> m.conns[j] == s.conns[j]
  {}

  lemma ClosedIsClosed(c: Conn)
    ensures Closed(c).q.closed
  {}

  lemma RegisterStep(s: State, snap: seq<ProjectSnap>)
    requires Inv(s) && Enabled(s, Register(snap))
    ensures Inv(Next(s, Register(snap)))
  {
    hide *;
    var t := Next(s, Register(snap));
    RegisterFields(s, snap);
    InvFacts(s);
    forall j | 0 <= j < |t.conns| ensures Good(t, j) {
      if j == |s.conns| {
        NewClient(s, t, snap);
      } else if s.client == Some(j) {
        CloseStep(s, j);
        WithFields(s, j, Closed(s.conns[j]));
        ClosedIsClosed(s.conns[j]);
        Displaced(With(s, j, Closed(s.conns[j])), t, j);
      } else {
        OnlyClientOpen(s, j);
        Displaced(s, t, j);
      }
    }
    MakeInv(t);
  }

  lemma UnregisterStep(s: State, i: nat)
    requires Inv(s) && Enabled(s, Unregister(i))
    ensures Inv(Next(s, Unregister(i)))
  {
    var t := Next(s, Unregister(i));
    CloseStep(s, i);
    var m := With(s, i, Closed(s.conns[i]));
    assert t == m.(client := if s.client == Some(i) then None else s.client);
    if s.client == Some(i) {
      forall j | 0 <= j < |t.conns| ensures Good(t, j) {
        if j != i {
          OnlyClientOpen(s, j);
        }
        hide Inv;
        Displaced(m, t, j);
      }
      InvFacts(m);
      hide Good, Replay, RecordedAll, Inv;
      MakeInv(t);
    }
  }

  lemma FinishStep(s: State)
    requires Inv(s) && Enabled(s, FinishClose)
    ensures Inv(Next(s, FinishClose))
  {
    var t := Next(s, FinishClose);
    var i := s.client.value;
    CloseStep(s, i);
    var m := With(s, i, Closed(s.conns[i]));
    forall j | 0 <= j < |t.conns| ensures Good(t, j) {
      GoodFacts(m, j);
      hide Inv, CtlOk, LogOk, LocalOk, BaseOk;
    }
    hide Good, Replay, RecordedAll;
  }

  lemma EndFields(s: State)
    requires Enabled(s, EndOfEvents)
    ensures var t := Next(s, EndOfEvents);
            && t.n == s.n && t.rt0 == s.rt0 && t.rt == s.rt && t.bring == s.bring && t.hist == s.hist
            && !t.closing && t.client == None && t.stopped && |t.conns| == |s.conns|
            && (forall j :: 0 <= j < |s.conns| && s.client != Some(j) ==> t.conns[j] == s.conns[j])
            && (s.client.Some? ==> s.client.value < |s.conns| && t.conns[s.client.value] == Closed(s.conns[s.client.value]))
  {
    hide Closed;
  }

  lemma EndStep(s: State)
    requires Inv(s) && Enabled(s, EndOfEvents)
    ensures Inv(Next(s, EndOfEvents))
  {
    hide *;
    var t := Next(s, EndOfEvents);
    EndFields(s);
    InvFacts(s);
    forall j | 0 <= j < |t.conns| ensures Good(t, j) {
      if s.client == Some(j) {
        CloseStep(s, j);
        WithFields(s, j, Closed(s.conns[j]));
        ClosedIsClosed(s.conns[j]);
        Displaced(With(s, j, Closed(s.conns[j])), t, j);
      } else {
        OnlyClientOpen(s, j);
        Displaced(s, t, j);
      }
    }
    MakeInv(t);
  }

  // ----- Runs -----

  lemma StepKeeps(s: State, step: Step)
    requires Inv(s) && Enabled(s, step)
    ensures Inv(Next(s, step))
  {
    hide Inv;
    match step
    case Arrive(ev) => ArriveStep(s, ev);
    case Register(snap) => RegisterStep(s, snap);
    case Unregister(i) => UnregisterStep(s, i);
    case FinishClose => FinishStep(s);
    case EndOfEvents => EndStep(s);
    case Close(i) => CloseStep(s, i);
    case SendToast(i, text, level) => ToastStep(s, i, text, level);
    case Take(i) => TakeStep(s, i);
    case WriteOk(i) => WriteStep(s, i);
    case WriteFail(i) => WriteStep(s, i);
    case Read(i) => ReadStep(s, i);
  }

  lemma {:induction false} RunKeeps(s: State, steps: seq<Step>, t: State)
    requires Inv(s) && Runs(s, steps, t)
    ensures Inv(t)
    decreases |steps|
  {
    hide Inv, Enabled, Next;
    if steps != [] {
      StepKeeps(s, steps[0]);
      RunKeeps(Next(s, steps[0]), steps[1..], t);
    }
  }

  lemma StartInv(n: nat, rt0: Store)
    ensures Inv(Start(n, rt0))
  {}

  /** Every state the daemon gets to from its start keeps the invariant. */
  lemma Reached(n: nat, rt0: Store, steps: seq<Step>, t: State)
    requires Runs(Start(n, rt0), steps, t)
    ensures Inv(t)
  {
    StartInv(n, rt0);
    RunKeeps(Start(n, rt0), steps, t);
  }
}
