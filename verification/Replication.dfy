/**
 * The daemon, its connections and its clients as one transition system. A turn of the source goroutine is
 * one step, except that an overflowing control queue is closed in a step of its own; writers, clients,
 * toasts, closes and disconnects step in between in any order.
 */
module Replication {
  import opened ClientConns
  import opened Clients
  import opened Ipc
  import opened LogRings
  import opened Options
  import opened Runtimes
  import opened Seqs
  import opened Servers

  /**
   * One connection: its queues, the envelope its writer holds and whether the writer has given up, what
   * is written and not yet read, what the client has read and the mirror it made of it. The rest is
   * history: how many events came before, the snapshot sent, the events that came while it was the
   * client, the log lines among them that were queued and the positions of those lost again, and whether
   * a control event found the queue full.
   */
  datatype Conn = Conn(
    q: Queues, hand: seq<Envelope>, dead: bool, wire: seq<Envelope>, got: seq<Envelope>, local: Mirror,
    base: nat, snap: seq<ProjectSnap>, seen: seq<Event>, fwd: seq<Event>, lost: set<nat>, gap: bool)

  function Fresh(snap: seq<ProjectSnap>, base: nat): Conn {
    Conn(Enqueued(Queues([], [], false), Snapshot(snap)), [], false, [], [], EMPTY_MIRROR, base, snap, [], [], {}, false)
  }

  /** An event arrives while this is the client. */
  function Fed(c: Conn, ev: Event): Conn {
    var env := EventEnvelope(ev);
    if env == [] then c.(seen := c.seen + [ev])
    else
      var logged := ev.LogLine? && !c.q.closed;
      c.(q := Offer(c.q, env[0]),
         seen := c.seen + [ev],
         fwd := if logged then c.fwd + [ev] else c.fwd,
         lost := if logged && |c.q.logq| >= MAX_LOG_QUEUE && |c.fwd| >= |c.q.logq| then c.lost + {|c.fwd| - |c.q.logq|} else c.lost,
         gap := c.gap || Wedged(c.q, env[0]))
  }

  function Closed(c: Conn): Conn {
    c.(q := c.q.(closed := true))
  }

  function Toasted(c: Conn, text: string, level: string): Conn {
    c.(q := Offer(c.q, Toast(text, level)))
  }

  predicate CanTake(c: Conn) {
    CanPop(c.q) && c.hand == [] && !c.dead
  }

  function Took(c: Conn): Conn
    requires CanTake(c)
  {
    c.(q := Popped(c.q), hand := [Head(c.q)])
  }

  function Wrote(c: Conn): Conn {
    c.(wire := c.wire + c.hand, hand := [])
  }

  function Failed(c: Conn): Conn {
    c.(dead := true)
  }

  function ReadOne(c: Conn, n: nat): Conn
    requires c.wire != []
  {
    c.(wire := c.wire[1..], got := c.got + [c.wire[0]], local := Delivered(c.local, c.wire[0], n))
  }

  // ----- The whole system -----

  /**
   * n is the capacity of all rings, rt0 the seeded store; closing is set while the source has yet to
   * close a full client, stopped once its events have ended.
   */
  datatype State = State(
    n: nat, rt0: Store, rt: Store, bring: Rings, hist: seq<Event>, conns: seq<Conn>, client: Option<nat>,
    closing: bool, stopped: bool)

  function Start(n: nat, rt0: Store): State {
    State(n, rt0, rt0, map[], [], [], None, false, false)
  }

  /** The source goroutine is at its select. */
  predicate Idle(s: State) {
    !s.closing && !s.stopped && (s.client.Some? ==> s.client.value < |s.conns|)
  }

  datatype Step =
    | Arrive(ev: Event)
    | Register(snap: seq<ProjectSnap>)
    | Unregister(i: nat)
    | FinishClose
    | EndOfEvents
    | Close(i: nat)
    | SendToast(i: nat, text: string, level: string)
    | Take(i: nat)
    | WriteOk(i: nat)
    | WriteFail(i: nat)
    | Read(i: nat)

  ghost predicate Enabled(s: State, step: Step) {
    match step
    case Arrive(_) => Idle(s)
    case Register(snap) => Idle(s) && IsSnapshot(snap, s.rt, s.bring)
    case Unregister(i) => Idle(s) && i < |s.conns|
    case EndOfEvents => Idle(s)
    case FinishClose => s.closing && s.client.Some? && s.client.value < |s.conns|
    case Close(i) => i < |s.conns|
    case SendToast(i, _, _) => i < |s.conns|
    case Take(i) => i < |s.conns| && CanTake(s.conns[i])
    case WriteOk(i) => i < |s.conns| && s.conns[i].hand != [] && !s.conns[i].dead
    case WriteFail(i) => i < |s.conns| && s.conns[i].hand != [] && !s.conns[i].dead
    case Read(i) => i < |s.conns| && s.conns[i].wire != []
  }

  function With(s: State, i: nat, c: Conn): State
    requires i < |s.conns|
  {
    s.(conns := s.conns[i := c])
  }

  function CloseClient(s: State): State
    requires s.client.Some? ==> s.client.value < |s.conns|
  {
    if s.client.None? then s else With(s, s.client.value, Closed(s.conns[s.client.value]))
  }

  ghost function Next(s: State, step: Step): State
    requires Enabled(s, step)
  {
    match step
    case Arrive(ev) =>
      var t := s.(rt := Applied(s.rt, ev), bring := Recorded(s.bring, ev, s.n), hist := s.hist + [ev]);
      if s.client.None? then t
      else
        var c := s.conns[s.client.value];
        With(t, s.client.value, Fed(c, ev)).(closing := EventEnvelope(ev) != [] && Wedged(c.q, EventEnvelope(ev)[0]))
    case Register(snap) =>
      var t := CloseClient(s);
      t.(conns := t.conns + [Fresh(snap, |s.hist|)], client := Some(|s.conns|))
    case Unregister(i) =>
      With(s, i, Closed(s.conns[i])).(client := if s.client == Some(i) then None else s.client)
    case FinishClose => With(s, s.client.value, Closed(s.conns[s.client.value])).(closing := false)
    case EndOfEvents => CloseClient(s).(client := None, stopped := true)
    case Close(i) => With(s, i, Closed(s.conns[i]))
    case SendToast(i, text, level) => With(s, i, Toasted(s.conns[i], text, level))
    case Take(i) => With(s, i, Took(s.conns[i]))
    case WriteOk(i) => With(s, i, Wrote(s.conns[i]))
    case WriteFail(i) => With(s, i, Failed(s.conns[i]))
    case Read(i) => With(s, i, ReadOne(s.conns[i], s.n))
  }

  /** The steps lead from s to t. */
  ghost predicate Runs(s: State, steps: seq<Step>, t: State)
    decreases |steps|
  {
    if steps == [] then s == t else Enabled(s, steps[0]) && Runs(Next(s, steps[0]), steps[1..], t)
  }

  // ----- What is sent, and what was due -----

  /** The control envelopes among some, toasts left out. */
  function Control(envs: seq<Envelope>): seq<Envelope> {
    if envs == [] then []
    else
      var e := envs[|envs| - 1];
      Control(envs[..|envs| - 1]) + if IsLogLine(e) || e.Toast? then [] else [e]
  }

  /** The events whose envelopes are control envelopes. */
  function ControlOf(events: seq<Event>): seq<Envelope> {
    if events == [] then []
    else
      var ev := events[|events| - 1];
      ControlOf(events[..|events| - 1]) + if ev.LogLine? then [] else EventEnvelope(ev)
  }

  function LinesOf(events: seq<Event>): seq<Event> {
    if events == [] then []
    else
      var ev := events[|events| - 1];
      LinesOf(events[..|events| - 1]) + if ev.LogLine? then [ev] else []
  }

  /** The log lines among some envelopes. */
  function Logs(envs: seq<Envelope>): seq<Event> {
    if envs == [] then []
    else
      var e := envs[|envs| - 1];
      Logs(envs[..|envs| - 1]) + if IsLogLine(e) then [e.ev] else []
  }

  /** The first k lines without the lost ones. */
  function Kept(fwd: seq<Event>, lost: set<nat>, k: nat): seq<Event>
    requires k <= |fwd|
  {
    if k == 0 then [] else Kept(fwd, lost, k - 1) + if k - 1 in lost then [] else [fwd[k - 1]]
  }

  /** What a writer has taken from the queues so far, in order. */
  function Passed(c: Conn): seq<Envelope> {
    c.got + c.wire + c.hand
  }

  /** What a client has to get: the snapshot, then every control event since. */
  function Due(c: Conn): seq<Envelope> {
    [Snapshot(c.snap)] + ControlOf(c.seen)
  }

  lemma ControlSnoc(envs: seq<Envelope>, e: Envelope)
    ensures Control(envs + [e]) == Control(envs) + if IsLogLine(e) || e.Toast? then [] else [e]
    ensures Logs(envs + [e]) == Logs(envs) + if IsLogLine(e) then [e.ev] else []
  {
    assert (envs + [e])[..|envs|] == envs;
  }

  lemma EventsSnoc(events: seq<Event>, ev: Event)
    ensures ControlOf(events + [ev]) == ControlOf(events) + if ev.LogLine? then [] else EventEnvelope(ev)
    ensures LinesOf(events + [ev]) == LinesOf(events) + if ev.LogLine? then [ev] else []
  {
    assert (events + [ev])[..|events|] == events;
  }

  /** The envelopes taken and those in the control queue, in order. */
  function Sent(c: Conn): seq<Envelope> {
    Passed(c) + c.q.ctrl
  }

  /** A turn of the source with nothing in between does to the queues what Server.ApplyAndForward does. */
  lemma TurnIsForward(c: Conn, ev: Event)
    ensures var wedged := EventEnvelope(ev) != [] && Wedged(c.q, EventEnvelope(ev)[0]);
            (if wedged then Closed(Fed(c, ev)) else Fed(c, ev)).q == Forwarded(c.q, ev)
  {}
}
