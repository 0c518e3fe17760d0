/** What goes in at one end of a connection's queues comes out at the other. */
module ClientConnLaws {
  import opened ClientConns
  import opened Ipc
  import opened Seqs

  const EMPTY_QUEUES: Queues := Queues([], [], false)

  /** Everything but the log lines, in order. */
  function ControlIn(envs: seq<Envelope>): seq<Envelope> {
    if envs == [] then []
    else
      var e := envs[|envs| - 1];
      ControlIn(envs[..|envs| - 1]) + if e.EventMsg? && e.ev.LogLine? then [] else [e]
  }

  function LogLinesIn(envs: seq<Envelope>): seq<Envelope> {
    if envs == [] then []
    else
      var e := envs[|envs| - 1];
      LogLinesIn(envs[..|envs| - 1]) + if e.EventMsg? && e.ev.LogLine? then [e] else []
  }

  function EnqueueAll(q: Queues, envs: seq<Envelope>): Queues {
    if envs == [] then q else Enqueued(EnqueueAll(q, envs[..|envs| - 1]), envs[|envs| - 1])
  }

  /** What the writer takes until it has to wait. */
  function Drained(q: Queues): seq<Envelope>
    decreases |q.ctrl| + |q.logq|
  {
    if CanPop(q) then [Head(q)] + Drained(Popped(q)) else []
  }

  /**
   * A new connection holds all control envelopes it was offered, toasts and snapshots included, and the
   * newest 4096 log lines, each in the order of the offers, and stays open, as long as the control queue has
   * room for all of them; the one that finds no room closes it.
   */
  lemma {:induction false} EnqueuedAll(envs: seq<Envelope>)
    ensures EnqueueAll(EMPTY_QUEUES, envs).closed <==> |ControlIn(envs)| > MAX_CTRL_QUEUE
    ensures |ControlIn(envs)| <= MAX_CTRL_QUEUE ==>
              && EnqueueAll(EMPTY_QUEUES, envs).ctrl == ControlIn(envs)
              && EnqueueAll(EMPTY_QUEUES, envs).logq == LastN(LogLinesIn(envs), MAX_LOG_QUEUE)
    decreases |envs|
  {
    if envs != [] {
      var init, e := envs[..|envs| - 1], envs[|envs| - 1];
      EnqueuedAll(init);
      EnqueuedOne(EnqueueAll(EMPTY_QUEUES, init), e, LogLinesIn(init));
    }
  }

  lemma EnqueuedOne(q: Queues, e: Envelope, lines: seq<Envelope>)
    requires !q.closed ==> q.logq == LastN(lines, MAX_LOG_QUEUE)
    ensures e.EventMsg? && e.ev.LogLine? && !q.closed ==> Enqueued(q, e).logq == LastN(lines + [e], MAX_LOG_QUEUE)
  {}

  /** The writer takes all of it, control first, each queue in order. */
  lemma {:induction false} DrainsInOrder(q: Queues)
    requires !q.closed
    ensures Drained(q) == q.ctrl + q.logq
    decreases |q.ctrl| + |q.logq|
  {
    if CanPop(q) {
      DrainsInOrder(Popped(q));
      if q.ctrl == [] {
        assert q.logq == [q.logq[0]] + q.logq[1..];
      } else {
        assert q.ctrl + q.logq == [q.ctrl[0]] + (q.ctrl[1..] + q.logq);
      }
    }
  }

  /** So a writer that comes late still takes every control envelope, in order, and then the newest log lines. */
  lemma LateWriter(envs: seq<Envelope>)
    requires |ControlIn(envs)| <= MAX_CTRL_QUEUE
    ensures Drained(EnqueueAll(EMPTY_QUEUES, envs)) == ControlIn(envs) + LastN(LogLinesIn(envs), MAX_LOG_QUEUE)
  {
    EnqueuedAll(envs);
    DrainsInOrder(EnqueueAll(EMPTY_QUEUES, envs));
    hide EnqueueAll, Drained, ControlIn, LogLinesIn, LastN;
  }
}
