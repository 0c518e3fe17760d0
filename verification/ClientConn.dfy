/** The daemon's two queues for its client (internal/daemon/client_conn.go). */
module ClientConns {
  import opened Ipc
  import opened Runtimes

  const MAX_LOG_QUEUE: nat := 4096
  const MAX_CTRL_QUEUE: nat := 65536

  /** The lossless control queue, the lossy log queue, and whether the connection is closed. */
  datatype Queues = Queues(ctrl: seq<Envelope>, logq: seq<Envelope>, closed: bool)

  /** The locked part of enqueue: a full log queue loses its oldest line, a full control queue takes nothing. */
  function Offer(q: Queues, env: Envelope): Queues {
    if q.closed then q
    else if IsLogLine(env) then
      q.(logq := (if |q.logq| >= MAX_LOG_QUEUE then q.logq[1..] else q.logq) + [env])
    else if |q.ctrl| >= MAX_CTRL_QUEUE then q
    else q.(ctrl := q.ctrl + [env])
  }

  /** The control queue overflows: enqueue goes on to close the connection. */
  predicate Wedged(q: Queues, env: Envelope) {
    !q.closed && !IsLogLine(env) && |q.ctrl| >= MAX_CTRL_QUEUE
  }

  function Enqueued(q: Queues, env: Envelope): Queues {
    if Wedged(q, env) then q.(closed := true) else Offer(q, env)
  }

  predicate CanPop(q: Queues) {
    !q.closed && (q.ctrl != [] || q.logq != [])
  }

  /** What the writer takes next: control first. */
  function Head(q: Queues): Envelope
    requires CanPop(q)
  {
    if q.ctrl != [] then q.ctrl[0] else q.logq[0]
  }

  function Popped(q: Queues): Queues
    requires CanPop(q)
  {
    if q.ctrl != [] then q.(ctrl := q.ctrl[1..]) else q.(logq := q.logq[1..])
  }

  class ClientConn {
    var ctrl: seq<Envelope>
    var logq: seq<Envelope>
    var closed: bool

    constructor ()
      ensures View() == Queues([], [], false)
    {
      ctrl, logq, closed := [], [], false;
    }

    function View(): Queues
      reads this
    {
      Queues(ctrl, logq, closed)
    }

    method Enqueue(env: Envelope)
      modifies this
      ensures View() == Enqueued(old(View()), env)
    {
      if closed {
        return;
      }
      if IsLogLine(env) {
        if |logq| >= MAX_LOG_QUEUE {
          logq := logq[1..];
        }
        logq := logq + [env];
      } else {
        if |ctrl| >= MAX_CTRL_QUEUE {
          Close();
          return;
        }
        ctrl := ctrl + [env];
      }
    }

    /** One turn of the writer, up to the write: what it took, or nothing when it has to wait or to end. */
    method Take() returns (env: seq<Envelope>)
      modifies this
      ensures old(CanPop(View())) ==> env == [Head(old(View()))] && View() == Popped(old(View()))
      ensures !old(CanPop(View())) ==> env == [] && View() == old(View())
    {
      if closed || (|ctrl| == 0 && |logq| == 0) {
        return [];
      }
      if |ctrl| > 0 {
        env := [ctrl[0]];
        ctrl := ctrl[1..];
      } else {
        env := [logq[0]];
        logq := logq[1..];
      }
    }

    method Close()
      modifies this
      ensures View() == old(View()).(closed := true)
    {
      if closed {
        return;
      }
      closed := true;
    }
  }
}
