/** What the daemon sends to its client (internal/ipc/message.go, internal/daemon/server.go). */
module Ipc {
  import opened Runtimes

  /** A log line; its lazily decoded rendering is left out. */
  datatype Line = Line(bytes: string, isPartial: bool, timestamp: int)

  datatype ProjectSnap = ProjectSnap(id: string, state: string, pid: int, lines: seq<Line>)

  datatype Envelope =
    | Snapshot(projects: seq<ProjectSnap>)
    | EventMsg(ev: Event)
    | Toast(text: string, level: string)

  predicate IsLogLine(env: Envelope) {
    env.EventMsg? && env.ev.LogLine?
  }

  function LineOf(ev: Event): Line
    requires ev.LogLine?
  {
    Line(ev.bytes, ev.isPartial, ev.at)
  }

  /** The envelope of an event, none for an event the daemon does not know. */
  function EventEnvelope(ev: Event): (envs: seq<Envelope>)
    ensures envs == [] <==> ev.Other?
  {
    match ev
    case Started(_, _, _) => [EventMsg(ev)]
    case Exited(_, _, _, _) => [EventMsg(ev)]
    case StateChanged(_, _) => [EventMsg(ev)]
    case LogLine(_, _, _, _) => [EventMsg(ev)]
    case Restarting(_, _, _) => [EventMsg(ev)]
    case Other(_) => []
  }
}
