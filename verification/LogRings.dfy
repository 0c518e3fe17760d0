/** One log ring per project, as its contents (internal/daemon/server.go, internal/state/registry.go). */
module LogRings {
  import opened Ipc
  import opened Seqs
  import RingBuffers

  type Rings = map<string, seq<Line>>

  /** The capacity of a ring for a configured number of lines. */
  function Capacity(limit: int): (n: nat)
    ensures 0 < n && (0 < limit ==> n == limit) && (limit <= 0 ==> n == 1000)
  {
    if limit <= 0 then 1000 else limit
  }

  function RingOf(rings: Rings, id: string): seq<Line> {
    if id in rings then rings[id] else []
  }

  /** Lines pushed to the ring of a project, which is created when absent. */
  function Pushed(rings: Rings, id: string, lines: seq<Line>, n: nat): Rings {
    rings[id := RingBuffers.Apply(n, RingOf(rings, id), RingBuffers.PushMany(lines))]
  }

  lemma PushedRing(rings: Rings, id: string, lines: seq<Line>, n: nat, other: string)
    ensures RingOf(Pushed(rings, id, lines, n), other)
         == if other == id then LastN(RingOf(rings, id) + lines, n) else RingOf(rings, other)
  {}
}
