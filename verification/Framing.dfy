/** Length-prefixed frames and the reader that undoes them (internal/ipc/codec.go). */
module Framing {
  import opened Bytes
  import opened Options
  import opened Seqs

  const MAX_FRAME_SIZE: nat := 0x100_0000
  const TWO_TO_THE_32: nat := 0x1_0000_0000

  datatype Error = EOF | UnexpectedEOF | ZeroLengthFrame | FrameTooLarge

  function PutUint32(n: nat): (h: seq<byte>)
    requires n < TWO_TO_THE_32
    ensures |h| == 4
  {
    [(n / 0x100_0000) as byte, (n / 0x1_0000 % 0x100) as byte, (n / 0x100 % 0x100) as byte, (n % 0x100) as byte]
  }

  function Uint32(h: seq<byte>): (n: nat)
    requires |h| == 4
    ensures n < TWO_TO_THE_32
  {
    h[0] as int * 0x100_0000 + h[1] as int * 0x1_0000 + h[2] as int * 0x100 + h[3] as int
  }

  lemma Uint32RoundTrip(n: nat)
    requires n < TWO_TO_THE_32
    ensures Uint32(PutUint32(n)) == n
  {
    var a, b, c := n / 0x100, n / 0x1_0000, n / 0x100_0000;
    assert a / 0x100 == b && b / 0x100 == c;
    assert n == a * 0x100 + n % 0x100 && a == b * 0x100 + a % 0x100 && b == c * 0x100 + b % 0x100;
  }

  function Frame(payload: seq<byte>): seq<byte>
    requires |payload| < TWO_TO_THE_32
  {
    PutUint32(|payload|) + payload
  }

  /** The sending half; out is everything handed to the connection so far. */
  class Encoder {
    var out: seq<byte>

    constructor ()
      ensures out == []
    {
      out := [];
    }

    method Write(payload: seq<byte>) returns (err: Option<Error>)
      modifies this
      ensures |payload| > MAX_FRAME_SIZE ==> err == Some(FrameTooLarge) && out == old(out)
      ensures |payload| <= MAX_FRAME_SIZE ==> err.None? && out == old(out) + Frame(payload)
    {
      if |payload| > MAX_FRAME_SIZE {
        return Some(FrameTooLarge);
      }
      out := out + PutUint32(|payload|);
      out := out + payload;
      err := None;
    }
  }

  // ----- One read -----

  /** What is left on the connection, and how much of the current frame is still to come. */
  datatype Reader = Reader(rest: seq<byte>, remaining: nat)

  /** The bytes one call of the underlying reader yields; the schedule decides how short the read is. */
  function Take(rest: seq<byte>, limit: nat, schedule: nat): (p: seq<byte>)
    ensures |p| <= limit && p <= rest
  {
    var n := if schedule < limit then schedule else limit;
    if n <= |rest| then rest[..n] else rest
  }

  /** The buffer length passed on, where codec.go compares the length truncated to 32 bits. */
  function Limit(len: nat, remaining: nat): nat {
    if len % TWO_TO_THE_32 > remaining then remaining else len
  }

  /** The header of the next frame, when one is due. */
  function Header(max: nat, s: Reader): (r: (Reader, Option<Error>))
    ensures r.1.None? ==> 0 < r.0.remaining
  {
    if s.remaining != 0 then (s, None)
    else if |s.rest| < 4 then (Reader([], 0), Some(if s.rest == [] then EOF else UnexpectedEOF))
    else
      var n := Uint32(s.rest[..4]);
      if n == 0 then (Reader(s.rest[4..], 0), Some(ZeroLengthFrame))
      else if n > max then (Reader(s.rest[4..], 0), Some(FrameTooLarge))
      else (Reader(s.rest[4..], n), None)
  }

  /** The payload bytes of one read, with the 32-bit subtraction of codec.go. */
  function Payload(s: Reader, len: nat, schedule: nat): (r: (Reader, seq<byte>, Option<Error>)) {
    var p := Take(s.rest, Limit(len, s.remaining), schedule);
    if s.rest == [] && 0 < len then (s, [], Some(EOF))
    else (Reader(s.rest[|p|..], (s.remaining - |p|) % TWO_TO_THE_32), p, None)
  }

  function ReadStep(max: nat, s: Reader, len: nat, schedule: nat): (r: (Reader, seq<byte>, Option<Error>)) {
    var h := Header(max, s);
    if h.1.Some? then (h.0, [], h.1) else Payload(h.0, len, schedule)
  }

  class FramedReader {
    const max: nat
    var rest: seq<byte>
    var remaining: nat

    ghost function State(): Reader
      reads this
    {
      Reader(rest, remaining)
    }

    constructor (stream: seq<byte>)
      ensures State() == Reader(stream, 0) && max == MAX_FRAME_SIZE
    {
      max := MAX_FRAME_SIZE;
      rest := stream;
      remaining := 0;
    }

    method Read(len: nat, schedule: nat) returns (p: seq<byte>, err: Option<Error>)
      modifies this
      ensures (State(), p, err) == ReadStep(max, old(State()), len, schedule)
    {
      if remaining == 0 {
        if |rest| < 4 {
          err := Some(if rest == [] then EOF else UnexpectedEOF);
          rest := [];
          return [], err;
        }
        var n := Uint32(rest[..4]);
        rest := rest[4..];
        if n == 0 {
          return [], Some(ZeroLengthFrame);
        }
        if n > max {
          return [], Some(FrameTooLarge);
        }
        remaining := n;
      }
      var limit := len;
      if len % TWO_TO_THE_32 > remaining {
        limit := remaining;
      }
      if rest == [] && 0 < len {
        return [], Some(EOF);
      }
      p := Take(rest, limit, schedule);
      rest := rest[|p|..];
      remaining := (remaining - |p|) % TWO_TO_THE_32;
      err := None;
    }
  }

  // ----- What a stream carries -----

  /** The payload bytes a stream carries, and the error that ends it. */
  function Deframe(max: nat, s: Reader): (seq<byte>, Error)
    decreases |s.rest|
  {
    var h := Header(max, s);
    if h.1.Some? then ([], h.1.value)
    else if h.0.rest == [] then ([], EOF)
    else
      var k := if h.0.remaining <= |h.0.rest| then h.0.remaining else |h.0.rest|;
      var d := Deframe(max, Reader(h.0.rest[k..], h.0.remaining - k));
      (h.0.rest[..k] + d.0, d.1)
  }

  /** The guard under which one read cannot run past the current frame. */
  predicate Fits(len: nat, remaining: nat) {
    len <= remaining || len % TWO_TO_THE_32 > remaining
  }

  lemma SmallBufferFits(len: nat, remaining: nat)
    requires len < TWO_TO_THE_32
    ensures Fits(len, remaining)
  {}

  /** Taking n bytes of the current frame leaves the rest of what the stream carries. */
  lemma DeframeTake(max: nat, s: Reader, n: nat)
    requires 0 < s.remaining && n <= s.remaining && n <= |s.rest|
    ensures var d := Deframe(max, Reader(s.rest[n..], s.remaining - n));
            Deframe(max, s).0 == s.rest[..n] + d.0 && Deframe(max, s).1 == d.1
  {
    hide Deframe;
    if n == 0 {
      assert Reader(s.rest[n..], s.remaining - n) == s;
      assert s.rest[..n] + Deframe(max, s).0 == Deframe(max, s).0;
    } else {
      var k := if s.remaining <= |s.rest| then s.remaining else |s.rest|;
      var end := Reader(s.rest[k..], s.remaining - k);
      DeframeWhole(max, s, k, end);
      if n < k {
        SplitTwice(s.rest, n, k, Deframe(max, end).0);
        DeframeWhole(max, Reader(s.rest[n..], s.remaining - n), k - n, end);
      }
    }
  }

  lemma SplitTwice<T>(s: seq<T>, n: nat, k: nat, end: seq<T>)
    requires n <= k <= |s|
    ensures s[..k] + end == s[..n] + (s[n..][..k - n] + end)
    ensures s[n..][k - n..] == s[k..]
  {
    assert s[..k] == s[..n] + s[n..][..k - n];
  }

  lemma DeframeWhole(max: nat, s: Reader, k: nat, end: Reader)
    requires 0 < s.remaining && s.rest != []
    requires k == if s.remaining <= |s.rest| then s.remaining else |s.rest|
    requires end.rest == s.rest[k..] && end.remaining == s.remaining - k
    ensures Deframe(max, s).0 == s.rest[..k] + Deframe(max, end).0
    ensures Deframe(max, s).1 == Deframe(max, end).1
  {}

  /** What a read that produced p and err, leaving t, says about the stream carried by s. */
  ghost predicate Delivers(max: nat, s: Reader, t: Reader, p: seq<byte>, err: Option<Error>) {
    var d := Deframe(max, s);
    if err.Some? then d.0 == p && d.1 == err.value
    else d.0 == p + Deframe(max, t).0 && d.1 == Deframe(max, t).1
  }

  lemma PayloadDelivers(max: nat, s: Reader, len: nat, schedule: nat)
    requires 0 < s.remaining < TWO_TO_THE_32 && Fits(len, s.remaining)
    ensures var r := Payload(s, len, schedule);
            r.0.remaining < TWO_TO_THE_32 && Delivers(max, s, r.0, r.1, r.2) && (r.2.Some? ==> r.1 == [])
  {
    var n := |Take(s.rest, Limit(len, s.remaining), schedule)|;
    if s.rest == [] && 0 < len {
      assert Deframe(max, s) == ([], EOF);
    } else {
      hide Deframe, Take;
      DeframeTake(max, s, n);
      assert (s.remaining - n) % TWO_TO_THE_32 == s.remaining - n;
    }
  }

  /**
   * Each read delivers the next bytes the stream carries, or the error that ends it, whatever the
   * buffer length and the schedule of short reads. A frame above the cap is refused at its header.
   */
  lemma ReadDelivers(max: nat, s: Reader, len: nat, schedule: nat)
    requires s.remaining < TWO_TO_THE_32 && max < TWO_TO_THE_32
    requires Header(max, s).1.None? ==> Fits(len, Header(max, s).0.remaining)
    ensures var r := ReadStep(max, s, len, schedule);
            && r.0.remaining < TWO_TO_THE_32
            && Delivers(max, s, r.0, r.1, r.2)
            && (r.2.Some? ==> r.1 == [])
            && (r.2 == Some(FrameTooLarge) ==> r.0.rest == s.rest[4..])
  {
    var h := Header(max, s);
    if h.1.None? {
      DeframeHeader(max, s);
      PayloadDelivers(max, h.0, len, schedule);
    }
  }

  /** The big-endian number in the first four bytes. */
  function Declared(rest: seq<byte>): nat
    requires |rest| >= 4
  {
    0x100_0000 * rest[0] as int + 0x1_0000 * rest[1] as int + 0x100 * rest[2] as int + rest[3] as int
  }

  /**
   * Where a header is due: a declared length of 0, and exactly a length above the cap, is refused with
   * nothing but the header taken from the connection; a connection that ends inside the header is an error.
   */
  lemma CapIsExact(max: nat, s: Reader, len: nat, schedule: nat)
    requires s.remaining == 0
    ensures var r := ReadStep(max, s, len, schedule);
            if |s.rest| < 4 then r == (Reader([], 0), [], Some(if s.rest == [] then EOF else UnexpectedEOF))
            else
              && (r.2 == Some(FrameTooLarge) <==> Declared(s.rest) > max)
              && (r.2 == Some(ZeroLengthFrame) <==> Declared(s.rest) == 0)
              && (Declared(s.rest) == 0 || Declared(s.rest) > max ==> r.1 == [] && r.0 == Reader(s.rest[4..], 0))
  {
    if |s.rest| >= 4 {
      var h := s.rest[..4];
      assert h[0] == s.rest[0] && h[1] == s.rest[1] && h[2] == s.rest[2] && h[3] == s.rest[3];
    }
  }

  lemma DeframeHeader(max: nat, s: Reader)
    requires Header(max, s).1.None?
    ensures Deframe(max, s) == Deframe(max, Header(max, s).0)
  {}

  ghost predicate NeverUnderflows(len: nat, remaining: nat) {
    forall rest: seq<byte>, schedule: nat :: |Take(rest, Limit(len, remaining), schedule)| <= remaining
  }

  /** The count of remaining bytes stays non-negative for every stream and schedule exactly under the guard. */
  lemma UnderflowGuard(len: nat, remaining: nat)
    ensures NeverUnderflows(len, remaining) <==> Fits(len, remaining)
  {
    if !Fits(len, remaining) {
      var rest := seq(len, i => 0 as byte);
      assert |Take(rest, Limit(len, remaining), len)| == len;
    }
  }

  // ----- Runs of reads -----

  /** Reads until the requests are used up or one fails. */
  function ReadAll(max: nat, s: Reader, requests: seq<(nat, nat)>): (r: (Reader, seq<byte>, Option<Error>))
    decreases |requests|
  {
    if requests == [] then (s, [], None)
    else
      var (t, p, err) := ReadStep(max, s, requests[0].0, requests[0].1);
      if err.Some? then (t, p, err)
      else
        var r := ReadAll(max, t, requests[1..]);
        (r.0, p + r.1, r.2)
  }

  lemma {:induction false} ReadAllDelivers(max: nat, s: Reader, requests: seq<(nat, nat)>)
    requires s.remaining < TWO_TO_THE_32 && max < TWO_TO_THE_32
    requires forall q :: q in requests ==> q.0 < TWO_TO_THE_32
    ensures var r := ReadAll(max, s, requests);
            Delivers(max, s, r.0, r.1, r.2)
    decreases |requests|
  {
    if requests == [] {
      assert [] + Deframe(max, s).0 == Deframe(max, s).0;
    } else {
      hide ReadStep, Header, Deframe, Delivers;
      var q := requests[0];
      var r := ReadStep(max, s, q.0, q.1);
      SmallBufferFits(q.0, Header(max, s).0.remaining);
      ReadDelivers(max, s, q.0, q.1);
      if r.2.None? {
        assert forall x :: x in requests[1..] ==> x in requests;
        ReadAllDelivers(max, r.0, requests[1..]);
        var rest := ReadAll(max, r.0, requests[1..]);
        DeliversTwice(max, s, r.0, r.1, rest.0, rest.1, rest.2);
      }
    }
  }

  lemma DeliversTwice(max: nat, s: Reader, t: Reader, p: seq<byte>, u: Reader, q: seq<byte>, err: Option<Error>)
    requires Delivers(max, s, t, p, None) && Delivers(max, t, u, q, err)
    ensures Delivers(max, s, u, p + q, err)
  {
    hide Deframe;
    var end := Deframe(max, u).0;
    assert p + (q + end) == p + q + end;
  }

  function Frames(payloads: seq<seq<byte>>): seq<byte>
    requires forall p :: p in payloads ==> |p| < TWO_TO_THE_32
  {
    if payloads == [] then [] else Frame(payloads[0]) + Frames(payloads[1..])
  }

  /** A frame in front of a stream adds its payload to what the stream carries. */
  lemma DeframeFrame(max: nat, p: seq<byte>, rest: seq<byte>)
    requires 0 < |p| <= max < TWO_TO_THE_32
    ensures Deframe(max, Reader(Frame(p) + rest, 0)).0 == p + Deframe(max, Reader(rest, 0)).0
    ensures Deframe(max, Reader(Frame(p) + rest, 0)).1 == Deframe(max, Reader(rest, 0)).1
  {
    var wire, h := Frame(p) + rest, PutUint32(|p|);
    Uint32RoundTrip(|p|);
    hide PutUint32, Uint32, Deframe;
    assert wire == h + (p + rest);
    assert wire[..4] == h && wire[4..] == p + rest;
    DeframeHeader(max, Reader(wire, 0));
    DeframeTake(max, Reader(p + rest, |p|), |p|);
    assert (p + rest)[..|p|] == p && (p + rest)[|p|..] == rest;
  }

  /** Frames in front of a stream add their payloads to what it carries. */
  lemma {:induction false} DeframeFrames(max: nat, payloads: seq<seq<byte>>, rest: seq<byte>)
    requires max < TWO_TO_THE_32 && forall p :: p in payloads ==> 0 < |p| <= max
    ensures Deframe(max, Reader(Frames(payloads) + rest, 0)).0 == Flatten(payloads) + Deframe(max, Reader(rest, 0)).0
    ensures Deframe(max, Reader(Frames(payloads) + rest, 0)).1 == Deframe(max, Reader(rest, 0)).1
    decreases |payloads|
  {
    hide Deframe, Frame;
    var end := Deframe(max, Reader(rest, 0)).0;
    if payloads == [] {
      assert Frames(payloads) + rest == rest && Flatten(payloads) + end == end;
    } else {
      assert payloads[0] in payloads;
      var more := Frames(payloads[1..]);
      DeframeFrames(max, payloads[1..], rest);
      DeframeFrame(max, payloads[0], more + rest);
      assert Frame(payloads[0]) + more + rest == Frame(payloads[0]) + (more + rest);
      assert payloads[0] + Flatten(payloads[1..]) + end == payloads[0] + (Flatten(payloads[1..]) + end);
    }
  }

  lemma FramesCarryPayloads(max: nat, payloads: seq<seq<byte>>)
    requires max < TWO_TO_THE_32 && forall p :: p in payloads ==> 0 < |p| <= max
    ensures Deframe(max, Reader(Frames(payloads), 0)).0 == Flatten(payloads)
    ensures Deframe(max, Reader(Frames(payloads), 0)).1 == EOF
  {
    DeframeFrames(max, payloads, []);
    assert Deframe(max, Reader([], 0)) == ([], EOF);
    hide Deframe;
    assert Frames(payloads) + [] == Frames(payloads) && Flatten(payloads) + [] == Flatten(payloads);
  }

  /**
   * Round trip: reading framed payloads with any buffers below 4 GiB and any short reads delivers
   * them in order, and the stream ends only when all of them have been delivered.
   */
  lemma RoundTrip(payloads: seq<seq<byte>>, requests: seq<(nat, nat)>)
    requires forall p :: p in payloads ==> 0 < |p| <= MAX_FRAME_SIZE
    requires forall q :: q in requests ==> q.0 < TWO_TO_THE_32
    ensures var r := ReadAll(MAX_FRAME_SIZE, Reader(Frames(payloads), 0), requests);
            && r.1 <= Flatten(payloads)
            && (r.2.Some? ==> r.2 == Some(EOF) && r.1 == Flatten(payloads))
            && (r.2.None? ==> Flatten(payloads) == r.1 + Deframe(MAX_FRAME_SIZE, r.0).0)
  {
    FramesCarryPayloads(MAX_FRAME_SIZE, payloads);
    ReadAllDelivers(MAX_FRAME_SIZE, Reader(Frames(payloads), 0), requests);
    hide ReadAll, Deframe;
  }

  /** A read with room in its buffer, from a connection that hands over at least a byte, gets at least a byte or ends. */
  lemma ReadProgresses(max: nat, s: Reader, len: nat, schedule: nat)
    requires 0 < len < TWO_TO_THE_32 && 0 < schedule
    ensures var r := ReadStep(max, s, len, schedule);
            r.2.Some? || 0 < |r.1|
  {}

  lemma {:induction false} ReadAllProgresses(max: nat, s: Reader, requests: seq<(nat, nat)>)
    requires forall q :: q in requests ==> 0 < q.0 < TWO_TO_THE_32 && 0 < q.1
    ensures var r := ReadAll(max, s, requests);
            r.2.None? ==> |requests| <= |r.1|
    decreases |requests|
  {
    if requests != [] {
      var q := requests[0];
      assert q in requests;
      ReadProgresses(max, s, q.0, q.1);
      var t := ReadStep(max, s, q.0, q.1).0;
      hide ReadStep;
      ReadAllProgresses(max, t, requests[1..]);
    }
  }

  /**
   * And reading on gets there: with room in every buffer and a byte or more from every read of the
   * connection, more reads than there are bytes deliver all payloads and end with the end of the stream.
   */
  lemma RoundTripEnds(payloads: seq<seq<byte>>, requests: seq<(nat, nat)>)
    requires forall p :: p in payloads ==> 0 < |p| <= MAX_FRAME_SIZE
    requires forall q :: q in requests ==> 0 < q.0 < TWO_TO_THE_32 && 0 < q.1
    requires |requests| > |Flatten(payloads)|
    ensures var r := ReadAll(MAX_FRAME_SIZE, Reader(Frames(payloads), 0), requests);
            r.2 == Some(EOF) && r.1 == Flatten(payloads)
  {
    RoundTrip(payloads, requests);
    ReadAllProgresses(MAX_FRAME_SIZE, Reader(Frames(payloads), 0), requests);
    hide ReadAll, Deframe, Flatten, Frames;
  }

  /**
   * A header above the cap behind framed payloads: no reads ever deliver more than the payloads, whatever
   * follows, an error is the refusal and comes behind all of them, and enough reads end with it.
   */
  lemma OversizeIsRefused(payloads: seq<seq<byte>>, rest: seq<byte>, requests: seq<(nat, nat)>)
    requires forall p :: p in payloads ==> 0 < |p| <= MAX_FRAME_SIZE
    requires |rest| >= 4 && Declared(rest) > MAX_FRAME_SIZE
    requires forall q :: q in requests ==> q.0 < TWO_TO_THE_32
    ensures var r := ReadAll(MAX_FRAME_SIZE, Reader(Frames(payloads) + rest, 0), requests);
            && r.1 <= Flatten(payloads)
            && (r.2.Some? ==> r.2 == Some(FrameTooLarge) && r.1 == Flatten(payloads))
            && ((forall q :: q in requests ==> 0 < q.0 && 0 < q.1) && |requests| > |Flatten(payloads)| ==> r.2.Some?)
  {
    var stream := Reader(Frames(payloads) + rest, 0);
    DeframeFrames(MAX_FRAME_SIZE, payloads, rest);
    Refused(MAX_FRAME_SIZE, rest);
    ReadAllDelivers(MAX_FRAME_SIZE, stream, requests);
    if forall q :: q in requests ==> 0 < q.0 && 0 < q.1 {
      ReadAllProgresses(MAX_FRAME_SIZE, stream, requests);
    }
    hide ReadAll, Deframe, Flatten, Frames, Declared;
    assert Flatten(payloads) + [] == Flatten(payloads);
  }

  lemma Refused(max: nat, rest: seq<byte>)
    requires |rest| >= 4 && Declared(rest) > max
    ensures Deframe(max, Reader(rest, 0)) == ([], FrameTooLarge)
  {
    var h := rest[..4];
    assert h[0] == rest[0] && h[1] == rest[1] && h[2] == rest[2] && h[3] == rest[3];
  }

  /** A 4 GiB buffer: the truncated length is 0, so the read runs into the next frame's header. */
  lemma HugeBufferCrossesFrames()
    ensures var r := ReadStep(MAX_FRAME_SIZE, Reader(Frames([[1], [2]]), 0), TWO_TO_THE_32, 2);
            r.2.None? && !(r.1 <= Flatten([[1], [2]]))
  {
    var payloads: seq<seq<byte>> := [[1], [2]];
    assert payloads[1..] == [[2]] && [[2 as byte]][1..] == [];
    assert Flatten([[2 as byte]]) == [2] + [];
    assert Flatten(payloads) == [1] + [2];
    assert Frames([[2]]) == [0, 0, 0, 1, 2];
    assert Frames(payloads) == [0, 0, 0, 1, 1] + [0, 0, 0, 1, 2];
    var wire := Frames(payloads);
    assert wire[..4] == [0, 0, 0, 1] && wire[4..] == [1, 0, 0, 0, 1, 2];
    assert Header(MAX_FRAME_SIZE, Reader(wire, 0)) == (Reader(wire[4..], 1), None);
    assert Take(wire[4..], TWO_TO_THE_32, 2) == [1, 0];
    assert Limit(TWO_TO_THE_32, 1) == TWO_TO_THE_32;
    assert [1, 0][1] as byte != ([1] + [2 as byte])[1];
  }
}
