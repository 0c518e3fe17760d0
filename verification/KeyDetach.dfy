/** The Esc Esc detach handshake of an embedded session (internal/tui/attach/session.go, internal/tui/routing.go). */
module KeyDetach {
  import opened Bytes

  const RAW_ESC: byte := 0x1b

  /** A key; one that has no terminal encoding is dropped by the router. */
  datatype Key = Esc | Other(code: int, encodable: bool)

  /** What reaches the child process. */
  datatype Output = Raw(b: byte) | Encoded(code: int)

  /** Instants are positive; 0 is the zero time. */
  datatype Detector = Detector(armed: bool, armedAt: int, flush: seq<byte>)

  const IDLE := Detector(false, 0, [])

  datatype Verdict = Verdict(consumed: bool, detached: bool, flush: seq<byte>)

  function FeedStep(timeout: int, d: Detector, esc: bool, now: int): (Detector, Verdict) {
    if d.armed && d.armedAt != 0 && now - d.armedAt > timeout then
      if esc then (Detector(true, now, [RAW_ESC]), Verdict(true, false, d.flush))
      else (IDLE, Verdict(false, false, d.flush))
    else if d.armed then
      if esc then (IDLE, Verdict(true, true, [])) else (IDLE, Verdict(false, false, d.flush))
    else if esc then (Detector(true, now, [RAW_ESC]), Verdict(true, false, []))
    else (d, Verdict(false, false, []))
  }

  function FlushStep(timeout: int, d: Detector, now: int): (Detector, seq<byte>) {
    if !d.armed || d.armedAt == 0 || now - d.armedAt <= timeout then (d, []) else (IDLE, d.flush)
  }

  class KeyDetector {
    const timeout: int
    var armed: bool
    var armedAt: int
    var flush: seq<byte>

    ghost function View(): Detector
      reads this
    {
      Detector(armed, armedAt, flush)
    }

    constructor (timeout: int)
      ensures View() == IDLE && this.timeout == timeout
    {
      this.timeout := timeout;
      armed, armedAt, flush := false, 0, [];
    }

    method Feed(esc: bool, now: int) returns (consumed: bool, detached: bool, out: seq<byte>)
      modifies this
      ensures (View(), Verdict(consumed, detached, out)) == FeedStep(timeout, old(View()), esc, now)
    {
      if armed && armedAt != 0 && now - armedAt > timeout {
        out := flush;
        armed, flush, armedAt := false, [], 0;
        if esc {
          armed, armedAt, flush := true, now, [RAW_ESC];
          return true, false, out;
        }
        return false, false, out;
      }
      if armed {
        if esc {
          armed, flush, armedAt := false, [], 0;
          return true, true, [];
        }
        out := flush;
        armed, flush, armedAt := false, [], 0;
        return false, false, out;
      }
      if esc {
        armed, armedAt, flush := true, now, [RAW_ESC];
        return true, false, [];
      }
      return false, false, [];
    }

    method FlushIfExpired(now: int) returns (out: seq<byte>)
      modifies this
      ensures (View(), out) == FlushStep(timeout, old(View()), now)
    {
      if !armed || armedAt == 0 {
        return [];
      }
      if now - armedAt <= timeout {
        return [];
      }
      out := flush;
      armed, flush, armedAt := false, [], 0;
    }
  }

  // ----- A session: keys and flush ticks until detach -----

  datatype Event = Press(key: Key, at: int) | Tick(at: int)

  datatype Session = Session(det: Detector, sent: seq<Output>, detached: bool)

  function Raws(bs: seq<byte>): seq<Output> {
    seq(|bs|, i requires 0 <= i < |bs| => Raw(bs[i]))
  }

  function EncodeKey(k: Key): seq<Output> {
    match k
    case Esc => [Raw(RAW_ESC)]
    case Other(code, encodable) => if encodable then [Encoded(code)] else []
  }

  /** The router: flushed bytes go out first, then the key unless the detector took it. */
  function SessionStep(timeout: int, s: Session, e: Event): Session {
    if s.detached then s
    else match e
      case Press(key, at) =>
        var (d, v) := FeedStep(timeout, s.det, key.Esc?, at);
        Session(d, s.sent + Raws(v.flush) + (if v.consumed then [] else EncodeKey(key)), v.detached)
      case Tick(at) =>
        var (d, out) := FlushStep(timeout, s.det, at);
        s.(det := d, sent := s.sent + Raws(out))
  }

  function RunSession(timeout: int, es: seq<Event>): Session {
    if es == [] then Session(IDLE, [], false)
    else SessionStep(timeout, RunSession(timeout, es[..|es| - 1]), es[|es| - 1])
  }

  /** What the child would receive without the handshake: Esc as its raw byte, other keys if they can be encoded. */
  function Received(es: seq<Event>): seq<Output> {
    if es == [] then []
    else
      var e := es[|es| - 1];
      Received(es[..|es| - 1])
      + if e.Tick? then []
        else if e.key.Esc? then [Raw(RAW_ESC)]
        else if e.key.encodable then [Encoded(e.key.code)]
        else []
  }

  /** The keys pressed, in order. */
  function Presses(es: seq<Event>): (ps: seq<Event>)
    ensures forall p :: p in ps ==> p.Press? && p in es
  {
    if es == [] then []
    else Presses(es[..|es| - 1]) + if es[|es| - 1].Press? then [es[|es| - 1]] else []
  }

  /** Key i and the key before it are Esc, at most timeout apart. */
  predicate HandshakeAt(timeout: int, ps: seq<Event>, i: int) {
    && 0 < i < |ps| && ps[i - 1].Press? && ps[i].Press?
    && ps[i - 1].key.Esc? && ps[i].key.Esc? && ps[i].at - ps[i - 1].at <= timeout
  }

  ghost predicate Handshake(timeout: int, ps: seq<Event>) {
    exists i :: HandshakeAt(timeout, ps, i)
  }

  predicate Ordered(es: seq<Event>) {
    && (forall i :: 0 <= i < |es| ==> 0 < es[i].at)
    && (forall i, j :: 0 <= i < j < |es| ==> es[i].at <= es[j].at)
  }

  datatype Last = NoKey | LastKey(esc: bool, at: int)

  function LastPress(es: seq<Event>): Last {
    var ps := Presses(es);
    if ps == [] then NoKey else var p := ps[|ps| - 1]; LastKey(p.key.Esc?, p.at)
  }

  /** The detector holds the last Esc pressed, unless that one was flushed because it is too old by now. */
  predicate Tracks(timeout: int, d: Detector, last: Last, now: int) {
    if d.armed then d.flush == [RAW_ESC] && d.armedAt != 0 && last == LastKey(true, d.armedAt)
    else d.flush == [] && (last.LastKey? && last.esc ==> now - last.at > timeout)
  }

  lemma PressStep(timeout: int, s: Session, key: Key, at: int, last: Last, now: int)
    requires !s.detached && Tracks(timeout, s.det, last, now) && 0 < at && now <= at
    ensures var t := SessionStep(timeout, s, Press(key, at));
            && (t.detached <==> last.LastKey? && last.esc && key.Esc? && at - last.at <= timeout)
            && (t.detached ==> t.sent == s.sent && s.det.flush == [RAW_ESC])
            && (!t.detached ==>
                  && Tracks(timeout, t.det, LastKey(key.Esc?, at), at)
                  && t.sent + Raws(t.det.flush) == s.sent + Raws(s.det.flush) + EncodeKey(key))
  {
    assert Raws([]) == [] && Raws([RAW_ESC]) == [Raw(RAW_ESC)];
  }

  lemma TickStep(timeout: int, s: Session, at: int, last: Last, now: int)
    requires !s.detached && Tracks(timeout, s.det, last, now) && now <= at
    ensures var t := SessionStep(timeout, s, Tick(at));
            && !t.detached && Tracks(timeout, t.det, last, at)
            && t.sent + Raws(t.det.flush) == s.sent + Raws(s.det.flush)
  {
    assert Raws([]) == [];
  }

  lemma OrderedPrefix(es: seq<Event>, n: nat)
    requires Ordered(es) && n <= |es|
    ensures Ordered(es[..n])
  {}

  function Now(es: seq<Event>): int {
    if es == [] then 0 else es[|es| - 1].at
  }

  lemma HandshakeExtends(timeout: int, ps: seq<Event>, p: Event)
    ensures Handshake(timeout, ps + [p]) <==> Handshake(timeout, ps) || HandshakeAt(timeout, ps + [p], |ps|)
  {
    forall i | 0 <= i < |ps|
      ensures HandshakeAt(timeout, ps + [p], i) == HandshakeAt(timeout, ps, i)
    {}
    if Handshake(timeout, ps) {
      var i :| HandshakeAt(timeout, ps, i);
      assert HandshakeAt(timeout, ps + [p], i);
    }
    if Handshake(timeout, ps + [p]) {
      var i :| HandshakeAt(timeout, ps + [p], i);
      assert i < |ps| ==> HandshakeAt(timeout, ps, i);
    }
  }

  lemma RunExtends(timeout: int, es: seq<Event>, e: Event)
    ensures RunSession(timeout, es + [e]) == SessionStep(timeout, RunSession(timeout, es), e)
    ensures RunSession(timeout, es).detached ==> RunSession(timeout, es + [e]).detached
    ensures Received(es + [e]) == Received(es) + (if e.Press? then EncodeKey(e.key) else [])
    ensures Now(es + [e]) == e.at
  {
    assert (es + [e])[..|es|] == es;
  }

  lemma TickExtends(es: seq<Event>, e: Event)
    requires e.Tick?
    ensures Presses(es + [e]) == Presses(es) && LastPress(es + [e]) == LastPress(es)
  {
    assert (es + [e])[..|es|] == es;
  }

  lemma LastExtends(timeout: int, es: seq<Event>, e: Event)
    requires e.Press?
    ensures Presses(es + [e]) == Presses(es) + [e]
    ensures LastPress(es + [e]) == LastKey(e.key.Esc?, e.at)
    ensures HandshakeAt(timeout, Presses(es) + [e], |Presses(es)|) <==>
            var last := LastPress(es);
            last.LastKey? && last.esc && e.key.Esc? && e.at - last.at <= timeout
  {
    assert (es + [e])[..|es|] == es;
    var ps := Presses(es);
    assert ps != [] ==> ps[|ps| - 1] in ps;
  }

  /**
   * Over any run with ordered times: the session has detached exactly when two neighbouring keys were
   * Esc at most timeout apart, and until then what was sent plus the pending Esc is what was received.
   */
  lemma {:induction false} SessionLaw(timeout: int, es: seq<Event>)
    requires Ordered(es)
    ensures RunSession(timeout, es).detached <==> Handshake(timeout, Presses(es))
    ensures var s := RunSession(timeout, es);
            !s.detached ==> Tracks(timeout, s.det, LastPress(es), Now(es)) && s.sent + Raws(s.det.flush) == Received(es)
    decreases |es|
  {
    if es == [] {
      assert Raws([]) == [];
    } else {
      var pre, e := es[..|es| - 1], es[|es| - 1];
      assert es == pre + [e];
      OrderedPrefix(es, |es| - 1);
      assert Now(pre) <= e.at && 0 < e.at;
      SessionLaw(timeout, pre);
      RunExtends(timeout, pre, e);
      hide *;
      if e.Press? {
        LastExtends(timeout, pre, e);
        HandshakeExtends(timeout, Presses(pre), e);
        if !RunSession(timeout, pre).detached {
          PressStep(timeout, RunSession(timeout, pre), e.key, e.at, LastPress(pre), Now(pre));
        }
      } else {
        TickExtends(pre, e);
        if !RunSession(timeout, pre).detached {
          TickStep(timeout, RunSession(timeout, pre), e.at, LastPress(pre), Now(pre));
        }
      }
    }
  }

  /** At the key that detaches, exactly the two Escs of the handshake are swallowed. */
  lemma DetachSwallowsHandshake(timeout: int, es: seq<Event>, e: Event)
    requires Ordered(es + [e])
    requires !RunSession(timeout, es).detached && RunSession(timeout, es + [e]).detached
    ensures e.Press? && e.key.Esc?
    ensures HandshakeAt(timeout, Presses(es + [e]), |Presses(es)|)
    ensures RunSession(timeout, es + [e]).sent + [Raw(RAW_ESC), Raw(RAW_ESC)] == Received(es + [e])
  {
    var all := es + [e];
    assert all[..|es|] == es && Now(es) <= e.at && 0 < e.at;
    OrderedPrefix(all, |es|);
    SessionLaw(timeout, es);
    RunExtends(timeout, es, e);
    assert Raws([RAW_ESC]) == [Raw(RAW_ESC)];
    hide SessionStep, RunSession, Received, Tracks, LastPress, HandshakeAt, Ordered, Presses, Raws;
    if e.Press? {
      PressStep(timeout, RunSession(timeout, es), e.key, e.at, LastPress(es), Now(es));
      LastExtends(timeout, es, e);
    } else {
      TickStep(timeout, RunSession(timeout, es), e.at, LastPress(es), Now(es));
    }
  }

  /** The last key pressed is an Esc, and at most timeout has passed since. */
  predicate EscWaits(timeout: int, es: seq<Event>) {
    var last := LastPress(es);
    last.LastKey? && last.esc && Now(es) - last.at <= timeout
  }

  /**
   * A tick settles the held Esc: if the last key was an Esc at most timeout ago, that Esc and nothing else
   * is held; otherwise everything received has been sent.
   */
  lemma TickSettles(timeout: int, es: seq<Event>)
    requires Ordered(es) && es != [] && es[|es| - 1].Tick?
    requires !RunSession(timeout, es).detached
    ensures EscWaits(timeout, es) ==> RunSession(timeout, es).sent + [Raw(RAW_ESC)] == Received(es)
    ensures !EscWaits(timeout, es) ==> RunSession(timeout, es).sent == Received(es)
  {
    var pre, e := es[..|es| - 1], es[|es| - 1];
    assert es == pre + [e];
    SessionLaw(timeout, es);
    RunExtends(timeout, pre, e);
    hide RunSession, Received, LastPress, Ordered, Presses;
    TickFlushes(timeout, RunSession(timeout, pre), e.at);
    Held(RunSession(timeout, es));
  }

  /** Behind a tick no Esc is held for longer than timeout. */
  lemma TickFlushes(timeout: int, s: Session, at: int)
    requires !s.detached
    ensures var d := SessionStep(timeout, s, Tick(at)).det; d.armed && d.armedAt != 0 ==> at - d.armedAt <= timeout
  {}

  lemma Held(s: Session)
    ensures s.det.flush == [RAW_ESC] ==> s.sent + Raws(s.det.flush) == s.sent + [Raw(RAW_ESC)]
    ensures s.det.flush == [] ==> s.sent + Raws(s.det.flush) == s.sent
  {
    assert Raws([]) == [] && Raws([RAW_ESC]) == [Raw(RAW_ESC)];
  }

  /** A key settles it as well: an Esc that does not detach is held, behind any other key nothing is. */
  lemma PressSettles(timeout: int, es: seq<Event>)
    requires Ordered(es) && es != [] && es[|es| - 1].Press?
    requires !RunSession(timeout, es).detached
    ensures es[|es| - 1].key.Esc? ==> RunSession(timeout, es).sent + [Raw(RAW_ESC)] == Received(es)
    ensures !es[|es| - 1].key.Esc? ==> RunSession(timeout, es).sent == Received(es)
  {
    var pre, e := es[..|es| - 1], es[|es| - 1];
    assert es == pre + [e];
    SessionLaw(timeout, es);
    RunExtends(timeout, pre, e);
    LastExtends(timeout, pre, e);
    hide RunSession, Received, LastPress, Ordered, Presses;
    PressArms(timeout, RunSession(timeout, pre), e.key, e.at);
    Held(RunSession(timeout, es));
  }

  lemma PressArms(timeout: int, s: Session, key: Key, at: int)
    requires !s.detached && !SessionStep(timeout, s, Press(key, at)).detached
    ensures key.Esc? ==> SessionStep(timeout, s, Press(key, at)).det.armed
  {}
}
