/** What a history of events leaves in the store, told from the history alone. */
module RuntimeLaws {
  import opened Runtimes

  predicate SetsState(ev: Event) {
    ev.Started? || ev.StateChanged?
  }

  predicate SetsPid(ev: Event) {
    ev.Started? || ev.Exited?
  }

  predicate IsStart(ev: Event) {
    ev.Started?
  }

  predicate IsExit(ev: Event) {
    ev.Exited?
  }

  predicate IsRestart(ev: Event) {
    ev.Restarting?
  }

  /** Any of those makes the project known. */
  predicate Names(ev: Event) {
    SetsState(ev) || SetsPid(ev) || IsRestart(ev)
  }

  /** The last event of a project that sets something is number k of the history. */
  predicate LastOf(events: seq<Event>, id: string, sets: Event -> bool, k: int) {
    && 0 <= k < |events| && events[k].id == id && sets(events[k])
    && forall j :: k < j < |events| && events[j].id == id ==> !sets(events[j])
  }

  predicate NoneOf(events: seq<Event>, id: string, sets: Event -> bool) {
    forall j :: 0 <= j < |events| && events[j].id == id ==> !sets(events[j])
  }

  // What the store says of a project; one it does not know is idle.

  function StateOf(m: Store, id: string): string {
    if id in m then m[id].state else "idle"
  }

  function PidOf(m: Store, id: string): int {
    if id in m then m[id].pid else 0
  }

  function StartOf(m: Store, id: string): int {
    if id in m then m[id].startedAt else 0
  }

  function ExitOf(m: Store, id: string): (int, string) {
    if id in m then (m[id].exitCode, m[id].exitSignal) else (0, "")
  }

  function AttemptsOf(m: Store, id: string): int {
    if id in m then m[id].restartAttempts else 0
  }

  lemma LastSnoc(events: seq<Event>, ev: Event, id: string, sets: Event -> bool, k: int)
    ensures LastOf(events + [ev], id, sets, k) <==>
              if ev.id == id && sets(ev) then k == |events| else LastOf(events, id, sets, k)
    ensures NoneOf(events + [ev], id, sets) <==> NoneOf(events, id, sets) && !(ev.id == id && sets(ev))
  {
    var all := events + [ev];
    assert all[|events|] == ev && forall j :: 0 <= j < |events| ==> all[j] == events[j];
  }

  // What an event sets.

  function NewState(ev: Event): string {
    if ev.StateChanged? then ev.state else "running"
  }

  function NewPid(ev: Event): int {
    if ev.Started? then ev.pid else 0
  }

  function NewStart(ev: Event): int {
    if ev.Started? then ev.at else 0
  }

  function NewExit(ev: Event): (int, string) {
    if ev.Exited? then (ev.code, ev.signal) else (0, "")
  }

  function NewAttempts(ev: Event): int {
    if ev.Restarting? then ev.attempt else 0
  }

  /** The value now is the one the last event that sets it gives, or as it was when none does. */
  ghost predicate Tells<T>(events: seq<Event>, id: string, sets: Event -> bool, value: Event -> T, was: T, now: T) {
    && (forall k :: LastOf(events, id, sets, k) ==> now == value(events[k]))
    && (NoneOf(events, id, sets) ==> now == was)
  }

  lemma TellsSnoc<T>(events: seq<Event>, ev: Event, id: string, sets: Event -> bool, value: Event -> T, was: T, now: T)
    requires Tells(events, id, sets, value, was, now)
    ensures Tells(events + [ev], id, sets, value, was, if ev.id == id && sets(ev) then value(ev) else now)
  {
    var all := events + [ev];
    forall k | LastOf(all, id, sets, k)
      ensures (if ev.id == id && sets(ev) then value(ev) else now) == value(all[k])
    {
      LastSnoc(events, ev, id, sets, k);
    }
    LastSnoc(events, ev, id, sets, 0);
  }

  /** What m says of a project and the events of a history tell make up what r says of it. */
  ghost predicate TellsHistory(m: Store, events: seq<Event>, r: Store, id: string) {
    && Tells(events, id, SetsState, NewState, StateOf(m, id), StateOf(r, id))
    && Tells(events, id, SetsPid, NewPid, PidOf(m, id), PidOf(r, id))
    && Tells(events, id, IsStart, NewStart, StartOf(m, id), StartOf(r, id))
    && Tells(events, id, IsExit, NewExit, ExitOf(m, id), ExitOf(r, id))
    && Tells(events, id, IsRestart, NewAttempts, AttemptsOf(m, id), AttemptsOf(r, id))
    && (id in r <==> id in m || !NoneOf(events, id, Names))
  }

  lemma AppliedSets(m: Store, ev: Event, id: string)
    ensures var r := Applied(m, ev);
            && StateOf(r, id) == (if ev.id == id && SetsState(ev) then NewState(ev) else StateOf(m, id))
            && PidOf(r, id) == (if ev.id == id && SetsPid(ev) then NewPid(ev) else PidOf(m, id))
            && StartOf(r, id) == (if ev.id == id && IsStart(ev) then NewStart(ev) else StartOf(m, id))
            && ExitOf(r, id) == (if ev.id == id && IsExit(ev) then NewExit(ev) else ExitOf(m, id))
            && AttemptsOf(r, id) == (if ev.id == id && IsRestart(ev) then NewAttempts(ev) else AttemptsOf(m, id))
            && (id in r <==> id in m || (ev.id == id && Names(ev)))
  {}

  lemma NothingYet<T>(id: string, sets: Event -> bool, value: Event -> T, was: T)
    ensures Tells([], id, sets, value, was, was) && NoneOf([], id, sets)
  {}

  /**
   * After any events a project has the PID of its last start, or 0 when an exit came after it, and the state
   * of its last start or state change; the times, exits and restart attempts are those last told as well.
   * What no event of the project set is as before, and events of other projects set nothing.
   */
  lemma {:induction false} HistoryDecides(m: Store, events: seq<Event>, id: string)
    ensures TellsHistory(m, events, Replay(m, events), id)
    decreases |events|
  {
    if events == [] {
      NothingYet(id, SetsState, NewState, StateOf(m, id));
      NothingYet(id, SetsPid, NewPid, PidOf(m, id));
      NothingYet(id, IsStart, NewStart, StartOf(m, id));
      NothingYet(id, IsExit, NewExit, ExitOf(m, id));
      NothingYet(id, IsRestart, NewAttempts, AttemptsOf(m, id));
      NothingYet(id, Names, NewPid, 0);
      hide Tells, LastOf, NoneOf;
    } else {
      var init, ev := events[..|events| - 1], events[|events| - 1];
      HistoryDecides(m, init, id);
      assert events == init + [ev];
      ReplaySnoc(m, init, ev);
      hide *;
      TellsMore(m, init, ev, Replay(m, init), id);
    }
  }

  lemma TellsMore(m: Store, events: seq<Event>, ev: Event, r: Store, id: string)
    requires TellsHistory(m, events, r, id)
    ensures TellsHistory(m, events + [ev], Applied(r, ev), id)
  {
    AppliedSets(r, ev, id);
    hide Applied, LastOf, NoneOf, Tells, StateOf, PidOf, StartOf, ExitOf, AttemptsOf;
    hide SetsState, SetsPid, IsStart, IsExit, IsRestart, Names, NewState, NewPid, NewStart, NewExit, NewAttempts;
    TellsSnoc(events, ev, id, SetsState, NewState, StateOf(m, id), StateOf(r, id));
    TellsSnoc(events, ev, id, SetsPid, NewPid, PidOf(m, id), PidOf(r, id));
    TellsSnoc(events, ev, id, IsStart, NewStart, StartOf(m, id), StartOf(r, id));
    TellsSnoc(events, ev, id, IsExit, NewExit, ExitOf(m, id), ExitOf(r, id));
    TellsSnoc(events, ev, id, IsRestart, NewAttempts, AttemptsOf(m, id), AttemptsOf(r, id));
    LastSnoc(events, ev, id, Names, 0);
  }
}
