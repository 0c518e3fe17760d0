/** The restart policy of a supervised process (internal/process/restart.go). */
module RestartPolicy {

  datatype Action = None | Restart | GiveUp

  datatype Config = Config(mode: string, backoffs: seq<int>, maxAttempts: int, resetAfter: int)

  class Policy {
    const cfg: Config
    var attempts: nat
    var timerArmed: bool

    constructor (cfg: Config)
      ensures this.cfg == cfg && attempts == 0 && !timerArmed
    {
      this.cfg := cfg;
      attempts, timerArmed := 0, false;
    }

    method OnStart()
      modifies this
      ensures attempts == old(attempts) && timerArmed == (cfg.resetAfter > 0)
    {
      timerArmed := cfg.resetAfter > 0;
    }

    method OnExit(code: int) returns (action: Action, delay: int)
      modifies this
      ensures (attempts, action, delay) == Decide(cfg, old(attempts), code) && !timerArmed
    {
      timerArmed := false;
      if code == 0 {
        attempts := 0;
        return None, 0;
      }
      if cfg.mode != "on-failure" {
        return None, 0;
      }
      if attempts >= cfg.maxAttempts {
        return GiveUp, 0;
      }
      var idx := attempts as int;
      if idx >= |cfg.backoffs| {
        idx := |cfg.backoffs| - 1;
      }
      delay := 0;
      if idx >= 0 && |cfg.backoffs| > 0 {
        delay := cfg.backoffs[idx];
      }
      attempts := attempts + 1;
      return Restart, delay;
    }

    method ManualRestart() returns (action: Action, delay: int)
      modifies this
      ensures attempts == 0 && !timerArmed && action == Restart && delay == 0
    {
      timerArmed := false;
      attempts := 0;
      return Restart, 0;
    }

    method Stop()
      modifies this
      ensures attempts == old(attempts) && !timerArmed
    {
      timerArmed := false;
    }

    /** The callback of the reset timer; it can still run after the timer was stopped. */
    method TimerFires()
      modifies this
      ensures attempts == 0
    {
      attempts := 0;
    }
  }

  /** Entry i of the schedule, clamped to its last entry; an empty schedule never waits. */
  function Backoff(backoffs: seq<int>, i: nat): int {
    if backoffs == [] then 0 else if i < |backoffs| then backoffs[i] else backoffs[|backoffs| - 1]
  }

  function Decide(cfg: Config, attempts: nat, code: int): (nat, Action, int) {
    if code == 0 then (0, None, 0)
    else if cfg.mode != "on-failure" then (attempts, None, 0)
    else if attempts >= cfg.maxAttempts then (attempts, GiveUp, 0)
    else (attempts + 1, Restart, Backoff(cfg.backoffs, attempts))
  }

  // ----- Runs -----

  /** Calls and timer callbacks in any order; the timer is not constrained to fire only when armed. */
  datatype Event = Start | Exit(code: int) | Manual | Halt | TimerFired

  function Attempts(cfg: Config, es: seq<Event>): nat {
    if es == [] then 0
    else
      var a := Attempts(cfg, es[..|es| - 1]);
      match es[|es| - 1]
      case Exit(code) => Decide(cfg, a, code).0
      case Manual => 0
      case TimerFired => 0
      case _ => a
  }

  /** What the policy answers to an exit with the given code after the events es. */
  function Answer(cfg: Config, es: seq<Event>, code: int): (Action, int) {
    var d := Decide(cfg, Attempts(cfg, es), code);
    (d.1, d.2)
  }

  predicate Resets(e: Event) {
    e == Exit(0) || e.Manual? || e.TimerFired?
  }

  predicate AutoRestarts(cfg: Config, es: seq<Event>, i: nat)
    requires i < |es|
  {
    es[i].Exit? && Answer(cfg, es[..i], es[i].code).0 == Restart
  }

  function CountResets(es: seq<Event>): nat {
    if es == [] then 0 else CountResets(es[..|es| - 1]) + if Resets(es[|es| - 1]) then 1 else 0
  }

  function CountRestarts(cfg: Config, es: seq<Event>): nat {
    if es == [] then 0
    else CountRestarts(cfg, es[..|es| - 1]) + if AutoRestarts(cfg, es, |es| - 1) then 1 else 0
  }

  function RestartsSinceReset(cfg: Config, es: seq<Event>): nat {
    if es == [] || Resets(es[|es| - 1]) then 0
    else RestartsSinceReset(cfg, es[..|es| - 1]) + if AutoRestarts(cfg, es, |es| - 1) then 1 else 0
  }

  /** The counter is the number of automatic restarts since the last reset. */
  lemma {:induction false} CounterIsRestartsSinceReset(cfg: Config, es: seq<Event>)
    ensures Attempts(cfg, es) == RestartsSinceReset(cfg, es)
    decreases |es|
  {
    if es != [] {
      CounterIsRestartsSinceReset(cfg, es[..|es| - 1]);
    }
  }

  /**
   * After any run an exit gives up exactly when it is an on-failure crash after maxAttempts automatic
   * restarts since the last reset; it restarts exactly when it is an on-failure crash before that, after
   * the delay of that place in the schedule, of its last place when it has no more, at once without one.
   */
  lemma AnswerLaw(cfg: Config, es: seq<Event>, code: int)
    ensures var k := RestartsSinceReset(cfg, es);
            var (action, delay) := Answer(cfg, es, code);
            && (action == GiveUp <==> code != 0 && cfg.mode == "on-failure" && k >= cfg.maxAttempts)
            && (action == Restart <==> code != 0 && cfg.mode == "on-failure" && k < cfg.maxAttempts)
            && (action == Restart && k < |cfg.backoffs| ==> delay == cfg.backoffs[k])
            && (action == Restart && 0 < |cfg.backoffs| <= k ==> delay == cfg.backoffs[|cfg.backoffs| - 1])
            && (action != Restart || cfg.backoffs == [] ==> delay == 0)
  {
    CounterIsRestartsSinceReset(cfg, es);
  }

  /** Automatic restarts are bounded by maxAttempts per reset, over every run. */
  lemma {:induction false} RestartsAreBounded(cfg: Config, es: seq<Event>)
    requires cfg.maxAttempts >= 0
    ensures CountRestarts(cfg, es) <= cfg.maxAttempts * (1 + CountResets(es))
    ensures RestartsSinceReset(cfg, es) <= cfg.maxAttempts
  {
    RestartBudget(cfg, es);
    var m, n := cfg.maxAttempts, CountResets(es);
    assert m * (1 + n) == m + m * n;
  }

  lemma {:induction false} RestartBudget(cfg: Config, es: seq<Event>)
    requires cfg.maxAttempts >= 0
    ensures CountRestarts(cfg, es) <= cfg.maxAttempts * CountResets(es) + RestartsSinceReset(cfg, es)
    ensures RestartsSinceReset(cfg, es) <= cfg.maxAttempts
    decreases |es|
  {
    if es != [] {
      var pre, e := es[..|es| - 1], es[|es| - 1];
      RestartBudget(cfg, pre);
      if e.Exit? {
        AnswerLaw(cfg, pre, e.code);
      }
      var m, n := cfg.maxAttempts, CountResets(pre);
      assert m * (n + 1) == m * n + m;
    }
  }
}
