/** The circuit breaker as a protocol: arbitrarily many overlapping calls begin, end well, end
    badly or are abandoned, in any order, under a clock that never goes back. */
module Circuit {
  import opened Common

  datatype State = Closed | Open | HalfOpen

  datatype Config = Config(threshold: int, recovery: int, trials: int)

  datatype Runtime = Runtime(state: State, failures: nat, lastFailure: Option<int>, trialCalls: nat)

  const FRESH := Runtime(Closed, 0, None, 0)

  // ---- the atomic steps ----

  function Recover(cfg: Config, c: Runtime, now: int): Runtime
  {
    if c.state == Open && c.lastFailure.Some? && now - c.lastFailure.value >= cfg.recovery
    then c.(state := HalfOpen, trialCalls := 0) else c
  }

  predicate Admits(cfg: Config, c: Runtime, now: int)
  {
    var d := Recover(cfg, c, now);
    d.state == Closed || (d.state == HalfOpen && d.trialCalls < cfg.trials)
  }

  function Begun(cfg: Config, c: Runtime, now: int): Runtime
  {
    var d := Recover(cfg, c, now);
    if Admits(cfg, c, now) && d.state == HalfOpen then d.(trialCalls := d.trialCalls + 1) else d
  }

  function Succeeded(c: Runtime): Runtime
  {
    if c.state == HalfOpen then c.(state := Closed, failures := 0, trialCalls := 0) else c.(failures := 0)
  }

  function Failed(cfg: Config, c: Runtime, now: int): Runtime
  {
    var d := c.(lastFailure := Some(now));
    if c.state == HalfOpen then d.(state := Open, trialCalls := 0)
    else if c.failures + 1 >= cfg.threshold && c.state == Closed then d.(failures := c.failures + 1, state := Open)
    else d.(failures := c.failures + 1)
  }

  /** The engine's mutable record for one circuit. */
  class CircuitRuntime {
    const cfg: Config
    var state: State
    var failures: nat
    var lastFailure: Option<int>
    var trialCalls: nat

    ghost function Value(): Runtime
      reads this
    {
      Runtime(state, failures, lastFailure, trialCalls)
    }

    constructor (cfg: Config)
      ensures Value() == FRESH && this.cfg == cfg
    {
      this.cfg := cfg;
      state, failures, lastFailure, trialCalls := Closed, 0, None, 0;
    }

    method MaybeRecover(now: int)
      modifies this
      ensures Value() == Recover(cfg, old(Value()), now)
    {
      if state != Open || lastFailure.None? {
        return;
      }
      var elapsed := now - lastFailure.value;
      if elapsed >= cfg.recovery {
        state := HalfOpen;
        trialCalls := 0;
      }
    }

    method OnSuccess()
      modifies this
      ensures Value() == Succeeded(old(Value()))
    {
      if state == HalfOpen {
        state := Closed;
        failures := 0;
        trialCalls := 0;
      } else {
        failures := 0;
      }
    }

    method OnFailure(now: int)
      modifies this
      ensures Value() == Failed(cfg, old(Value()), now)
    {
      lastFailure := Some(now);
      if state == HalfOpen {
        state := Open;
        trialCalls := 0;
        return;
      }
      failures := failures + 1;
      if failures >= cfg.threshold && state == Closed {
        state := Open;
      }
    }

    /** Entry of a guarded call: let through, or rejected at once. */
    method Begin(now: int) returns (admitted: bool)
      modifies this
      ensures Value() == Begun(cfg, old(Value()), now) && admitted == Admits(cfg, old(Value()), now)
    {
      MaybeRecover(now);
      if state == Open {
        return false;
      }
      if state == HalfOpen {
        if trialCalls >= cfg.trials {
          return false;
        }
        trialCalls := trialCalls + 1;
      }
      return true;
    }
  }

  // ---- runs ----

  /** A call begins, ends well, raises, or is cancelled; or someone asks for the status. */
  datatype Event = Begin(now: int) | EndOk | EndFail(now: int) | Abandon | Poll(now: int)

  function Next(cfg: Config, c: Runtime, e: Event): Runtime
  {
    match e
    case Begin(now) => Begun(cfg, c, now)
    case EndOk => Succeeded(c)
    case EndFail(now) => Failed(cfg, c, now)
    case Abandon => c
    case Poll(now) => Recover(cfg, c, now)
  }

  predicate Admitted(cfg: Config, c: Runtime, e: Event)
  {
    e.Begin? && Admits(cfg, c, e.now)
  }

  function Run(cfg: Config, es: seq<Event>): Runtime
  {
    if es == [] then FRESH else Next(cfg, Run(cfg, es[..|es| - 1]), es[|es| - 1])
  }

  predicate Timed(e: Event)
  {
    e.Begin? || e.EndFail? || e.Poll?
  }

  ghost predicate Monotone(es: seq<Event>)
  {
    forall i, j :: 0 <= i < j < |es| && Timed(es[i]) && Timed(es[j]) ==> es[i].now <= es[j].now
  }

  // ---- the history, read off the events alone ----

  function LatestFailure(es: seq<Event>): Option<int>
  {
    if es == [] then None
    else if es[|es| - 1].EndFail? then Some(es[|es| - 1].now)
    else LatestFailure(es[..|es| - 1])
  }

  function FailuresSinceSuccess(es: seq<Event>): nat
  {
    if es == [] || es[|es| - 1].EndOk? then 0
    else FailuresSinceSuccess(es[..|es| - 1]) + if es[|es| - 1].EndFail? then 1 else 0
  }

  /** Calls admitted since the circuit last became half-open, or none if it is not half-open. */
  ghost function EpisodeTrials(cfg: Config, es: seq<Event>): nat
  {
    if es == [] || Run(cfg, es).state != HalfOpen then 0
    else
      var front, e := es[..|es| - 1], es[|es| - 1];
      EpisodeTrials(cfg, front) + if Admitted(cfg, Run(cfg, front), e) then 1 else 0
  }

  /** The record's last failure is the history's. */
  lemma {:induction false} LastFailureIsLatest(cfg: Config, es: seq<Event>)
    ensures Run(cfg, es).lastFailure == LatestFailure(es)
    ensures Run(cfg, es).state != Closed ==> LatestFailure(es).Some?
  {
    if es != [] {
      LastFailureIsLatest(cfg, es[..|es| - 1]);
    }
  }

  lemma MonotoneFront(es: seq<Event>)
    requires es != [] && Monotone(es)
    ensures Monotone(es[..|es| - 1])
  {
    var front := es[..|es| - 1];
    forall i, j | 0 <= i < j < |front| && Timed(front[i]) && Timed(front[j])
      ensures front[i].now <= front[j].now
    {
      assert front[i] == es[i] && front[j] == es[j];
    }
  }

  /** While half-open, some moment of the past was a full recovery period after the latest failure. */
  lemma {:induction false} HalfOpenSince(cfg: Config, es: seq<Event>)
    requires Monotone(es) && Run(cfg, es).state == HalfOpen
    ensures LatestFailure(es).Some?
    ensures exists i :: 0 <= i < |es| && Timed(es[i]) && es[i].now - LatestFailure(es).value >= cfg.recovery
  {
    LastFailureIsLatest(cfg, es);
    var n := |es| - 1;
    var front := es[..n];
    MonotoneFront(es);
    LastFailureIsLatest(cfg, front);
    if Run(cfg, front).state == HalfOpen {
      HalfOpenSince(cfg, front);
      var i :| 0 <= i < |front| && Timed(front[i]) && front[i].now - LatestFailure(front).value >= cfg.recovery;
      assert es[i] == front[i];
    } else {
      assert Timed(es[n]);
    }
  }

  /** No call is let through before a full recovery period has passed since the latest failure,
      unless the circuit is closed. */
  lemma {:induction false} AdmissionWaits(cfg: Config, es: seq<Event>, now: int)
    requires Monotone(es + [Begin(now)]) && Admitted(cfg, Run(cfg, es), Begin(now))
    ensures Run(cfg, es + [Begin(now)]).state != Open
    ensures Run(cfg, es).state != Closed ==>
              LatestFailure(es).Some? && now - LatestFailure(es).value >= cfg.recovery
  {
    var all := es + [Begin(now)];
    assert all[..|es|] == es;
    MonotoneFront(all);
    LastFailureIsLatest(cfg, es);
    if Run(cfg, es).state == HalfOpen {
      HalfOpenSince(cfg, es);
      var i :| 0 <= i < |es| && Timed(es[i]) && es[i].now - LatestFailure(es).value >= cfg.recovery;
      assert all[i] == es[i] && all[|es|] == Begin(now);
    }
  }

  /** A half-open episode admits no more calls than configured, whatever becomes of them. */
  lemma {:induction false} EpisodeBound(cfg: Config, es: seq<Event>)
    ensures Run(cfg, es).state == HalfOpen ==> EpisodeTrials(cfg, es) == Run(cfg, es).trialCalls
    ensures EpisodeTrials(cfg, es) <= if cfg.trials > 0 then cfg.trials else 0
  {
    if es != [] {
      EpisodeBound(cfg, es[..|es| - 1]);
    }
  }

  /** Calls that asked to be let in since the circuit last became half-open, the one that found it
      recovered included. */
  ghost function EpisodeBegins(cfg: Config, es: seq<Event>): nat
  {
    if es == [] || Run(cfg, es).state != HalfOpen then 0
    else EpisodeBegins(cfg, es[..|es| - 1]) + if es[|es| - 1].Begin? then 1 else 0
  }

  lemma {:induction false} TrialsAreFirstBegins(cfg: Config, es: seq<Event>)
    ensures Run(cfg, es).state == HalfOpen ==>
              var n := EpisodeBegins(cfg, es);
              Run(cfg, es).trialCalls == if n < cfg.trials then n else Max0(cfg.trials)
  {
    if es != [] {
      TrialsAreFirstBegins(cfg, es[..|es| - 1]);
    }
  }

  /** When a call is let in, read off the history: always while closed; while open, once a full
      recovery period has passed since the latest failure, if trials are configured at all; while
      half-open, as one of the first so many calls of the episode. */
  lemma AdmittedExactly(cfg: Config, es: seq<Event>, now: int)
    ensures Admitted(cfg, Run(cfg, es), Begin(now)) <==>
            match Run(cfg, es).state
            case Closed => true
            case Open =>
              && LatestFailure(es).Some? && now - LatestFailure(es).value >= cfg.recovery && cfg.trials >= 1
            case HalfOpen => EpisodeBegins(cfg, es) < cfg.trials
  {
    LastFailureIsLatest(cfg, es);
    TrialsAreFirstBegins(cfg, es);
  }

  /** Every transition of the circuit, read off the history: it opens on the failure that completes
      a streak, or on any failure while half-open; it becomes half-open on a call, or a question,
      that comes a full recovery period after the latest failure; it closes on a success while
      half-open; nothing else changes its state. */
  lemma TransitionsExactly(cfg: Config, es: seq<Event>, e: Event)
    ensures Run(cfg, es + [e]).state ==
            match Run(cfg, es).state
            case Closed => if e.EndFail? && FailuresSinceSuccess(es) + 1 >= cfg.threshold then Open else Closed
            case Open =>
              if (e.Begin? || e.Poll?) && LatestFailure(es).Some? && e.now - LatestFailure(es).value >= cfg.recovery
              then HalfOpen else Open
            case HalfOpen => if e.EndOk? then Closed else if e.EndFail? then Open else HalfOpen
  {
    assert (es + [e])[..|es|] == es;
    LastFailureIsLatest(cfg, es);
    ClosedCount(cfg, es);
  }

  /** While closed, the count is the number of failures since the last success, below the threshold. */
  lemma {:induction false} ClosedCount(cfg: Config, es: seq<Event>)
    ensures Run(cfg, es).state == Closed ==> Run(cfg, es).failures == FailuresSinceSuccess(es)
    ensures Run(cfg, es).state == Closed && cfg.threshold >= 1 ==> Run(cfg, es).failures < cfg.threshold
  {
    if es != [] {
      ClosedCount(cfg, es[..|es| - 1]);
    }
  }

  /** A failure opens a closed circuit exactly when it completes a streak of `threshold` failures. */
  lemma {:induction false} OpensAtThreshold(cfg: Config, es: seq<Event>, now: int)
    requires Run(cfg, es).state == Closed
    ensures Run(cfg, es + [EndFail(now)]).state == Open <==> FailuresSinceSuccess(es + [EndFail(now)]) >= cfg.threshold
  {
    assert (es + [EndFail(now)])[..|es|] == es;
    ClosedCount(cfg, es);
  }

  /** A rejected call leaves the failure count and the last failure alone. */
  lemma {:induction false} RejectionIsNeutral(cfg: Config, es: seq<Event>, now: int)
    requires !Admitted(cfg, Run(cfg, es), Begin(now))
    ensures var c, d := Run(cfg, es), Run(cfg, es + [Begin(now)]);
            d.failures == c.failures && d.lastFailure == c.lastFailure && d.state != Closed
  {
    assert (es + [Begin(now)])[..|es|] == es;
  }

  // ---- counting admissions and recoveries ----

  /** Calls let through. */
  ghost function Admissions(cfg: Config, es: seq<Event>): nat
  {
    if es == [] then 0
    else
      var front, e := es[..|es| - 1], es[|es| - 1];
      Admissions(cfg, front) + if Admitted(cfg, Run(cfg, front), e) then 1 else 0
  }

  /** The event finds the circuit open, a full recovery period after the latest failure. */
  ghost predicate Recovers(cfg: Config, c: Runtime, e: Event)
  {
    (e.Begin? || e.Poll?) && c.state == Open && Recover(cfg, c, e.now).state == HalfOpen
  }

  ghost function Recoveries(cfg: Config, es: seq<Event>): nat
  {
    if es == [] then 0
    else
      var front, e := es[..|es| - 1], es[|es| - 1];
      Recoveries(cfg, front) + if Recovers(cfg, Run(cfg, front), e) then 1 else 0
  }

  /** The times of the timed events, in order. */
  ghost function Times(es: seq<Event>): seq<int>
  {
    if es == [] then []
    else Times(es[..|es| - 1]) + if Timed(es[|es| - 1]) then [es[|es| - 1].now] else []
  }

  /** Every call comes less than a recovery period after the latest failure before it. */
  ghost predicate AlwaysSoon(cfg: Config, es: seq<Event>)
  {
    forall i :: 0 <= i < |es| && (es[i].Begin? || es[i].Poll?) && LatestFailure(es[..i]).Some? ==>
      es[i].now - LatestFailure(es[..i]).value < cfg.recovery
  }

  lemma {:induction false} NoRecovery(cfg: Config, es: seq<Event>)
    requires AlwaysSoon(cfg, es)
    ensures Recoveries(cfg, es) == 0
  {
    if es != [] {
      var n := |es| - 1;
      assert AlwaysSoon(cfg, es[..n]) by {
        assert forall i :: 0 <= i < n ==> es[..n][..i] == es[..i] && es[..n][i] == es[i];
      }
      NoRecovery(cfg, es[..n]);
      LastFailureIsLatest(cfg, es[..n]);
    }
  }

  lemma {:induction false} LatestFailureTime(es: seq<Event>)
    ensures LatestFailure(es).Some? ==> LatestFailure(es).value in Times(es)
  {
    if es != [] {
      LatestFailureTime(es[..|es| - 1]);
    }
  }

  /** A stretch of time shorter than the recovery period sees no recovery. */
  lemma {:induction false} ShortRunNoRecovery(cfg: Config, es: seq<Event>)
    requires forall i, j :: 0 <= i < j < |Times(es)| ==> Times(es)[j] - Times(es)[i] < cfg.recovery
    ensures Recoveries(cfg, es) == 0
  {
    if es != [] {
      var front, e := es[..|es| - 1], es[|es| - 1];
      var ts, ts' := Times(front), Times(es);
      assert forall i :: 0 <= i < |ts| ==> ts'[i] == ts[i];
      ShortRunNoRecovery(cfg, front);
      LastFailureIsLatest(cfg, front);
      LatestFailureTime(front);
      if LatestFailure(front).Some? && Timed(e) {
        var q :| 0 <= q < |ts| && ts[q] == LatestFailure(front).value;
        assert ts'[|ts|] - ts'[q] < cfg.recovery;
      }
    }
  }

  // ---- calls in flight ----

  predicate Leaves(e: Event)
  {
    e.EndOk? || e.EndFail? || e.Abandon?
  }

  /** Calls admitted that have neither ended nor been abandoned. */
  ghost function InFlight(cfg: Config, es: seq<Event>): int
  {
    if es == [] then 0
    else
      var front, e := es[..|es| - 1], es[|es| - 1];
      InFlight(cfg, front) + if Admitted(cfg, Run(cfg, front), e) then 1 else if Leaves(e) then -1 else 0
  }

  /** A run in which only calls in flight end or are abandoned. */
  ghost predicate Real(cfg: Config, es: seq<Event>)
  {
    es != [] ==>
      var front, e := es[..|es| - 1], es[|es| - 1];
      Real(cfg, front) && (Leaves(e) ==> InFlight(cfg, front) > 0)
  }

  /** Half-open with all trial calls used up. */
  ghost predicate Spent(cfg: Config, c: Runtime)
  {
    c.state == HalfOpen && c.trialCalls >= cfg.trials
  }

  /** With the trials used up and no call in flight, no real continuation changes anything. */
  lemma {:induction false} JamStays(cfg: Config, es: seq<Event>, more: seq<Event>)
    requires Spent(cfg, Run(cfg, es)) && InFlight(cfg, es) == 0 && Real(cfg, es + more)
    ensures Run(cfg, es + more) == Run(cfg, es) && InFlight(cfg, es + more) == 0
    decreases |more|
  {
    if more == [] {
      assert es + more == es;
    } else {
      var n := |more| - 1;
      assert (es + more)[..|es| + n] == es + more[..n];
      JamStays(cfg, es, more[..n]);
    }
  }

  /** With the trials used up, the circuit is jammed for good, rejecting every later call however
      long one waits, exactly when no call is in flight: one that is may still end well. */
  lemma JammedExactly(cfg: Config, es: seq<Event>)
    requires Real(cfg, es) && Spent(cfg, Run(cfg, es))
    ensures (forall more, now :: Real(cfg, es + more) ==> !Admitted(cfg, Run(cfg, es + more), Begin(now))) <==>
            InFlight(cfg, es) == 0
  {
    InFlightNeverNegative(cfg, es);
    if InFlight(cfg, es) == 0 {
      forall more, now | Real(cfg, es + more)
        ensures !Admitted(cfg, Run(cfg, es + more), Begin(now))
      {
        JamStays(cfg, es, more);
      }
    } else {
      assert (es + [EndOk])[..|es|] == es;
      assert Real(cfg, es + [EndOk]) && Admitted(cfg, Run(cfg, es + [EndOk]), Begin(0));
    }
  }

  lemma {:induction false} InFlightNeverNegative(cfg: Config, es: seq<Event>)
    requires Real(cfg, es)
    ensures InFlight(cfg, es) >= 0
  {
    if es != [] {
      InFlightNeverNegative(cfg, es[..|es| - 1]);
    }
  }

  // ---- every configuration can jam ----

  /** k calls that fail at time 0. */
  ghost function Streak(k: nat): seq<Event>
  {
    if k == 0 then [] else Streak(k - 1) + [Begin(0), EndFail(0)]
  }

  /** k calls that are cancelled at time t. */
  ghost function Cancelled(t: int, k: nat): seq<Event>
  {
    if k == 0 then [] else Cancelled(t, k - 1) + [Begin(t), Abandon]
  }

  lemma Pair(cfg: Config, es: seq<Event>, a: Event, b: Event)
    ensures Run(cfg, es + [a, b]) == Next(cfg, Next(cfg, Run(cfg, es), a), b)
    ensures Real(cfg, es) && Admitted(cfg, Run(cfg, es), a) && Leaves(b) && InFlight(cfg, es) == 0 ==>
              Real(cfg, es + [a, b]) && InFlight(cfg, es + [a, b]) == 0
  {
    assert (es + [a, b])[..|es| + 1] == es + [a];
    assert (es + [a])[..|es|] == es;
  }

  lemma {:induction false} StreakRuns(cfg: Config, k: nat)
    requires k <= 1 || k <= cfg.threshold
    ensures var c := Run(cfg, Streak(k));
            && Real(cfg, Streak(k)) && InFlight(cfg, Streak(k)) == 0
            && (k < 1 || k < cfg.threshold ==> c.state == Closed && c.failures == k)
            && (k >= 1 && k >= cfg.threshold ==> c.state == Open && c.lastFailure == Some(0))
    ensures forall e :: e in Streak(k) && Timed(e) ==> e.now == 0
  {
    if k > 0 {
      StreakRuns(cfg, k - 1);
      Pair(cfg, Streak(k - 1), Begin(0), EndFail(0));
    }
  }

  lemma {:induction false} CancelledRuns(cfg: Config, es: seq<Event>, t: int, k: nat)
    requires Real(cfg, es) && InFlight(cfg, es) == 0 && Run(cfg, es).state == HalfOpen && Run(cfg, es).trialCalls == 0
    requires k <= Max0(cfg.trials)
    ensures var all := es + Cancelled(t, k);
            Real(cfg, all) && InFlight(cfg, all) == 0 && Run(cfg, all).state == HalfOpen
                && Run(cfg, all).trialCalls == k
    ensures forall e :: e in Cancelled(t, k) && Timed(e) ==> e.now == t
  {
    hide Run, Real, InFlight;
    if k == 0 {
      assert es + Cancelled(t, 0) == es;
    } else {
      CancelledRuns(cfg, es, t, k - 1);
      Pair(cfg, es + Cancelled(t, k - 1), Begin(t), Abandon);
      assert es + Cancelled(t, k) == es + Cancelled(t, k - 1) + [Begin(t), Abandon];
    }
  }

  lemma SpentWhen(cfg: Config, c: Runtime)
    ensures Spent(cfg, c) <==> c.state == HalfOpen && c.trialCalls >= cfg.trials
  {
  }

  lemma HalfOpened(cfg: Config, es: seq<Event>, t: int)
    requires Real(cfg, es) && InFlight(cfg, es) == 0 && t >= cfg.recovery
    requires Run(cfg, es).state == Open && Run(cfg, es).lastFailure == Some(0)
    ensures var open := es + [Poll(t)];
            Real(cfg, open) && InFlight(cfg, open) == 0 && Run(cfg, open).state == HalfOpen
                && Run(cfg, open).trialCalls == 0
  {
    assert (es + [Poll(t)])[..|es|] == es;
  }

  /** Under every configuration a real run on a monotone clock jams: a streak of failures, the
      wait, and trial calls that are all cancelled. */
  lemma JamReachable(cfg: Config) returns (es: seq<Event>)
    ensures Monotone(es) && Real(cfg, es) && Spent(cfg, Run(cfg, es)) && InFlight(cfg, es) == 0
  {
    var k, t := if cfg.threshold > 1 then cfg.threshold else 1, Max0(cfg.recovery);
    assert t >= cfg.recovery && Max0(cfg.trials) >= cfg.trials;
    hide *;
    StreakRuns(cfg, k);
    var open := Streak(k) + [Poll(t)];
    HalfOpened(cfg, Streak(k), t);
    CancelledRuns(cfg, open, t, Max0(cfg.trials));
    es := open + Cancelled(t, Max0(cfg.trials));
    SpentWhen(cfg, Run(cfg, es));
    MonotoneTwoTimes(Streak(k), 0, Cancelled(t, Max0(cfg.trials)), t);
  }

  lemma MonotoneTwoTimes(a: seq<Event>, s: int, b: seq<Event>, t: int)
    requires s <= t
    requires (forall e :: e in a && Timed(e) ==> e.now == s) && (forall e :: e in b && Timed(e) ==> e.now == t)
    ensures Monotone(a + [Poll(t)] + b)
  {
    var es := a + [Poll(t)] + b;
    forall i | 0 <= i < |es| && Timed(es[i])
      ensures es[i].now == if i < |a| then s else t
    {
      assert es[i] == Poll(t) || es[i] in if i < |a| then a else b;
    }
  }

}
