/** The tool gateway: an inner retry loop over HTTP posts, inside a circuit breaker, inside an
    outer retry with exponential backoff. Posts and clock readings are oracles. */
module Gateway {
  import opened Common
  import opened Circuit

  // ---- the retry policy ----

  datatype Policy = Policy(maxAttempts: int, base: int, cap: int, retryable: set<string>)

  const DEFAULT_POLICY := Policy(3, 100, 10_000, {})

  function BackoffFor(p: Policy, attempt: int): int
  {
    var k := if attempt < 1 then 1 else attempt;
    var raw := p.base * Pow2(k - 1);
    if raw < p.cap then raw else p.cap
  }

  /** Backoff never shrinks from one attempt to the next, and never passes the cap. */
  lemma {:induction false} BackoffMonotone(p: Policy, i: int, j: int)
    requires p.base >= 0 && i <= j
    ensures BackoffFor(p, i) <= BackoffFor(p, j) <= p.cap
    decreases j - i
  {
    if i < j {
      BackoffMonotone(p, i, j - 1);
      if j > 1 {
        assert Pow2(j - 1) == 2 * Pow2(j - 2);
        assert p.base * Pow2(j - 1) == 2 * (p.base * Pow2(j - 2));
        assert p.base * Pow2(j - 2) >= 0;
      }
    }
  }

  /** Backoff starts at the base and doubles from one attempt to the next until the cap. */
  lemma BackoffDoubles(p: Policy, k: nat)
    requires p.base >= 0 && p.cap >= 0 && k >= 1
    ensures BackoffFor(p, 1) == (if p.base < p.cap then p.base else p.cap)
    ensures BackoffFor(p, k + 1) == (if 2 * BackoffFor(p, k) < p.cap then 2 * BackoffFor(p, k) else p.cap)
  {
    assert Pow2(0) == 1;
    var raw := p.base * Pow2(k - 1);
    assert raw >= 0;
    assert p.base * Pow2(k) == 2 * raw;
  }

  function TotalBackoff(p: Policy, attempts: nat): int
  {
    if attempts == 0 then 0 else TotalBackoff(p, attempts - 1) + BackoffFor(p, attempts)
  }

  /** The default policy waits 100 and then 200 milliseconds. */
  lemma DefaultBackoff()
    ensures BackoffFor(DEFAULT_POLICY, 1) == 100 && TotalBackoff(DEFAULT_POLICY, 2) == 300
  {
    assert Pow2(0) == 1 && Pow2(1) == 2;
    assert TotalBackoff(DEFAULT_POLICY, 1) == 100;
  }

  datatype Fault = GatewayError | CircuitOpen

  /** Class names of a fault and its bases. */
  function Names(f: Fault): set<string>
  {
    {"RuntimeError", "Exception", "BaseException", "object"}
    + if f.GatewayError? then {"McpGatewayError"} else {"CircuitBreakerOpenError"}
  }

  predicate IsRetryable(p: Policy, f: Fault)
  {
    p.retryable == {} || Names(f) * p.retryable != {}
  }

  /** A fault is retried if the allow-list is empty, or names its class or one of its bases. */
  lemma RetryableExactly(p: Policy, f: Fault)
    ensures IsRetryable(p, f) <==> p.retryable == {} || exists name :: name in p.retryable && name in Names(f)
  {
    hide Names;
    if name :| name in p.retryable && name in Names(f) {
      assert name in Names(f) * p.retryable;
    }
    if name :| name in Names(f) * p.retryable {
      assert name in p.retryable && name in Names(f);
    }
  }

  // ---- the gateway ----

  datatype PostResult = Reply(result: string) | BadReply | Timeout | TransportError

  datatype Result = Ok(result: string) | Raised(fault: Fault)

  /** What the accounting promises while every post fails: closed, the admitted calls are the
      counted failures; otherwise they number at most the threshold plus one trial per recovery. */
  ghost predicate Accounted(cfg: Config, c: Runtime, admitted: nat, recoveries: nat)
  {
    && (c.state == Closed ==> admitted == c.failures && recoveries == 0 && (admitted == 0 || admitted < cfg.threshold))
    && (c.state == Open ==> admitted <= Limit(cfg) + recoveries)
    && (c.state == HalfOpen ==> recoveries >= 1 && admitted <= Limit(cfg) + recoveries - 1)
  }

  ghost function Limit(cfg: Config): nat
  {
    if cfg.threshold > 1 then cfg.threshold else 1
  }

  /** A call that is rejected, or admitted and fails, keeps the accounts. */
  lemma AccountedStep(cfg: Config, es: seq<Event>, now: int, later: int)
    requires Accounted(cfg, Run(cfg, es), Admissions(cfg, es), Recoveries(cfg, es))
    ensures var es' := es + [Begin(now)] + if Admits(cfg, Run(cfg, es), now) then [EndFail(later)] else [];
            Accounted(cfg, Run(cfg, es'), Admissions(cfg, es'), Recoveries(cfg, es'))
  {
    var one := es + [Begin(now)];
    assert one[..|es|] == es;
    if Admits(cfg, Run(cfg, es), now) {
      assert (one + [EndFail(later)])[..|one|] == one;
    } else {
      assert one + [] == one;
    }
  }

  /** What a guarded call adds to the circuit's history. */
  ghost function CallEvents(began: int, ended: int, r: Result): seq<Event>
  {
    [Begin(began)] +
    match r
    case Ok(_) => [EndOk]
    case Raised(CircuitOpen) => []
    case Raised(GatewayError) => [EndFail(ended)]
  }

  /** A guarded call's effect on the state, the admissions and the times of a history. */
  lemma CallHistory(cfg: Config, es: seq<Event>, began: int, ended: int, r: Result)
    ensures var es' := es + CallEvents(began, ended, r);
            && Run(cfg, es') == (match r
                                 case Ok(_) => Succeeded(Begun(cfg, Run(cfg, es), began))
                                 case Raised(CircuitOpen) => Begun(cfg, Run(cfg, es), began)
                                 case Raised(GatewayError) => Failed(cfg, Begun(cfg, Run(cfg, es), began), ended))
            && Admissions(cfg, es') == Admissions(cfg, es) + (if Admits(cfg, Run(cfg, es), began) then 1 else 0)
            && Times(es') == Times(es) + [began] + if r == Raised(GatewayError) then [ended] else []
  {
    var one, es' := es + [Begin(began)], es + CallEvents(began, ended, r);
    assert one[..|es|] == es;
    assert Times(one) == Times(es) + [began];
    if r == Raised(CircuitOpen) {
      assert es' == one;
    } else {
      assert es' == one + [es'[|one|]];
      assert es'[..|one|] == one;
    }
  }

  lemma FailedEvents(es: seq<Event>, began: int, ended: int, r: Result)
    requires r.Raised?
    ensures es + CallEvents(began, ended, r) ==
            es + [Begin(began)] + if r == Raised(CircuitOpen) then [] else [EndFail(ended)]
  {
  }

  /** A guarded call that fails keeps the accounts, posts included. */
  lemma BalancedStep(cfg: Config, es: seq<Event>, began: int, ended: int, r: Result, posts: nat, more: nat, per: nat)
    requires Accounted(cfg, Run(cfg, es), Admissions(cfg, es), Recoveries(cfg, es))
               && posts <= Admissions(cfg, es) * per
    requires r.Raised? && (r == Raised(CircuitOpen) <==> !Admits(cfg, Run(cfg, es), began))
    requires if r == Raised(CircuitOpen) then more == 0 else more <= per
    ensures var es' := es + CallEvents(began, ended, r);
            && Accounted(cfg, Run(cfg, es'), Admissions(cfg, es'), Recoveries(cfg, es'))
            && posts + more <= Admissions(cfg, es') * per
  {
    hide Accounted, Run, Recoveries, Admissions, Admits, CallEvents, Times, Begun, Succeeded, Failed;
    AccountedStep(cfg, es, began, ended);
    CallHistory(cfg, es, began, ended, r);
    FailedEvents(es, began, ended, r);
    var n := Admissions(cfg, es);
    assert (n + 1) * per == n * per + per;
  }

  /** Calls that asked to be let in. */
  ghost function Begins(es: seq<Event>): nat
  {
    if es == [] then 0 else Begins(es[..|es| - 1]) + if es[|es| - 1].Begin? then 1 else 0
  }

  lemma BeginsOnce(es: seq<Event>, began: int, ended: int, r: Result)
    ensures Begins(es + CallEvents(began, ended, r)) == Begins(es) + 1
  {
    var one, all := es + [Begin(began)], es + CallEvents(began, ended, r);
    assert one[..|es|] == es;
    if r == Raised(CircuitOpen) {
      assert all == one;
    } else {
      assert all[..|one|] == one;
    }
  }

  /** How far the gateway has come: what its circuit has seen, posts made, clock readings taken. */
  datatype Stage = Stage(trace: seq<Event>, posts: nat, readings: nat)

  class ToolGateway {
    const maxRetries: int
    const post: nat -> PostResult
    const clock: nat -> int
    const circuit: CircuitRuntime
    var posts: nat                  // HTTP posts made
    var readings: nat               // clock readings taken
    var slept: int                  // milliseconds of backoff awaited by the outer retry
    ghost var trace: seq<Event>     // what the circuit has seen

    /** The circuit's state is that of its history, whose times are the clock readings in order. */
    ghost predicate Valid()
      reads this, circuit
    {
      && circuit.Value() == Run(circuit.cfg, trace)
      && |Times(trace)| == readings && forall i :: 0 <= i < readings ==> Times(trace)[i] == clock(i)
    }

    /** The accounts of a server that never answers. */
    ghost predicate Balanced()
      reads this, circuit
    {
      && Accounted(circuit.cfg, circuit.Value(), Admissions(circuit.cfg, trace), Recoveries(circuit.cfg, trace))
      && posts <= Admissions(circuit.cfg, trace) * Max0(maxRetries + 1)
    }

    ghost predicate NeverAnswers()
    {
      forall n :: !post(n).Reply?
    }

    ghost function Now(): Stage
      reads this
    {
      Stage(trace, posts, readings)
    }

    /** One request makes posts number `from` to `to`: up to the first that is no transport error,
        but no more than allowed. */
    ghost predicate Requested(from: nat, to: nat)
    {
      && from <= to <= from + Max0(maxRetries + 1)
      && (forall n :: from <= n < to - 1 ==> post(n).TransportError?)
      && (to < from + Max0(maxRetries + 1) ==> to > from && !post(to - 1).TransportError?)
    }

    ghost function Answer(from: nat, to: nat): Result
    {
      if to > from && post(to - 1).Reply? then Ok(post(to - 1).result) else Raised(GatewayError)
    }

    /** A guarded call and its result: rejected without a post exactly when the circuit says so,
        otherwise one request, whose outcome the circuit sees. */
    ghost predicate Calls(s: Stage, r: Result, t: Stage)
    {
      var began, ended := clock(s.readings), clock(s.readings + 1);
      && (if Admits(circuit.cfg, Run(circuit.cfg, s.trace), began)
          then Requested(s.posts, t.posts) && r == Answer(s.posts, t.posts)
          else t.posts == s.posts && r == Raised(CircuitOpen))
      && t.trace == s.trace + CallEvents(began, ended, r)
      && t.readings == s.readings + if r == Raised(GatewayError) then 2 else 1
    }

    /** The attempts of a retried call: guarded calls that follow each other from one stage to the
        next, every one but the last with a retryable fault. */
    ghost predicate Attempted(p: Policy, ss: seq<Stage>, rs: seq<Result>)
    {
      && |ss| == |rs| + 1 && |rs| <= Max0(p.maxAttempts)
      && (forall i :: 0 <= i < |rs| ==> Calls(ss[i], rs[i], ss[i + 1]))
      && (forall i :: 0 <= i < |rs| - 1 ==> rs[i].Raised? && IsRetryable(p, rs[i].fault))
    }

    /** It ends with the first success, the first fault that is not retryable, or the last attempt. */
    ghost predicate Concluded(p: Policy, rs: seq<Result>, r: Result)
    {
      if rs == [] then p.maxAttempts <= 0 && r.Raised?
      else r == rs[|rs| - 1] && (r.Ok? || !IsRetryable(p, r.fault) || |rs| == p.maxAttempts)
    }

    constructor (maxRetries: int, post: nat -> PostResult, clock: nat -> int, cfg: Config)
      ensures this.maxRetries == maxRetries && this.post == post && this.clock == clock
      ensures fresh(circuit) && circuit.cfg == cfg && circuit.Value() == FRESH
      ensures posts == 0 && readings == 0 && slept == 0 && trace == [] && Valid()
    {
      this.maxRetries, this.post, this.clock := maxRetries, post, clock;
      circuit := new CircuitRuntime(cfg);
      posts, readings, slept, trace := 0, 0, 0, [];
    }

    /** One request: transport errors are retried, a timeout or a malformed reply is not. */
    method Rpc() returns (r: Option<string>)
      modifies this`posts
      ensures Requested(old(posts), posts)
      ensures r.Some? <==> posts > old(posts) && post(posts - 1).Reply?
      ensures r.Some? ==> r.value == post(posts - 1).result
    {
      var attempt := 0;
      while attempt < maxRetries + 1
        invariant 0 <= attempt <= Max0(maxRetries + 1) && posts == old(posts) + attempt
        invariant forall n :: old(posts) <= n < posts ==> post(n).TransportError?
      {
        var response := post(posts);
        posts := posts + 1;
        match response
        case Reply(result) => return Some(result);
        case BadReply => return None;
        case Timeout => return None;
        case TransportError =>
          attempt := attempt + 1;
      }
      return None;
    }

    /** The request inside the circuit breaker. */
    method Guarded() returns (r: Result)
      requires Valid()
      modifies this`posts, this`readings, this`trace, circuit
      ensures Valid() && Calls(old(Now()), r, Now())
    {
      hide Run, Times, Admissions, Begun, Succeeded, Failed, Admits, CallEvents, Requested;
      var now := clock(readings);
      readings := readings + 1;
      var through := circuit.Begin(now);
      if !through {
        r := Raised(CircuitOpen);
      } else {
        var reply := Rpc();
        if reply.None? {
          var failedAt := clock(readings);
          readings := readings + 1;
          circuit.OnFailure(failedAt);
          r := Raised(GatewayError);
        } else {
          circuit.OnSuccess();
          r := Ok(reply.value);
        }
      }
      CallHistory(circuit.cfg, trace, now, clock(old(readings) + 1), r);
      trace := trace + CallEvents(now, clock(old(readings) + 1), r);
    }

    /** A call keeps the accounts of a server that never answers, and is one beginning more. */
    lemma CallBalances(s: Stage, r: Result, t: Stage)
      requires Calls(s, r, t)
      requires Accounted(circuit.cfg, Run(circuit.cfg, s.trace), Admissions(circuit.cfg, s.trace),
                         Recoveries(circuit.cfg, s.trace))
      requires NeverAnswers() && s.posts <= Admissions(circuit.cfg, s.trace) * Max0(maxRetries + 1)
      ensures r.Raised? && t.posts <= Admissions(circuit.cfg, t.trace) * Max0(maxRetries + 1)
      ensures Accounted(circuit.cfg, Run(circuit.cfg, t.trace), Admissions(circuit.cfg, t.trace),
                        Recoveries(circuit.cfg, t.trace))
    {
      hide Accounted, Run, Admissions, Recoveries, CallEvents, Admits;
      BalancedStep(circuit.cfg, s.trace, clock(s.readings), clock(s.readings + 1), r, s.posts, t.posts - s.posts,
                   Max0(maxRetries + 1));
    }

    /** The outer retry: it stops at the first success or the first fault that is not retryable,
        and otherwise uses all its attempts. After k attempts it has slept the first k - 1 backoffs. */
    method Retry(p: Policy) returns (r: Result, ghost ss: seq<Stage>, ghost rs: seq<Result>)
      requires Valid()
      modifies this`posts, this`readings, this`trace, this`slept, circuit
      ensures Valid() && Attempted(p, ss, rs) && ss[0] == old(Now()) && ss[|rs|] == Now() && Concluded(p, rs, r)
      ensures slept == old(slept) + TotalBackoff(p, Max0(|rs| - 1))
      ensures NeverAnswers() && old(Balanced()) ==> r.Raised? && Balanced()
    {
      hide Accounted, IsRetryable, CallEvents, Run, Admissions, Recoveries, Times, Admits, Calls;
      r, rs, ss := Raised(GatewayError), [], [Now()];
      var attempts := 0;
      while attempts < p.maxAttempts
        invariant 0 <= attempts == |rs| && (attempts > 0 ==> attempts < p.maxAttempts)
        invariant slept == old(slept) + TotalBackoff(p, attempts) && r.Raised?
        invariant Attempted(p, ss, rs) && ss[0] == old(Now()) && ss[|rs|] == Now()
        invariant forall i :: 0 <= i < |rs| ==> rs[i].Raised? && IsRetryable(p, rs[i].fault)
        invariant Valid()
        invariant NeverAnswers() && old(Balanced()) ==> Balanced()
        decreases p.maxAttempts - attempts
      {
        ghost var before := Now();
        r := Guarded();
        if NeverAnswers() && old(Balanced()) {
          CallBalances(before, r, Now());
        }
        attempts := attempts + 1;
        rs, ss := rs + [r], ss + [Now()];
        if r.Ok? {
          return;
        }
        if !IsRetryable(p, r.fault) || attempts >= p.maxAttempts {
          return;
        }
        slept := slept + BackoffFor(p, attempts);
      }
    }

    lemma {:induction false} BeginsPerAttempt(ss: seq<Stage>, rs: seq<Result>)
      requires |ss| == |rs| + 1 && forall i :: 0 <= i < |rs| ==> Calls(ss[i], rs[i], ss[i + 1])
      ensures Begins(ss[|rs|].trace) == Begins(ss[0].trace) + |rs|
    {
      hide Begins, CallEvents, Run, Admits, Requested;
      if rs != [] {
        var n := |rs| - 1;
        BeginsPerAttempt(ss[..|rs|], rs[..n]);
        assert Calls(ss[n], rs[n], ss[n + 1]);
        BeginsOnce(ss[n].trace, clock(ss[n].readings), clock(ss[n].readings + 1), rs[n]);
      }
    }

    /** A server that replies to the first post is answered for, if the circuit lets the call in. */
    lemma FirstReply(p: Policy, ss: seq<Stage>, rs: seq<Result>, r: Result)
      requires Attempted(p, ss, rs) && Concluded(p, rs, r) && p.maxAttempts >= 1
      requires Admits(circuit.cfg, Run(circuit.cfg, ss[0].trace), clock(ss[0].readings))
      requires maxRetries >= 0 && post(ss[0].posts).Reply?
      ensures r == Ok(post(ss[0].posts).result) && |rs| == 1 && ss[1].posts == ss[0].posts + 1
    {
      hide Run, Admits, CallEvents;
      assert Calls(ss[0], rs[0], ss[1]);
      assert Requested(ss[0].posts, ss[1].posts);
      assert !post(ss[0].posts).TransportError?;
    }

    /** A tool call: at most three guarded attempts with the default backoff between them. */
    method CallTool() returns (r: Result, ghost ss: seq<Stage>, ghost rs: seq<Result>)
      requires Valid()
      modifies this`posts, this`readings, this`trace, this`slept, circuit
      ensures Valid() && Attempted(DEFAULT_POLICY, ss, rs) && Concluded(DEFAULT_POLICY, rs, r)
      ensures ss[0] == old(Now()) && ss[|rs|] == Now()
      ensures r.Raised? ==> |rs| == 3 && slept == old(slept) + 300
      ensures maxRetries >= 0 && post(old(posts)).Reply?
              && Admits(circuit.cfg, old(circuit.Value()), clock(old(readings))) ==>
                r == Ok(post(old(posts)).result) && posts == old(posts) + 1 && slept == old(slept)
      ensures NeverAnswers() && old(Balanced()) ==> r.Raised? && Balanced()
    {
      ghost var admits := Admits(circuit.cfg, circuit.Value(), clock(readings));
      r, ss, rs := Retry(DEFAULT_POLICY);
      DefaultBackoff();
      hide Run, Admits, Calls, Accounted;
      if admits && maxRetries >= 0 && post(old(posts)).Reply? {
        FirstReply(DEFAULT_POLICY, ss, rs, r);
      }
    }

    /** Any number of calls, one after another, to a server that never answers: posts stay within
        (threshold + recoveries) rounds of the inner loop, where a recovery is a call that finds
        the circuit open for a full recovery period. They stay within threshold rounds if every
        call comes within the recovery period of the latest failure, in particular if the whole
        run is shorter than that. All the while every call makes its three attempts. */
    method CallMany(calls: nat)
      requires Valid() && NeverAnswers() && trace == [] && posts == 0
      modifies this`posts, this`readings, this`trace, this`slept, circuit
      ensures Valid() && Begins(trace) == 3 * calls
      ensures posts <= (Limit(circuit.cfg) + Recoveries(circuit.cfg, trace)) * Max0(maxRetries + 1)
      ensures circuit.cfg.threshold >= 1 && AlwaysSoon(circuit.cfg, trace) ==>
                posts <= circuit.cfg.threshold * Max0(maxRetries + 1)
      ensures circuit.cfg.threshold >= 1 &&
              (forall i, j :: 0 <= i < j < readings ==> clock(j) - clock(i) < circuit.cfg.recovery) ==>
                posts <= circuit.cfg.threshold * Max0(maxRetries + 1)
    {
      for i := 0 to calls
        invariant Valid() && Balanced() && Begins(trace) == 3 * i
      {
        var r;
        ghost var ss, rs;
        r, ss, rs := CallTool();
        BeginsPerAttempt(ss, rs);
      }
      ghost var a, b := Admissions(circuit.cfg, trace), Limit(circuit.cfg) + Recoveries(circuit.cfg, trace);
      assert a <= b;
      MulMonotone(a, b, Max0(maxRetries + 1));
      if AlwaysSoon(circuit.cfg, trace) {
        NoRecovery(circuit.cfg, trace);
      }
      if forall i, j :: 0 <= i < j < readings ==> clock(j) - clock(i) < circuit.cfg.recovery {
        ShortRunNoRecovery(circuit.cfg, trace);
      }
    }
  }

  lemma MulMonotone(a: nat, b: nat, c: nat)
    requires a <= b
    ensures a * c <= b * c
  {
    assert b * c == a * c + (b - a) * c;
  }
}
