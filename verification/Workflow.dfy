/** The workflow engine: a linear run of steps with retries, approval gates and reverse-order
    compensation. Step handlers are an oracle; only the sandbox-free path is modelled. */
module Workflow {
  import opened Common

  /** `compensation` is a step id, or "" for none; `viaGateway` marks a step that runs through the
      tool gateway. */
  datatype Step = Step(
    id: string, maxAttempts: int, compensation: string, requiresApproval: bool, viaGateway: bool)

  datatype Status = Draft | Pending | Running | Paused | Completed | Failed | Compensating

  datatype HandlerResult = Produced(artifact: string) | Denied | Raised

  datatype Artifact = Result(id: string) | Error | ApprovalRequired | Finished

  /** How one execution of a step ended. */
  datatype Ending = NothingLeft | Gated | NoGateway | Succeeded | WasDenied | Exhausted

  /** One execution of a step, for the record: attempts booked before, the first and the last handler
      call made for it, how it ended and what it returned. */
  datatype Execution = Execution(step: Step, booked: nat, from: nat, at: nat, why: Ending, artifact: Artifact)

  /** The status an execution leaves behind, unless a next step follows. */
  function StatusAfter(why: Ending): Status
  {
    match why
    case Succeeded => Completed
    case NothingLeft => Completed
    case Gated => Paused
    case _ => Failed
  }

  lemma StatusIs(why: Ending)
    ensures StatusAfter(why) != Running && (why == Succeeded ==> StatusAfter(why) == Completed)
  {
  }

  function Ids(steps: seq<Step>): (ids: seq<string>)
    ensures |ids| == |steps|
    ensures forall i :: 0 <= i < |steps| ==> ids[i] == steps[i].id
  {
    seq(|steps|, i requires 0 <= i < |steps| => steps[i].id)
  }

  /** The first step with the id. */
  function IndexOf(steps: seq<Step>, id: string): (k: Option<nat>)
    ensures k.Some? ==> k.value < |steps| && steps[k.value].id == id
    ensures k.None? ==> forall i :: 0 <= i < |steps| ==> steps[i].id != id
    ensures k.Some? ==> forall i :: 0 <= i < k.value ==> steps[i].id != id
  {
    if steps == [] then None
    else
      var k := IndexOf(steps[..|steps| - 1], id);
      if k.Some? then k else if steps[|steps| - 1].id == id then Some(|steps| - 1) else None
  }

  // ---- moving on ----

  /** The step an instance is at: the first with the current id. */
  function CurrentOf(steps: seq<Step>, current: Option<string>): (s: Option<Step>)
    ensures s.Some? ==> current == Some(s.value.id) && s.value in steps
  {
    if current.None? || IndexOf(steps, current.value).None? then None
    else Some(steps[IndexOf(steps, current.value).value])
  }

  /** The id after the first step with the given id, in list order. */
  function NextId(steps: seq<Step>, id: string): Option<string>
  {
    match IndexOf(steps, id)
    case None => None
    case Some(k) => if k + 1 < |steps| then Some(steps[k + 1].id) else None
  }

  /** Where an instance is after n steps succeeded. */
  function Walk(steps: seq<Step>, n: nat): Option<string>
  {
    if n == 0 then (if steps == [] then None else Some(steps[0].id))
    else if Walk(steps, n - 1).None? then None
    else NextId(steps, Walk(steps, n - 1).value)
  }

  lemma {:induction false} DistinctWalk(steps: seq<Step>, n: nat)
    requires Distinct(Ids(steps)) && n <= |steps|
    ensures Walk(steps, n) == if n < |steps| then Some(steps[n].id) else None
  {
    if n > 0 {
      DistinctWalk(steps, n - 1);
      DistinctPosition(Ids(steps), IndexOf(steps, steps[n - 1].id).value, n - 1);
    }
  }

  /** A step whose id occurred before is never passed. */
  lemma {:induction false} RepeatedWalk(steps: seq<Step>, i: nat, j: nat, n: nat)
    requires i < j < |steps| && steps[i].id == steps[j].id
    ensures Walk(steps, n).Some? && IndexOf(steps, Walk(steps, n).value).Some?
    ensures IndexOf(steps, Walk(steps, n).value).value < j
  {
    if n > 0 {
      RepeatedWalk(steps, i, j, n - 1);
      var k := IndexOf(steps, Walk(steps, n - 1).value).value;
      assert steps[k + 1].id == Walk(steps, n).value;
    }
  }

  /** The walk goes from a step to the next, and stays at the end. */
  lemma WalkNext(steps: seq<Step>, n: nat)
    ensures Walk(steps, n).None? <==> CurrentOf(steps, Walk(steps, n)).None?
    ensures Walk(steps, n + 1) == if Walk(steps, n).None? then None else NextId(steps, Walk(steps, n).value)
  {
    WalkOnSteps(steps, n);
  }

  lemma {:induction false} WalkOnSteps(steps: seq<Step>, n: nat)
    ensures Walk(steps, n).Some? ==> IndexOf(steps, Walk(steps, n).value).Some?
  {
    if n > 0 {
      WalkOnSteps(steps, n - 1);
    }
  }

  /** With handlers that succeed, a workflow has come to its end after n steps exactly if no step id
      occurs twice and there are no more than n. */
  lemma {:induction false} WalkStops(steps: seq<Step>, n: nat)
    ensures Walk(steps, n).None? <==> Distinct(Ids(steps)) && n >= |steps|
  {
    if Distinct(Ids(steps)) {
      if n <= |steps| {
        DistinctWalk(steps, n);
      } else {
        WalkStops(steps, n - 1);
      }
    } else {
      var i, j :| 0 <= i < j < |steps| && Ids(steps)[i] == Ids(steps)[j];
      RepeatedWalk(steps, i, j, n);
    }
  }

  /** How often a step's forward handler may run. */
  function Bound(s: Step): nat
  {
    if s.maxAttempts > 1 then s.maxAttempts else 1
  }

  // ---- compensation order ----

  /** What one step's compensation contributes: its target, if declared and existing. */
  function Target(steps: seq<Step>, s: Step): seq<string>
  {
    if s.compensation != "" && IndexOf(steps, s.compensation).Some? then [s.compensation] else []
  }

  /** The targets of the first n steps, last step first. */
  function Backwards(steps: seq<Step>, n: nat): seq<string>
    requires n <= |steps|
  {
    if n == 0 then [] else Target(steps, steps[n - 1]) + Backwards(steps, n - 1)
  }

  /** The steps before the failed one, in reverse order, and then the failed one itself. */
  function CompensationOrder(steps: seq<Step>, failed: string): seq<string>
  {
    match IndexOf(steps, failed)
    case None => []
    case Some(k) => Backwards(steps, k) + Target(steps, steps[k])
  }

  /** The same targets in step order. */
  function Declared(steps: seq<Step>, n: nat): seq<string>
    requires n <= |steps|
  {
    if n == 0 then [] else Declared(steps, n - 1) + Target(steps, steps[n - 1])
  }

  function Mirrored(s: seq<string>): (r: seq<string>)
    ensures |r| == |s| && forall i :: 0 <= i < |s| ==> r[i] == s[|s| - 1 - i]
  {
    seq(|s|, i requires 0 <= i < |s| => s[|s| - 1 - i])
  }

  /** Compensation undoes in exactly the opposite order: the declared targets, mirrored. */
  lemma {:induction false} BackwardsIsMirrored(steps: seq<Step>, n: nat)
    requires n <= |steps|
    ensures Backwards(steps, n) == Mirrored(Declared(steps, n))
  {
    if n > 0 {
      BackwardsIsMirrored(steps, n - 1);
      assert |Target(steps, steps[n - 1])| <= 1;
      hide Target;
      MirroredAppend(Declared(steps, n - 1), Target(steps, steps[n - 1]));
    }
  }

  lemma MirroredAppend(d: seq<string>, t: seq<string>)
    requires |t| <= 1
    ensures Mirrored(d + t) == t + Mirrored(d)
  {
  }

  lemma OrderFor(steps: seq<Step>, failed: string)
    ensures IndexOf(steps, failed).None? ==> CompensationOrder(steps, failed) == []
    ensures forall k :: IndexOf(steps, failed) == Some(k) ==>
              CompensationOrder(steps, failed) == Backwards(steps, k) + Target(steps, steps[k])
  {
  }

  /** The step declares a compensation that exists. */
  predicate Declares(steps: seq<Step>, s: Step)
  {
    s.compensation != "" && IndexOf(steps, s.compensation).Some?
  }

  lemma {:induction false} DeclaredAll(steps: seq<Step>, n: nat, t: string)
    requires n <= |steps|
    ensures t in Declared(steps, n) <==>
            exists i :: 0 <= i < n && Declares(steps, steps[i]) && steps[i].compensation == t
  {
    if n > 0 {
      DeclaredAll(steps, n - 1, t);
      hide IndexOf;
    }
  }

  lemma MirroredMembers(d: seq<string>, t: string)
    ensures t in Mirrored(d) <==> t in d
  {
    if t in d {
      var i :| 0 <= i < |d| && d[i] == t;
      assert Mirrored(d)[|d| - 1 - i] == t;
    }
  }

  /** The whole order: the declared, existing targets of the steps before the failed one, all of
      them and mirrored; and last, if it declares one, the failed step's own. Nothing for a step
      that does not exist. */
  lemma CompensationExactly(steps: seq<Step>, failed: string)
    ensures match IndexOf(steps, failed)
            case None => CompensationOrder(steps, failed) == []
            case Some(k) =>
              var own := if Declares(steps, steps[k]) then [steps[k].compensation] else [];
              && CompensationOrder(steps, failed) == Mirrored(Declared(steps, k)) + own
              && forall t :: t in Mirrored(Declared(steps, k)) <==>
                   exists i :: 0 <= i < k && Declares(steps, steps[i]) && steps[i].compensation == t
  {
    var k := IndexOf(steps, failed);
    if k.Some? {
      BackwardsIsMirrored(steps, k.value);
      forall t
        ensures t in Mirrored(Declared(steps, k.value)) <==>
                exists i :: 0 <= i < k.value && Declares(steps, steps[i]) && steps[i].compensation == t
      {
        MirroredMembers(Declared(steps, k.value), t);
        DeclaredAll(steps, k.value, t);
      }
    }
  }

  lemma BackwardsStep(steps: seq<Step>, n: nat, i: nat, done: seq<string>)
    requires i < n <= |steps| && done + Backwards(steps, i + 1) == Backwards(steps, n)
    ensures (done + Target(steps, steps[i])) + Backwards(steps, i) == Backwards(steps, n)
  {
    hide Target;
    Regroup(done, Target(steps, steps[i]), Backwards(steps, i));
  }

  lemma BackwardsNone(steps: seq<Step>)
    ensures Backwards(steps, 0) == []
  {
  }

  lemma Regroup<T>(a: seq<T>, b: seq<T>, c: seq<T>)
    ensures (a + b) + c == a + (b + c)
  {
  }

  class Instance {
    const steps: seq<Step>
    const gatewayWired: bool
    const handler: (nat, string) -> HandlerResult
    var status: Status
    var current: Option<string>
    var attempts: map<string, nat>
    var results: map<string, string>
    var eventLog: seq<string>
    var calls: nat                       // handler calls made
    ghost var forward: seq<string>       // steps whose forward handler ran, in order
    ghost var completed: seq<string>     // steps completed, in order
    ghost var compensated: seq<string>   // compensation steps run, in order
    ghost var approved: set<string>      // steps resumed by an approval

    function Attempts(id: string): nat
      reads this`attempts
    {
      if id in attempts then attempts[id] else 0
    }

    ghost function Runs(id: string): nat
      reads this`forward
    {
      multiset(forward)[id]
    }

    /** Progress: completed steps are a prefix of the step list, and the current step is the next. */
    ghost predicate Aligned()
      reads this`current, this`completed
    {
      && Distinct(Ids(steps))
      && |completed| <= |steps| && completed == Ids(steps)[..|completed|]
      && current == if |completed| < |steps| then Some(steps[|completed|].id) else None
    }

    /** No forward handler ran more often than allowed, or behind a gate that was not opened; steps
        further on are untouched. */
    ghost predicate Disciplined()
      reads this`forward, this`approved, this`completed, this`attempts
    {
      DisciplinedAt(|completed|)
    }

    /** The same with the first n steps completed. */
    ghost predicate DisciplinedAt(n: nat)
      reads this`forward, this`approved, this`attempts
    {
      && (forall i :: 0 <= i < |steps| ==> Runs(steps[i].id) <= Bound(steps[i]))
      && (forall i :: 0 <= i < |steps| && steps[i].requiresApproval && Runs(steps[i].id) > 0 ==>
          steps[i].id in approved)
      && (forall i :: n < i < |steps| ==> Attempts(steps[i].id) == 0 && Runs(steps[i].id) == 0)
      && (forall i :: n <= i < |steps| && Attempts(steps[i].id) == 0 ==> steps[i].id !in approved)
    }

    /** The current step may be attempted (again). */
    ghost predicate Attemptable()
      requires |completed| < |steps|
      reads this`forward, this`approved, this`completed, this`attempts
    {
      var s := steps[|completed|];
      if s.requiresApproval && Attempts(s.id) > 0
      then s.id in approved && Runs(s.id) <= Attempts(s.id) - 1
          && (Attempts(s.id) == 1 || Attempts(s.id) < s.maxAttempts)
      else Runs(s.id) <= Attempts(s.id) && (Attempts(s.id) == 0 || Attempts(s.id) < s.maxAttempts)
    }

    ghost predicate Valid()
      reads this
    {
      && Aligned() && Disciplined()
      && (status == Completed ==> |completed| == |steps|)
      && (status == Running && steps != [] ==> |completed| < |steps| && Attemptable())
      && (status == Paused ==> |completed| < |steps| && AwaitsApproval())
      && (status == Failed ==> |completed| < |steps| && Attempts(steps[|completed|].id) >= 1)
      && (status == Running || status == Paused || status == Completed || status == Failed)
    }

    ghost predicate AwaitsApproval()
      requires |completed| < |steps|
      reads this`forward, this`approved, this`completed, this`attempts
    {
      var s := steps[|completed|];
      s.requiresApproval && Attempts(s.id) == 1 && Runs(s.id) == 0 && s.id !in approved
    }

    /** Starts an instance. */
    constructor (steps: seq<Step>, gatewayWired: bool, handler: (nat, string) -> HandlerResult)
      ensures Distinct(Ids(steps)) ==> Valid()
      ensures status == Running && current == Walk(steps, 0) && attempts == map[] && calls == 0
      ensures completed == [] && forward == [] && approved == {} && compensated == []
      ensures this.steps == steps && this.gatewayWired == gatewayWired && this.handler == handler
    {
      this.steps, this.gatewayWired, this.handler := steps, gatewayWired, handler;
      status := Running;
      current := if steps != [] then Some(steps[0].id) else None;
      attempts, results, eventLog, calls := map[], map[], [], 0;
      forward, completed, compensated, approved := [], [], [], {};
    }

    /** The results after compensation steps run from handler call number `from` on: each that
        produces something is recorded under its own name. */
    ghost function Recorded(results: map<string, string>, from: nat, targets: seq<string>): map<string, string>
    {
      if targets == [] then results
      else
        var n := |targets| - 1;
        var before := Recorded(results, from, targets[..n]);
        if handler(from + n, targets[n]).Produced? then before[targets[n] := targets[n]] else before
    }

    lemma {:induction false} RecordedConcat(results: map<string, string>, from: nat, xs: seq<string>, ys: seq<string>)
      ensures Recorded(results, from, xs + ys) == Recorded(Recorded(results, from, xs), from + |xs|, ys)
      decreases |ys|
    {
      if ys == [] {
        assert xs + ys == xs;
      } else {
        var n := |ys| - 1;
        RecordedConcat(results, from, xs, ys[..n]);
        assert (xs + ys)[..|xs| + n] == xs + ys[..n];
      }
    }

    /** What running the targets does, from a state with the given calls, results and compensations. */
    ghost predicate Compensates(targets: seq<string>, from: nat, before: map<string, string>, done: seq<string>)
      reads this`results, this`calls, this`compensated
    {
      && compensated == done + targets && calls == from + |targets|
      && results == Recorded(before, from, targets)
    }

    lemma RanNothing()
      ensures Compensates([], calls, results, compensated)
    {
    }

    /** One compensation step, best effort. */
    method RunCompensation(target: string)
      modifies this`results, this`calls, this`compensated
      ensures Compensates(if IndexOf(steps, target).Some? then [target] else [], old(calls), old(results),
                          old(compensated))
    {
      if IndexOf(steps, target).None? {
        return;
      }
      compensated := compensated + [target];
      var r := handler(calls, target);
      calls := calls + 1;
      if r.Produced? {
        results := results[target := target];
      }
      assert [target][..0] == [];
      assert Recorded(old(results), old(calls), []) == old(results);
    }

    /** A step's declared compensation, if any. */
    method CompensateStep(s: Step)
      modifies this`results, this`calls, this`compensated
      ensures Compensates(Target(steps, s), old(calls), old(results), old(compensated))
    {
      if s.compensation != "" {
        RunCompensation(s.compensation);
      }
    }

    lemma RanMore(xs: seq<string>, ys: seq<string>, from: nat, before: map<string, string>, done: seq<string>,
                  middle: map<string, string>)
      requires Compensates(ys, from + |xs|, middle, done + xs) && middle == Recorded(before, from, xs)
      ensures Compensates(xs + ys, from, before, done)
    {
      RecordedConcat(before, from, xs, ys);
    }

    lemma RanIs(xs: seq<string>, from: nat, before: map<string, string>, done: seq<string>)
      ensures Compensates(xs, from, before, done) <==>
              compensated == done + xs && calls == from + |xs| && results == Recorded(before, from, xs)
    {
    }

    /** Compensates the first n steps, the last of them first. */
    method CompensateBefore(n: nat)
      requires n <= |steps|
      modifies this`results, this`calls, this`compensated
      ensures Compensates(Backwards(steps, n), old(calls), old(results), old(compensated))
    {
      hide *;
      BackwardsNone(steps);
      var i := n;
      ghost var done: seq<string> := [];
      RanNothing();
      while i > 0
        invariant 0 <= i <= n
        invariant Compensates(done, old(calls), old(results), old(compensated))
        invariant done + Backwards(steps, i) == Backwards(steps, n)
      {
        i := i - 1;
        BackwardsStep(steps, n, i, done);
        ghost var middle := results;
        RanIs(done, old(calls), old(results), old(compensated));
        CompensateStep(steps[i]);
        RanMore(done, Target(steps, steps[i]), old(calls), old(results), old(compensated), middle);
        done := done + Target(steps, steps[i]);
      }
      assert done + [] == done;
    }

    /** Compensates in reverse order from the failed step and fails the instance. */
    method Compensate(failed: string)
      modifies this`status, this`results, this`calls, this`compensated
      ensures status == Failed
      ensures Compensates(CompensationOrder(steps, failed), old(calls), old(results), old(compensated))
    {
      hide *;
      status := Compensating;
      RanNothing();
      OrderFor(steps, failed);
      var idx := IndexOf(steps, failed);
      if idx.Some? {
        CompensateBefore(idx.value);
        ghost var middle := results;
        RanIs(Backwards(steps, idx.value), old(calls), old(results), old(compensated));
        CompensateStep(steps[idx.value]);
        RanMore(Backwards(steps, idx.value), Target(steps, steps[idx.value]), old(calls), old(results),
                old(compensated), middle);
      }
      status := Failed;
    }

    /** Moves on to the next step of the list. */
    method Advance()
      modifies this`current, this`completed
      ensures current == if old(current).None? then None else NextId(steps, old(current).value)
      ensures completed == old(completed) + if old(current).None? then [] else [old(current).value]
      ensures old(Aligned()) ==> Aligned()
    {
      if current.None? {
        return;
      }
      var idx := IndexOf(steps, current.value);
      if Aligned() {
        DistinctPosition(Ids(steps), idx.value, |completed|);
      }
      completed := completed + [current.value];
      if idx.Some? && idx.value + 1 < |steps| {
        current := Some(steps[idx.value + 1].id);
      } else {
        current := None;
      }
    }

    /** The handler of s may run as this attempt. */
    ghost predicate Ready(s: Step, attempt: nat)
      reads this
    {
      && Aligned() && Disciplined() && |completed| < |steps| && s == steps[|completed|] && Attempts(s.id) == attempt
      && Runs(s.id) < Bound(s) && (s.requiresApproval ==> s.id in approved)
      && Runs(s.id) + (if s.requiresApproval then 1 else 0) < attempt
    }

    /** The handler of s has run as this attempt. */
    ghost predicate Ran(s: Step, attempt: nat)
      reads this`forward, this`approved, this`completed, this`attempts, this`current
    {
      && Aligned() && Disciplined() && |completed| < |steps| && s == steps[|completed|]
          && 1 <= attempt == Attempts(s.id)
      && Runs(s.id) + (if s.requiresApproval then 1 else 0) <= attempt && (s.requiresApproval ==> s.id in approved)
    }

    /** One more attempt of the current step is booked. */
    method BookAttempt(s: Step) returns (attempt: nat)
      modifies this`attempts
      ensures attempt == old(Attempts(s.id)) + 1 && attempts == old(attempts)[s.id := attempt]
      ensures old(Aligned() && Disciplined() && current == Some(s.id)) ==> Disciplined()
    {
      attempt := Attempts(s.id) + 1;
      attempts := attempts[s.id := attempt];
      if old(Aligned() && Disciplined() && current == Some(s.id)) {
        forall i | |completed| < i < |steps|
          ensures Attempts(steps[i].id) == 0
        {
          assert Ids(steps)[i] != Ids(steps)[|completed|];
        }
      }
    }

    /** Runs the forward handler of the current step. */
    method RunForward(s: Step, ghost attempt: nat) returns (r: HandlerResult)
      modifies this`calls, this`forward
      ensures forward == old(forward) + [s.id] && calls == old(calls) + 1 && r == handler(old(calls), s.id)
      ensures old(Ready(s, attempt)) ==> Ran(s, attempt)
    {
      forward := forward + [s.id];
      if old(Ready(s, attempt)) {
        forall i | 0 <= i < |steps| && i != |completed|
          ensures Runs(steps[i].id) == old(Runs(steps[i].id))
        {
          if i < |completed| {
            assert Ids(steps)[i] != Ids(steps)[|completed|];
          } else {
            assert Ids(steps)[|completed|] != Ids(steps)[i];
          }
        }
      }
      r := handler(calls, s.id);
      calls := calls + 1;
    }

    /** Steps not reached yet are untouched. */
    ghost predicate UntouchedAt(n: nat)
      reads this`forward, this`approved, this`attempts
    {
      DisciplinedAt(n) && (n < |steps| ==> Attempts(steps[n].id) == 0 && Runs(steps[n].id) == 0)
    }

    lemma RanNext(s: Step, attempt: nat)
      requires Ran(s, attempt)
      ensures Aligned() && UntouchedAt(|completed| + 1)
    {
    }

    lemma Moved(n: nat)
      requires Aligned() && UntouchedAt(n) && n == |completed|
      requires status == if current.None? then Completed else Running
      ensures Valid()
    {
    }

    /** A handler's success: record it and move on. */
    method Complete(s: Step, artifact: string, ghost attempt: nat)
      requires current == Some(s.id)
      modifies this`results, this`eventLog, this`current, this`completed, this`status
      ensures current == NextId(steps, s.id) && completed == old(completed) + [s.id]
      ensures status == if current.None? then Completed else old(status)
      ensures eventLog == old(eventLog) + [artifact] && results == old(results)[s.id := artifact]
      ensures old(Aligned()) ==> Aligned()
      ensures old(Ran(s, attempt) && status == Running) ==> Valid()
    {
      hide *;
      ghost var n, sound := |completed|, Ran(s, attempt) && status == Running;
      if sound {
        RanNext(s, attempt);
      }
      results := results[s.id := artifact];
      eventLog := eventLog + [artifact];
      Advance();
      if current.None? {
        status := Completed;
      }
      if sound {
        Moved(n + 1);
      }
    }

    lemma AtCurrent()
      requires Aligned() && current.Some?
      ensures |completed| < |steps| && CurrentOf(steps, current) == Some(steps[|completed|])
    {
      DistinctPosition(Ids(steps), IndexOf(steps, current.value).value, |completed|);
    }

    /** What stops an attempt before the handler: approval, at the first attempt of a step that
        needs it, or a gateway step without a gateway. */
    function Stop(s: Step, attempt: nat): Option<Ending>
    {
      if s.requiresApproval && attempt == 1 then Some(Gated)
      else if s.viaGateway && !gatewayWired then Some(NoGateway)
      else None
    }

    /** Books an attempt of the current step and passes the gates before its handler. */
    method Enter(s: Step) returns (attempt: nat, stop: Option<Ending>)
      requires CurrentOf(steps, current) == Some(s)
      modifies this`attempts, this`status
      ensures attempt == old(Attempts(s.id)) + 1 && attempts == old(attempts)[s.id := attempt]
      ensures stop == Stop(s, attempt)
      ensures status == if stop == Some(Gated) then Paused else if stop == Some(NoGateway) then Failed else old(status)
      ensures old(Valid() && status == Running) ==> if stop.Some? then Valid() else Ready(s, attempt)
    {
      if Aligned() {
        AtCurrent();
        if Valid() && Attempts(s.id) == 0 {
          GateClosed();
        }
      }
      hide Disciplined, CurrentOf;
      attempt := BookAttempt(s);
      stop := None;
      if s.requiresApproval && attempt == 1 {
        status := Paused;
        stop := Some(Gated);
      } else if s.viaGateway && !gatewayWired {
        status := Failed;
        stop := Some(NoGateway);
      }
    }

    /** The gate of a step not attempted yet is closed. */
    lemma GateClosed()
      requires Valid() && |completed| < |steps| && Attempts(steps[|completed|].id) == 0
      ensures steps[|completed|].id !in approved && Runs(steps[|completed|].id) <= Bound(steps[|completed|])
    {
    }

    /** With attempts left, a failed attempt leaves the instance ready for the next. */
    lemma Again(s: Step, attempt: nat)
      requires Ran(s, attempt) && status == Running && attempt < s.maxAttempts
      ensures Valid()
    {
    }

    lemma Stopped(s: Step, attempt: nat)
      requires Ran(s, attempt) && status == Failed
      ensures Valid()
    {
    }

    ghost function Left(): nat
      reads this`current, this`attempts
    {
      var s := CurrentOf(steps, current);
      if s.None? then 0 else Max0(s.value.maxAttempts - Attempts(s.value.id))
    }

    /** What an execution of step s that ended with `why` says about handler call number `at`, the
        last one made for the step, about the attempts used, and about the artifact. */
    ghost predicate Explains(s: Step, why: Ending, at: nat, a: Artifact)
      reads this`attempts, this`status
    {
      match why
      case NothingLeft => false
      case Gated => a == ApprovalRequired && status == Paused
      case NoGateway => a == Error && status == Failed
      case Succeeded => a.Result? && handler(at, s.id) == Produced(a.id)
      case WasDenied => a == Error && status == Failed && handler(at, s.id) == Denied
      case Exhausted => a == Error && status == Failed && handler(at, s.id) == Raised && Attempts(s.id) >= s.maxAttempts
    }

    /** The handler of s ran in calls number `from` to `at`, and raised in all but perhaps the last. */
    ghost predicate Tried(s: Step, from: nat, at: nat, before: seq<string>, booked: nat)
      reads this`forward, this`attempts
    {
      && from <= at && |forward| == |before| + at - from + 1 && before <= forward
      && (forall i :: |before| <= i < |forward| ==> forward[i] == s.id)
      && (forall c :: from <= c < at ==> handler(c, s.id) == Raised)
      && (at > from ==> booked + at - from < s.maxAttempts)
      && Attempts(s.id) == booked + at - from + 1
    }

    /** A success is recorded once, as the step's result and in the event log. */
    ghost predicate RecordedSuccess(id: string, at: nat, a: Artifact, before: map<string, string>, log: seq<string>,
                                    done: seq<string>)
      reads this`results, this`eventLog, this`calls, this`compensated
    {
      && a.Result? && results == before[id := a.id] && eventLog == log + [a.id]
      && calls == at + 1 && compensated == done
    }

    /** A failure is not recorded; an exhausted step that declares it is compensated. */
    ghost predicate FailedAt(s: Step, why: Ending, at: nat, before: map<string, string>, log: seq<string>,
                             done: seq<string>)
      reads this`results, this`eventLog, this`calls, this`compensated
    {
      && eventLog == log
      && Compensates(if why == Exhausted && s.compensation != "" then CompensationOrder(steps, s.id) else [], at + 1,
                     before, done)
    }

    lemma FailedWith(s: Step, why: Ending, at: nat, before: map<string, string>, log: seq<string>, done: seq<string>)
      requires eventLog == log && (why == WasDenied ==> calls == at + 1 && results == before && compensated == done)
      requires why == Exhausted ==>
                 Compensates(if s.compensation != "" then CompensationOrder(steps, s.id) else [], at + 1, before, done)
      requires why == WasDenied || why == Exhausted
      ensures FailedAt(s, why, at, before, log, done)
    {
    }

    lemma RecordedAs(id: string, at: nat, a: Artifact, before: map<string, string>, log: seq<string>, done: seq<string>)
      requires a.Result? && results == before[id := a.id] && eventLog == log + [a.id]
      requires calls == at + 1 && compensated == done
      ensures RecordedSuccess(id, at, a, before, log, done)
    {
    }

    /** How an execution of step s went that began with the given handler calls, forward runs and
        booked attempts. */
    ghost predicate Ended(s: Step, why: Ending, at: nat, a: Artifact, from: nat, before: seq<string>, booked: nat)
      reads this`forward, this`attempts, this`status
    {
      && Explains(s, why, at, a)
      && match Stop(s, booked + 1)
         case Some(e) => why == e && forward == before && Attempts(s.id) == booked + 1
         case None => why != Gated && why != NoGateway && Tried(s, from, at, before, booked)
    }

    lemma EndedStopped(s: Step, why: Ending, at: nat, a: Artifact, from: nat, before: seq<string>, booked: nat)
      requires Stop(s, booked + 1) == Some(why) && forward == before && Attempts(s.id) == booked + 1
      requires why == Gated ==> a == ApprovalRequired && status == Paused
      requires why == NoGateway ==> a == Error && status == Failed
      ensures Ended(s, why, at, a, from, before, booked)
    {
    }

    lemma EndedTried(s: Step, why: Ending, at: nat, a: Artifact, before: seq<string>, booked: nat)
      requires Stop(s, booked + 1).None? && forward == before + [s.id] && Attempts(s.id) == booked + 1
      requires why == Succeeded || (a == Error && status == Failed && (why == WasDenied || why == Exhausted))
      requires why == Succeeded ==> a.Result? && handler(at, s.id) == Produced(a.id)
      requires why == WasDenied ==> handler(at, s.id) == Denied
      requires why == Exhausted ==> handler(at, s.id) == Raised && booked + 1 >= s.maxAttempts
      ensures Ended(s, why, at, a, at, before, booked)
    {
    }

    lemma EndedAgain(s: Step, why: Ending, at: nat, a: Artifact, from: nat, before: seq<string>, booked: nat)
      requires Stop(s, booked + 1).None? && handler(from, s.id) == Raised && booked + 1 < s.maxAttempts
      requires Ended(s, why, at, a, from + 1, before + [s.id], booked + 1)
      ensures Ended(s, why, at, a, from, before, booked)
      ensures why == Succeeded || why == WasDenied || why == Exhausted
    {
      assert before <= forward;
      assert forward[|before|] == (before + [s.id])[|before|];
    }

    /** Executes the current step, whatever the status of the instance. It ends in a pause, a
        failure, or with the step completed; retries happen inside, and only an exhausted step is
        compensated. A valid running instance stays valid. */
    method ExecuteStep() returns (a: Artifact, ghost why: Ending, ghost at: nat)
      modifies this
      ensures approved == old(approved)
      ensures why == NothingLeft <==> CurrentOf(steps, old(current)).None?
      ensures why == NothingLeft ==>
                a == Finished && status == Completed && forward == old(forward) && attempts == old(attempts)
      ensures var s := CurrentOf(steps, old(current));
              s.Some? ==>
                && Ended(s.value, why, at, a, old(calls), old(forward), old(Attempts(s.value.id)))
                && attempts == old(attempts)[s.value.id := Attempts(s.value.id)]
      ensures current == if why == Succeeded then NextId(steps, old(current).value) else old(current)
      ensures completed == old(completed) + if why == Succeeded then [old(current).value] else []
      ensures why == Succeeded ==> status == if current.None? then Completed else old(status)
      ensures why == NothingLeft || why == Gated || why == NoGateway ==>
                && calls == old(calls) && results == old(results) && eventLog == old(eventLog)
                && compensated == old(compensated)
      ensures why == Succeeded ==>
                RecordedSuccess(old(current).value, at, a, old(results), old(eventLog), old(compensated))
      ensures why == WasDenied || why == Exhausted ==>
                FailedAt(CurrentOf(steps, old(current)).value, why, at, old(results), old(eventLog), old(compensated))
      ensures old(Valid() && status == Running) ==> Valid()
      decreases Left(), 1
    {
      hide *;
      at := 0;
      ghost var sound := Valid() && status == Running;
      var step := CurrentOf(steps, current);
      if step.None? {
        if sound {
          ValidFacts();
        }
        status := Completed;
        if sound {
          NothingCurrent();
        }
        return Finished, NothingLeft, at;
      }
      var s := step.value;
      ghost var booked, from := Attempts(s.id), calls;
      LeftIs(s);
      var attempt, stop := Enter(s);
      AttemptsIs(s.id, attempt);
      if stop.Some? {
        a := if stop.value == Gated then ApprovalRequired else Error;
        why := stop.value;
        StopIs(s, attempt);
        EndedStopped(s, why, at, a, from, old(forward), booked);
        return;
      }
      a, why, at := RunAttempt(s, attempt);
    }

    /** The attempt itself, once nothing stops it, and the retries after it. */
    method RunAttempt(s: Step, attempt: nat) returns (a: Artifact, ghost why: Ending, ghost at: nat)
      requires CurrentOf(steps, current) == Some(s) && Stop(s, attempt).None?
      requires s.id in attempts && attempts[s.id] == Attempts(s.id) == attempt >= 1
      modifies this
      ensures approved == old(approved) && (why == Succeeded || why == WasDenied || why == Exhausted)
      ensures Ended(s, why, at, a, old(calls), old(forward), attempt - 1)
      ensures attempts == old(attempts)[s.id := Attempts(s.id)]
      ensures current == if why == Succeeded then NextId(steps, s.id) else old(current)
      ensures completed == old(completed) + if why == Succeeded then [s.id] else []
      ensures why == Succeeded ==> status == if current.None? then Completed else old(status)
      ensures why == Succeeded ==> RecordedSuccess(s.id, at, a, old(results), old(eventLog), old(compensated))
      ensures why == WasDenied || why == Exhausted ==>
                FailedAt(s, why, at, old(results), old(eventLog), old(compensated))
      ensures old(Ready(s, attempt) && status == Running) ==> Valid()
      decreases if s.maxAttempts > attempt then s.maxAttempts - attempt + 1 else 0, 0
    {
      hide *;
      ghost var sound := Ready(s, attempt) && status == Running;
      at := calls;
      var r := RunForward(s, attempt);
      match r
      case Produced(artifact) =>
        Complete(s, artifact, attempt);
        a, why := Result(artifact), Succeeded;
        RecordedAs(s.id, at, a, old(results), old(eventLog), old(compensated));
        EndedTried(s, why, at, a, old(forward), attempt - 1);
      case Denied =>
        status := Failed;
        if sound {
          Stopped(s, attempt);
        }
        a, why := Error, WasDenied;
        FailedWith(s, why, at, old(results), old(eventLog), old(compensated));
        EndedTried(s, why, at, a, old(forward), attempt - 1);
      case Raised =>
        if attempt < s.maxAttempts {
          LeftIs(s);
          if sound {
            Again(s, attempt);
          }
          a, why, at := ExecuteStep();
          EndedAgain(s, why, at, a, old(calls), old(forward), attempt - 1);
        } else {
          GiveUp(s);
          if sound {
            Stopped(s, attempt);
          }
          a, why := Error, Exhausted;
          FailedWith(s, why, at, old(results), old(eventLog), old(compensated));
          EndedTried(s, why, at, a, old(forward), attempt - 1);
        }
    }

    lemma ValidFacts()
      requires Valid()
      ensures Aligned() && Disciplined()
    {
    }

    lemma AttemptsIs(id: string, n: nat)
      requires id in attempts && attempts[id] == n
      ensures Attempts(id) == n
    {
    }

    lemma StopIs(s: Step, attempt: nat)
      ensures Stop(s, attempt).Some? ==> Stop(s, attempt).value == Gated || Stop(s, attempt).value == NoGateway
    {
    }

    lemma LeftIs(s: Step)
      requires CurrentOf(steps, current) == Some(s)
      ensures Left() == if s.maxAttempts > Attempts(s.id) then s.maxAttempts - Attempts(s.id) else 0
    {
    }

    lemma NothingCurrent()
      requires Aligned() && Disciplined() && CurrentOf(steps, current).None? && status == Completed
      ensures Valid()
    {
      if current.Some? {
        AtCurrent();
      }
    }

    /** Executing a step that needs approval runs its handler exactly if the step was attempted
        before, whoever asked for that attempt and whatever came of it. For a valid instance this
        bypasses the gate exactly if the instance is paused at the step, or has failed without its
        approval, as after a refusal. */
    method ExecuteGated(s: Step) returns (a: Artifact)
      requires CurrentOf(steps, current) == Some(s)
      requires s.requiresApproval && (s.viaGateway ==> gatewayWired)
      modifies this
      ensures approved == old(approved) && old(forward) <= forward
      ensures |forward| > |old(forward)| <==> old(Attempts(s.id)) >= 1
      ensures forall i :: |old(forward)| <= i < |forward| ==> forward[i] == s.id
      ensures old(Valid()) ==>
                (|forward| > |old(forward)| && s.id !in approved <==>
                 old(status) == Paused || (old(status) == Failed && s.id !in approved))
      ensures old(status) == Paused && old(Valid()) ==> Attempts(s.id) >= 2
      ensures old(status) == Running && old(Valid()) ==> Valid()
    {
      if Valid() {
        AtCurrent();
        if Attempts(s.id) == 0 {
          GateClosed();
        }
      }
      hide Disciplined, CurrentOf, NextId, CompensationOrder, IndexOf;
      ghost var why, at;
      a, why, at := ExecuteStep();
    }

    /** A gateway step without a gateway never runs: it fails the instance, or waits for approval first. */
    method ExecuteUnwired(s: Step) returns (a: Artifact)
      requires CurrentOf(steps, current) == Some(s) && s.viaGateway && !gatewayWired
      modifies this
      ensures forward == old(forward) && completed == old(completed) && calls == old(calls)
      ensures status == if s.requiresApproval && old(Attempts(s.id)) == 0 then Paused else Failed
      ensures a == if status == Paused then ApprovalRequired else Error
    {
      hide Disciplined, CurrentOf, NextId, CompensationOrder, IndexOf;
      ghost var why, at;
      a, why, at := ExecuteStep();
    }

    /** The adaptive driver retries an answer that asks for approval by executing the step again:
        the handler runs, and nobody approved. */
    method RetryGate(s: Step) returns (first: Artifact, second: Artifact)
      requires Valid() && status == Running && CurrentOf(steps, current) == Some(s)
      requires s.requiresApproval && (s.viaGateway ==> gatewayWired) && Attempts(s.id) == 0
      modifies this
      ensures first == ApprovalRequired && s.id in forward && s.id !in approved && approved == old(approved)
    {
      hide *;
      ghost var why, at;
      first, why, at := ExecuteStep();
      Gate(s, why, at, first);
      second := ExecuteGated(s);
      assert forward[|old(forward)|] == s.id;
    }

    /** Two gated steps in a row, executed three times without any approval: the first one's handler
        runs, and the second gate holds though the instance was left paused. */
    method RetryTwoGates(s: Step, t: Step) returns (third: Artifact)
      requires CurrentOf(steps, current) == Some(s) && CurrentOf(steps, NextId(steps, s.id)) == Some(t) && s.id != t.id
      requires s.requiresApproval && (s.viaGateway ==> gatewayWired) && Attempts(s.id) == 0
      requires t.requiresApproval && (t.viaGateway ==> gatewayWired) && Attempts(t.id) == 0
      requires forall n, id :: handler(n, id).Produced?
      modifies this
      ensures third == ApprovalRequired && status == Paused && approved == old(approved)
      ensures forward == old(forward) + [s.id]
    {
      hide CurrentOf, NextId, IndexOf;
      var a := Execute(s);
      a := Execute(s);
      third := Execute(t);
    }

    /** One execution of a step whose handler always produces something. */
    method Execute(s: Step) returns (a: Artifact)
      requires CurrentOf(steps, current) == Some(s) && forall n :: handler(n, s.id).Produced?
      requires s.viaGateway ==> gatewayWired
      modifies this
      ensures approved == old(approved) && attempts == old(attempts)[s.id := old(Attempts(s.id)) + 1]
      ensures var stopped := s.requiresApproval && old(Attempts(s.id)) == 0;
              && current == (if stopped then old(current) else NextId(steps, s.id))
              && forward == old(forward) + (if stopped then [] else [s.id])
              && status == (if stopped then Paused else if current.None? then Completed else old(status))
              && (stopped ==> a == ApprovalRequired)
    {
      ghost var from, before, booked := calls, forward, Attempts(s.id);
      hide *;
      ghost var why, at;
      a, why, at := ExecuteStep();
      Produces(s, why, at, a, from, before, booked);
    }

    lemma Produces(s: Step, why: Ending, at: nat, a: Artifact, from: nat, before: seq<string>, booked: nat)
      requires (s.viaGateway ==> gatewayWired) && forall n :: handler(n, s.id).Produced?
      requires Ended(s, why, at, a, from, before, booked)
      ensures Attempts(s.id) == booked + 1
      ensures if s.requiresApproval && booked == 0
              then why == Gated && a == ApprovalRequired && status == Paused && forward == before
              else why == Succeeded && forward == before + [s.id]
    {
      assert handler(from, s.id).Produced? && handler(at, s.id).Produced?;
    }

    /** Any number of executions of a fresh instance whose handlers always produce something, with
        nothing to approve and no gateway missing: they follow the walk. A workflow whose ids are
        distinct is completed once all its steps had their turn; with an id that occurs twice the
        instance is running for ever. */
    method ExecuteMany(n: nat)
      requires status == Running && current == Walk(steps, 0) && forall c, id :: handler(c, id).Produced?
      requires forall s :: s in steps ==> !s.requiresApproval && (s.viaGateway ==> gatewayWired)
      modifies this
      ensures current == Walk(steps, n)
      ensures Distinct(Ids(steps)) ==> (status == Completed <==> n >= 1 && n >= |steps|)
      ensures !Distinct(Ids(steps)) ==> status == Running && current.Some?
    {
      hide *;
      for i := 0 to n
        invariant current == Walk(steps, i)
        invariant status == if i >= 1 && current.None? then Completed else Running
      {
        WalkNext(steps, i);
        var s := CurrentOf(steps, current);
        if s.Some? {
          var _ := Execute(s.value);
        } else {
          ghost var why, at;
          var a;
          a, why, at := ExecuteStep();
        }
      }
      WalkStops(steps, n);
    }

    lemma Gate(s: Step, why: Ending, at: nat, a: Artifact)
      requires s.requiresApproval
      ensures forall from, before :: Ended(s, why, at, a, from, before, 0) ==>
                why == Gated && a == ApprovalRequired && status == Paused && forward == before
    {
    }

    /** All attempts used up: compensate if the step declares it, and fail. */
    method GiveUp(s: Step)
      modifies this`status, this`results, this`calls, this`compensated
      ensures status == Failed
      ensures Compensates(if s.compensation != "" then CompensationOrder(steps, s.id) else [], old(calls), old(results),
                          old(compensated))
    {
      RanNothing();
      hide Compensates, CompensationOrder;
      if s.compensation != "" {
        Compensate(s.id);
      } else {
        status := Failed;
      }
    }

    // ---- the linear driver ----

    /** What the handler's answers make of an execution: stopped before the handler, or called until
        it does not raise or the attempts are used up. */
    ghost predicate Happened(x: Execution)
    {
      match Stop(x.step, x.booked + 1)
      case Some(e) => x.why == e && x.artifact == if e == Gated then ApprovalRequired else Error
      case None =>
        && x.from <= x.at && (forall c :: x.from <= c < x.at ==> handler(c, x.step.id) == Raised)
        && (x.at > x.from ==> x.booked + x.at - x.from < x.step.maxAttempts)
        && match handler(x.at, x.step.id)
           case Produced(artifact) => x.why == Succeeded && x.artifact == Result(artifact)
           case Denied => x.why == WasDenied && x.artifact == Error
           case Raised =>
             x.why == Exhausted && x.artifact == Error && x.booked + x.at - x.from + 1 >= x.step.maxAttempts
    }

    /** The forward runs of an execution. */
    ghost function RunsOf(x: Execution): seq<string>
    {
      if Stop(x.step, x.booked + 1).Some? || x.at < x.from then [] else seq(x.at - x.from + 1, _ => x.step.id)
    }

    ghost function AllRuns(log: seq<Execution>): seq<string>
    {
      if log == [] then [] else AllRuns(log[..|log| - 1]) + RunsOf(log[|log| - 1])
    }

    lemma EndedHappened(x: Execution, before: seq<string>)
      requires Ended(x.step, x.why, x.at, x.artifact, x.from, before, x.booked)
      ensures Happened(x) && forward == before + RunsOf(x) && (x.why != Succeeded ==> status == StatusAfter(x.why))
    {
    }

    /** The record of a drive: executions of the steps from number n on, one after the other, the
        handler calls of each following those of the last, and all but the last of them successful. */
    ghost predicate Logged(n: nat, from: nat, booked: nat, log: seq<Execution>)
    {
      if log == [] then n <= |steps|
      else
        var front, x := log[..|log| - 1], log[|log| - 1];
        && Logged(n, from, booked, front)
        && n + |front| < |steps| && x.step == steps[n + |front|] && Happened(x)
        && (front == [] ==> x.from == from && x.booked == booked)
        && (front != [] ==>
              front[|front| - 1].why == Succeeded && x.from == front[|front| - 1].at + 1 && x.booked == 0)
    }

    lemma LoggedNext(n: nat, from: nat, booked: nat, log: seq<Execution>, x: Execution)
      requires Logged(n, from, booked, log) && (log != [] ==> log[|log| - 1].why == Succeeded)
      requires n + |log| < |steps| && x.step == steps[n + |log|] && Happened(x)
      requires x.from == if log == [] then from else log[|log| - 1].at + 1
      requires x.booked == if log == [] then booked else 0
      ensures Logged(n, from, booked, log + [x])
      ensures AllRuns(log + [x]) == AllRuns(log) + RunsOf(x)
    {
      hide Happened, RunsOf;
      assert (log + [x])[..|log|] == log;
    }

    ghost predicate OnTrack(log: seq<Execution>)
    {
      log == [] || log[|log| - 1].why == Succeeded
    }

    /** Where a drive stands after the recorded executions, from a state with the given steps
        completed, handler calls, booked attempts, forward runs and compensations. */
    ghost predicate Driven(n: nat, from: nat, booked: nat, before: seq<string>, done: seq<string>, log: seq<Execution>)
      reads this
    {
      && Logged(n, from, booked, log) && forward == before + AllRuns(log)
      && |completed| == n + |log| - (if OnTrack(log) then 0 else 1)
      && (log != [] ==>
            var last := log[|log| - 1];
            && status == (if last.why == Succeeded && |completed| < |steps| then Running else StatusAfter(last.why))
            && compensated == done +
                 if last.why == Exhausted && last.step.compensation != ""
                 then CompensationOrder(steps, last.step.id) else [])
      && (OnTrack(log) ==>
            && calls == (if log == [] then from else log[|log| - 1].at + 1) && compensated == done
            && (|completed| < |steps| ==> Attempts(steps[|completed|].id) == if log == [] then booked else 0))
    }

    lemma DrivenFacts(n: nat, from: nat, booked: nat, before: seq<string>, done: seq<string>, log: seq<Execution>)
      requires Driven(n, from, booked, before, done, log) && status == Running
      ensures Logged(n, from, booked, log) && |completed| == n + |log| && forward == before + AllRuns(log)
      ensures log != [] ==> log[|log| - 1].why == Succeeded
      ensures calls == (if log == [] then from else log[|log| - 1].at + 1) && compensated == done
      ensures |completed| < |steps| ==> Attempts(steps[|completed|].id) == if log == [] then booked else 0
    {
      hide CompensationOrder, AllRuns;
    }

    /** The step after the current one has not been attempted. */
    lemma NextUntouched()
      requires Valid() && |completed| + 1 < |steps|
      ensures steps[|completed| + 1].id in attempts ==> attempts[steps[|completed| + 1].id] == 0
      ensures steps[|completed| + 1].id != steps[|completed|].id
    {
      assert Ids(steps)[|completed|] != Ids(steps)[|completed| + 1];
    }

    /** One turn of the driver. */
    method DriveOnce(ghost n: nat, ghost from: nat, ghost booked: nat, ghost before: seq<string>,
                     ghost done: seq<string>, ghost log: seq<Execution>)
      returns (a: Artifact, ghost x: Execution)
      requires Valid() && status == Running && current.Some? && Driven(n, from, booked, before, done, log)
      modifies this
      ensures Valid() && approved == old(approved) && a == x.artifact
      ensures Driven(n, from, booked, before, done, log + [x])
      ensures |completed| > |old(completed)| || status != Running
      ensures old(completed) <= completed
    {
      hide *;
      ValidFacts();
      AtCurrent();
      DrivenFacts(n, from, booked, before, done, log);
      ghost var k := |completed|;
      ghost var s := steps[k];
      if k + 1 < |steps| {
        NextUntouched();
      }
      ghost var was, b, c := forward, Attempts(s.id), calls;
      ghost var why, at;
      a, why, at := ExecuteStep();
      x := Execution(s, b, c, at, why, a);
      EndedHappened(x, was);
      LoggedNext(n, from, booked, log, x);
      StatusIs(why);
      ValidFacts();
      if why == Succeeded {
        RecordedIs(s.id, at, a, old(results), old(eventLog), old(compensated));
        AlignedIs();
      } else if why == WasDenied || why == Exhausted {
        FailedIs(s, why, at, old(results), old(eventLog), old(compensated));
      }
      if k + 1 < |steps| {
        OtherAttempts(old(attempts), s.id, steps[k + 1].id);
      }
      DrivenNext(n, from, booked, before, done, log, x);
    }

    lemma OtherAttempts(before: map<string, nat>, id: string, other: string)
      requires id in attempts && attempts == before[id := attempts[id]] && other != id
      ensures (other in before ==> before[other] == 0) ==> Attempts(other) == 0
    {
    }

    lemma AlignedIs()
      requires Aligned()
      ensures current.None? <==> |completed| >= |steps|
    {
    }

    lemma RecordedIs(id: string, at: nat, a: Artifact, before: map<string, string>, log: seq<string>, done: seq<string>)
      requires RecordedSuccess(id, at, a, before, log, done)
      ensures calls == at + 1 && compensated == done
    {
    }

    lemma FailedIs(s: Step, why: Ending, at: nat, before: map<string, string>, log: seq<string>, done: seq<string>)
      requires FailedAt(s, why, at, before, log, done)
      ensures compensated == done +
                if why == Exhausted && s.compensation != "" then CompensationOrder(steps, s.id) else []
    {
    }

    lemma DrivenNext(n: nat, from: nat, booked: nat, before: seq<string>, done: seq<string>, log: seq<Execution>,
                     x: Execution)
      requires Logged(n, from, booked, log + [x]) && forward == before + AllRuns(log + [x])
      requires |completed| == n + |log| + if x.why == Succeeded then 1 else 0
      requires status == if x.why == Succeeded && |completed| < |steps| then Running else StatusAfter(x.why)
      requires compensated == done +
                 if x.why == Exhausted && x.step.compensation != "" then CompensationOrder(steps, x.step.id) else []
      requires x.why == Succeeded ==> calls == x.at + 1
      requires x.why == Succeeded && |completed| < |steps| ==> Attempts(steps[|completed|].id) == 0
      ensures Driven(n, from, booked, before, done, log + [x])
    {
      hide CompensationOrder, Logged, AllRuns;
    }

    /** Attempts booked for the current step. */
    ghost function Booked(): nat
      reads this`completed, this`attempts
    {
      if |completed| < |steps| then Attempts(steps[|completed|].id) else 0
    }

    /** All handlers produce something, nothing needs approval, no gateway is missing. */
    ghost predicate Smooth()
    {
      && (forall c, id :: handler(c, id).Produced?)
      && forall s :: s in steps ==> !s.requiresApproval && (s.viaGateway ==> gatewayWired)
    }

    lemma DriveStart()
      requires Valid() && status == Running
      ensures Driven(|completed|, calls, Booked(), forward, compensated, [])
    {
    }

    lemma DriveEnd(n: nat, from: nat, booked: nat, before: seq<string>, done: seq<string>, log: seq<Execution>)
      requires Valid() && Driven(n, from, booked, before, done, log) && !(status == Running && current.Some?)
      requires log == [] ==> status == Running
      ensures (log == [] <==> steps == []) && (status == Running <==> steps == [])
      ensures Smooth() && log != [] ==> status == Completed && |log| == |steps| - n
    {
      hide Disciplined, Attemptable, AwaitsApproval, AllRuns;
      if Smooth() && log != [] {
        SmoothSucceeds(n, from, booked, log);
      }
    }

    lemma SmoothSucceeds(n: nat, from: nat, booked: nat, log: seq<Execution>)
      requires Logged(n, from, booked, log) && log != [] && Smooth()
      ensures log[|log| - 1].why == Succeeded
    {
      var x := log[|log| - 1];
      assert x.step in steps && Happened(x);
      assert handler(x.at, x.step.id).Produced?;
    }

    /** The linear driver. It always stops, and never with the instance running, unless the
        workflow is empty. What it does is on record: it executes the steps from the current one on,
        up to the first that does not succeed, and the instance is left completed, paused or failed
        for the cause recorded. */
    method Drive() returns (artifacts: seq<Artifact>, ghost log: seq<Execution>)
      requires Valid()
      modifies this
      ensures Valid() && approved == old(approved)
      ensures |artifacts| == |log| && forall i :: 0 <= i < |log| ==> artifacts[i] == log[i].artifact
      ensures old(status) != Running ==> log == [] && status == old(status) && completed == old(completed)
      ensures old(status) == Running ==>
                Driven(|old(completed)|, old(calls), old(Booked()), old(forward), old(compensated), log)
      ensures old(status) == Running ==> (log == [] <==> steps == []) && (status == Running <==> steps == [])
      ensures status == Completed ==> completed == Ids(steps)
      ensures old(completed) <= completed
      ensures old(status) == Running && steps != [] && Smooth() ==>
                status == Completed && |artifacts| == |steps| - |old(completed)|
    {
      hide Driven, Logged, Disciplined, Attemptable, AwaitsApproval, Smooth;
      artifacts, log := [], [];
      ghost var n, from, booked, was := |completed|, calls, Booked(), status;
      if was == Running {
        DriveStart();
      }
      while status == Running && current.Some?
        invariant Valid() && approved == old(approved) && old(completed) <= completed
        invariant |artifacts| == |log| && forall i :: 0 <= i < |log| ==> artifacts[i] == log[i].artifact
        invariant was != Running ==> log == [] && status == was && completed == old(completed)
        invariant was == Running ==> Driven(n, from, booked, old(forward), old(compensated), log)
        invariant was == Running && log == [] ==> status == Running
        decreases |steps| - |completed|, status == Running
      {
        var a;
        ghost var x;
        a, x := DriveOnce(n, from, booked, old(forward), old(compensated), log);
        artifacts, log := artifacts + [a], log + [x];
      }
      if was == Running {
        DriveEnd(n, from, booked, old(forward), old(compensated), log);
      }
    }

    /** The gate of the paused step opens. */
    method Resume()
      requires Valid() && status == Paused
      modifies this`approved, this`status
      ensures Valid() && status == Running && approved == old(approved) + {current.value}
    {
      approved := approved + {current.value};
      status := Running;
    }

    /** Compensation run when an approval is refused: none unless that step declares one. */
    function RejectionOrder(stepId: string): seq<string>
    {
      var k := IndexOf(steps, stepId);
      if k.Some? && steps[k.value].compensation != "" then CompensationOrder(steps, stepId) else []
    }

    /** Resumes a paused instance, or fails it; refused for an instance that is not paused. */
    method Approve(stepId: string, yes: bool) returns (ok: bool, ghost log: seq<Execution>)
      requires Valid()
      modifies this
      ensures Valid() && ok == (old(status) == Paused)
      ensures !ok ==> status == old(status) && completed == old(completed)
      ensures !ok ==> forward == old(forward) && approved == old(approved)
      ensures ok && yes ==> status != Running && approved == old(approved) + {old(current).value}
      ensures ok && yes ==> Driven(|old(completed)|, old(calls), 1, old(forward), old(compensated), log) && log != []
      ensures !ok || !yes ==> log == []
      ensures ok && !yes ==> status == Failed && completed == old(completed)
      ensures ok && !yes ==> forward == old(forward) && approved == old(approved)
      ensures ok && !yes ==> Compensates(RejectionOrder(stepId), old(calls), old(results), old(compensated))
      ensures status == Completed ==> completed == Ids(steps)
    {
      hide Disciplined, CompensationOrder, Driven, Compensates, Attemptable;
      log := [];
      if status != Paused {
        return false, log;
      }
      if yes {
        Resume();
        var artifacts;
        artifacts, log := Drive();
      } else {
        var k := IndexOf(steps, stepId);
        if k.Some? && steps[k.value].compensation != "" {
          Compensate(stepId);
        } else {
          RanNothing();
          status := Failed;
        }
      }
      return true, log;
    }
  }
}
