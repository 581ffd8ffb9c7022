/** The dynamic planner's run of a plan: retries with exponential backoff, replanning when a
    step exhausts its budget, and a final status folded over the outcome journal. */
module DynamicPlanner {
  import opened Common
  import opened PlanGraph

  datatype Outcome = Outcome(id: string, planId: string, stepId: string, status: string, retry: nat)

  datatype PlanStatus = Draft | Active | Failed | Completed | Adapted

  datatype Plan = Plan(steps: seq<PlanStep>, status: PlanStatus, version: int)

  /** The injected executor: what its n-th call in a run answers for a step. */
  type Executor = (nat, PlanStep) -> Outcome

  ghost predicate AnswersForItsStep(exec: Executor)
  {
    forall n, s :: exec(n, s).stepId == s.id
  }

  /** Calls from `calls` on give outcome ids that are new to the journal and to each other. */
  ghost predicate NewIds(exec: Executor, outcomes: seq<Outcome>, calls: nat)
  {
    && (forall n, s, o :: n >= calls && o in outcomes ==> exec(n, s).id != o.id)
    && (forall n, s, n', s' :: calls <= n < n' ==> exec(n, s).id != exec(n', s').id)
  }

  // ---- the outcome journal: a dictionary by outcome id, in insertion order ----

  function Put(os: seq<Outcome>, o: Outcome): seq<Outcome>
  {
    if os == [] then [o]
    else if os[0].id == o.id then [o] + os[1..]
    else [os[0]] + Put(os[1..], o)
  }

  lemma {:induction false} PutNew(os: seq<Outcome>, o: Outcome)
    requires forall p :: p in os ==> p.id != o.id
    ensures Put(os, o) == os + [o]
  {
    if os != [] {
      PutNew(os[1..], o);
    }
  }

  /** Several outcomes recorded one after the other. */
  function PutAll(os: seq<Outcome>, more: seq<Outcome>): seq<Outcome>
  {
    if more == [] then os else Put(PutAll(os, more[..|more| - 1]), more[|more| - 1])
  }

  lemma PutNothing(os: seq<Outcome>)
    ensures PutAll(os, []) == os
  {
  }

  lemma PutAllNext(os: seq<Outcome>, more: seq<Outcome>, o: Outcome)
    ensures PutAll(os, more + [o]) == Put(PutAll(os, more), o)
  {
    assert (more + [o])[..|more|] == more;
  }

  lemma {:induction false} PutAllConcat(os: seq<Outcome>, xs: seq<Outcome>, ys: seq<Outcome>)
    ensures PutAll(os, xs + ys) == PutAll(PutAll(os, xs), ys)
    decreases |ys|
  {
    if ys == [] {
      assert xs + ys == xs;
    } else {
      var n := |ys| - 1;
      PutAllConcat(os, xs, ys[..n]);
      assert xs + ys == xs + ys[..n] + [ys[n]];
      PutAllNext(os, xs + ys[..n], ys[n]);
    }
  }

  /** The outcome carries the id of the executor's n-th answer. */
  ghost predicate IdOfCall(exec: Executor, n: nat, o: Outcome)
  {
    exists s :: o.id == exec(n, s).id
  }

  lemma NewIdDiffers(exec: Executor, os: seq<Outcome>, calls: nat, done: seq<Outcome>, o: Outcome, p: Outcome)
    requires NewIds(exec, os, calls) && IdOfCall(exec, calls + |done|, o)
    requires forall j :: 0 <= j < |done| ==> IdOfCall(exec, calls + j, done[j])
    requires p in os + done
    ensures p.id != o.id
  {
    if p !in os {
      var j :| 0 <= j < |done| && done[j] == p;
      assert IdOfCall(exec, calls + j, done[j]);
    }
  }

  /** Answers with new ids are appended. */
  lemma {:induction false} PutAllNew(exec: Executor, os: seq<Outcome>, calls: nat, more: seq<Outcome>)
    requires NewIds(exec, os, calls)
    requires forall j :: 0 <= j < |more| ==> IdOfCall(exec, calls + j, more[j])
    ensures PutAll(os, more) == os + more
  {
    hide NewIds, IdOfCall;
    if more != [] {
      var n := |more| - 1;
      PutAllNew(exec, os, calls, more[..n]);
      forall p | p in os + more[..n]
        ensures p.id != more[n].id
      {
        NewIdDiffers(exec, os, calls, more[..n], more[n], p);
      }
      PutNew(os + more[..n], more[n]);
    }
  }

  /** The outcome that stands for a step: the latest one with the highest retry count. */
  function LastOf(os: seq<Outcome>, sid: string): Option<Outcome>
  {
    if os == [] then None
    else
      var last, o := LastOf(os[..|os| - 1], sid), os[|os| - 1];
      if o.stepId == sid && (last.None? || o.retry >= last.value.retry) then Some(o) else last
  }

  lemma {:induction false} LastOfIsLatestHighest(os: seq<Outcome>, sid: string) returns (k: nat)
    ensures LastOf(os, sid).None? <==> forall o :: o in os ==> o.stepId != sid
    ensures LastOf(os, sid).Some? ==> k < |os| && os[k] == LastOf(os, sid).value && os[k].stepId == sid
    ensures LastOf(os, sid).Some? ==> forall j :: 0 <= j < |os| && os[j].stepId == sid ==>
              os[j].retry < os[k].retry || (os[j].retry == os[k].retry && j <= k)
  {
    k := 0;
    if os != [] {
      var n := |os| - 1;
      k := LastOfIsLatestHighest(os[..n], sid);
      assert os == os[..n] + [os[n]];
      if os[n].stepId == sid && (LastOf(os[..n], sid).None? || os[n].retry >= os[k].retry) {
        k := n;
      }
    }
  }

  lemma {:induction false} LastOfOthers(os: seq<Outcome>, more: seq<Outcome>, sid: string)
    requires forall o :: o in more ==> o.stepId != sid
    ensures LastOf(os + more, sid) == LastOf(os, sid)
  {
    if more == [] {
      assert os + more == os;
    } else {
      var n := |more| - 1;
      assert (os + more)[..|os| + n] == os + more[..n];
      LastOfOthers(os, more[..n], sid);
    }
  }

  // ---- one step's turn ----

  /** What the retry loop records for one step. */
  ghost predicate IsTurn(s: PlanStep, attempts: seq<Outcome>)
  {
    && 1 <= |attempts| <= Max0(s.budget) + 1
    && (forall j :: 0 <= j < |attempts| ==> attempts[j].retry == j)
    && (forall j :: 0 <= j < |attempts| - 1 ==> attempts[j].status != "success")
    && (!Won(attempts) ==> |attempts| == Max0(s.budget) + 1)
  }

  /** The step succeeded within its own retry budget. */
  ghost predicate Won(attempts: seq<Outcome>)
  {
    attempts != [] && attempts[|attempts| - 1].status == "success"
  }

  ghost predicate StandsAsSuccess(os: seq<Outcome>, sid: string)
  {
    LastOf(os, sid).Some? && LastOf(os, sid).value.status == "success"
  }

  ghost predicate AllStand(os: seq<Outcome>, steps: seq<PlanStep>)
  {
    forall s :: s in steps ==> StandsAsSuccess(os, s.id)
  }

  /** The first step, in the plan's own list, that does not stand as a success has no outcome. */
  ghost predicate Unanswered(os: seq<Outcome>, steps: seq<PlanStep>)
  {
    exists i :: 0 <= i < |steps| && LastOf(os, steps[i].id).None?
             && forall j :: 0 <= j < i ==> StandsAsSuccess(os, steps[j].id)
  }

  /** What the journal already says of the step cannot outlast the step's next turn wrongly. */
  ghost predicate Settled(os: seq<Outcome>, s: PlanStep)
  {
    match LastOf(os, s.id)
    case None => true
    case Some(o) => o.retry == 0 || (o.status == "success" && o.retry <= Max0(s.budget))
  }

  /** The step stands as a success that the step's whole budget cannot replace. */
  ghost predicate StaleSuccess(os: seq<Outcome>, s: PlanStep)
  {
    StandsAsSuccess(os, s.id) && LastOf(os, s.id).value.retry > Max0(s.budget)
  }

  /** Settled, or a stale success of a step whose loss would raise. */
  ghost predicate Trusted(steps: seq<PlanStep>, os: seq<Outcome>, s: PlanStep)
  {
    Settled(os, s) || (StaleSuccess(os, s) && Cyclic(ById(SplitFailed(steps, s.id))))
  }

  ghost predicate AllTrusted(os: seq<Outcome>, steps: seq<PlanStep>)
  {
    forall k :: k in ById(steps) ==> Trusted(steps, os, ById(steps)[k])
  }

  /** Recording more either leaves the standing outcome, if it has the highest retry count, or
      replaces it by a new one that has at least its count. */
  lemma {:induction false} LastOfAppend(os: seq<Outcome>, more: seq<Outcome>, sid: string)
    ensures var before, after := LastOf(os, sid), LastOf(os + more, sid);
            || (after == before && forall o :: o in more && o.stepId == sid ==>
                before.Some? && o.retry < before.value.retry)
            || (after.Some? && after.value in more && after.value.stepId == sid
                && (before.Some? ==> before.value.retry <= after.value.retry)
                && forall o :: o in more && o.stepId == sid ==> o.retry <= after.value.retry)
  {
    if more == [] {
      assert os + more == os;
    } else {
      var n := |more| - 1;
      assert (os + more)[..|os| + n] == os + more[..n];
      assert more == more[..n] + [more[n]];
      LastOfAppend(os, more[..n], sid);
    }
  }

  /** After a turn that does not raise, a trusted step stands as a success exactly when it won. */
  lemma LastOfTurn(os: seq<Outcome>, s: PlanStep, attempts: seq<Outcome>)
    requires IsTurn(s, attempts) && forall o :: o in attempts ==> o.stepId == s.id
    requires Settled(os, s) || (StaleSuccess(os, s) && Won(attempts))
    ensures StandsAsSuccess(os + attempts, s.id) <==> Won(attempts)
  {
    LastOfAppend(os, attempts, s.id);
    assert attempts[|attempts| - 1] in attempts;
  }

  // ---- sizes ----

  lemma {:induction false} SubsetSize<T>(a: set<T>, b: set<T>)
    requires a <= b
    ensures |a| <= |b|
  {
    if a != {} {
      var x :| x in a;
      SubsetSize(a - {x}, b - {x});
    }
  }

  lemma {:induction false} ByIdSize(steps: seq<PlanStep>)
    ensures |ById(steps)| <= |steps|
  {
    if steps != [] {
      ByIdSize(steps[..|steps| - 1]);
      var m, s := ById(steps[..|steps| - 1]), steps[|steps| - 1];
      assert m[s.id := s].Keys == m.Keys + {s.id};
    }
  }

  lemma {:induction false} SplitMembers(steps: seq<PlanStep>, failed: string, a: string, b: string, s: PlanStep)
    requires s in Split(steps, failed, a, b)
    ensures s.id == a || s.id == b || (s in steps && s.id != failed)
  {
    var n := |steps| - 1;
    if s in Split(steps[..n], failed, a, b) {
      SplitMembers(steps[..n], failed, a, b, s);
    }
  }

  /** An order of the split plan runs the halves and the other steps, never the failed one. */
  lemma SplitOrderIds(steps: seq<PlanStep>, failed: string, order: seq<PlanStep>, i: nat)
    requires IsOrder(ById(SplitFailed(steps, failed)), order) && i < |order|
    ensures order[i].id != failed
    ensures order[i].id in ById(steps) || order[i].id in {HalfNames(failed).0, HalfNames(failed).1}
  {
    var (a, b) := HalfNames(failed);
    ByIdFacts(SplitFailed(steps, failed));
    assert order[i] in Split(steps, failed, a, b);
    SplitMembers(steps, failed, a, b, order[i]);
    ByIdFacts(steps);
  }

  /** An order of the split plan has at most one step more than the plan. */
  lemma SplitOrderSize(steps: seq<PlanStep>, failed: string, order: seq<PlanStep>)
    requires failed in ById(steps) && IsOrder(ById(SplitFailed(steps, failed)), order)
    ensures |order| <= |steps| + 1
    ensures forall s :: s in order ==> s.id != failed
  {
    forall i | 0 <= i < |order|
      ensures order[i].id != failed
      ensures order[i].id in ById(steps) || order[i].id in {HalfNames(failed).0, HalfNames(failed).1}
    {
      SplitOrderIds(steps, failed, order, i);
    }
    var (a, b) := HalfNames(failed);
    CountIds(ById(steps).Keys, failed, a, b, Ids(order));
    ByIdSize(steps);
  }

  lemma CountIds(keys: set<string>, failed: string, a: string, b: string, ids: seq<string>)
    requires failed in keys && Distinct(ids)
    requires forall i :: 0 <= i < |ids| ==> ids[i] != failed && (ids[i] in keys || ids[i] in {a, b})
    ensures |ids| <= |keys| + 1
  {
    var seen := set x | x in ids;
    DistinctLength(ids);
    SubsetSize(seen, (keys - {failed}) + {a, b});
    assert |(keys - {failed}) + {a, b}| <= |keys - {failed}| + |{a, b}|;
  }

  // ---- the pass over an adapted plan ----

  predicate SucceededIn(os: seq<Outcome>, planId: string, sid: string)
  {
    exists o :: o in os && o.planId == planId && o.stepId == sid && o.status == "success"
  }

  /** What the pass records: one first attempt per step, in order, except for steps that by then
      have succeeded under the adapted plan's id. */
  ghost function Reruns(exec: Executor, os: seq<Outcome>, calls: nat, planId: string,
                        order: seq<PlanStep>): seq<Outcome>
  {
    if order == [] then []
    else
      var n := |order| - 1;
      var done := Reruns(exec, os, calls, planId, order[..n]);
      if SucceededIn(PutAll(os, done), planId, order[n].id) then done
      else done + [exec(calls + |done|, order[n]).(retry := 0)]
  }

  lemma RerunsNone(exec: Executor, os: seq<Outcome>, calls: nat, planId: string)
    ensures Reruns(exec, os, calls, planId, []) == []
  {
  }

  lemma RerunsNext(exec: Executor, os: seq<Outcome>, calls: nat, planId: string, order: seq<PlanStep>, i: nat)
    requires i < |order|
    ensures var done := Reruns(exec, os, calls, planId, order[..i]);
            Reruns(exec, os, calls, planId, order[..i + 1]) ==
            if SucceededIn(PutAll(os, done), planId, order[i].id) then done
            else done + [exec(calls + |done|, order[i]).(retry := 0)]
  {
    hide SucceededIn, PutAll;
    assert order[..i + 1][..i] == order[..i];
  }

  /** The pass skips a step exactly if by then a success is recorded for it under the adapted plan's
      own id; outcomes under other plans do not count. */
  lemma SkipsExactly(exec: Executor, os: seq<Outcome>, calls: nat, planId: string, order: seq<PlanStep>, i: nat)
    requires i < |order|
    ensures var done := Reruns(exec, os, calls, planId, order[..i]);
            if exists o :: o in PutAll(os, done) && o.planId == planId && o.stepId == order[i].id
                        && o.status == "success"
            then Reruns(exec, os, calls, planId, order[..i + 1]) == done
            else Reruns(exec, os, calls, planId, order[..i + 1]) == done + [exec(calls + |done|, order[i]).(retry := 0)]
  {
    RerunsNext(exec, os, calls, planId, order, i);
  }

  /** The outcome is the executor's n-th answer, recorded as a first attempt at a step other than
      the one called `skip`. */
  ghost predicate FirstAttempt(exec: Executor, n: nat, skip: string, o: Outcome)
  {
    exists s: PlanStep :: s.id != skip && o == exec(n, s).(retry := 0)
  }

  ghost predicate FirstAttempts(exec: Executor, calls: nat, skip: string, os: seq<Outcome>)
  {
    forall j :: 0 <= j < |os| ==> FirstAttempt(exec, calls + j, skip, os[j])
  }

  lemma FirstAttemptsNext(exec: Executor, calls: nat, skip: string, os: seq<Outcome>, s: PlanStep)
    requires FirstAttempts(exec, calls, skip, os) && s.id != skip
    ensures FirstAttempts(exec, calls, skip, os + [exec(calls + |os|, s).(retry := 0)])
  {
  }

  lemma FirstAttemptsNone(exec: Executor, calls: nat, skip: string)
    ensures FirstAttempts(exec, calls, skip, [])
  {
  }

  lemma {:induction false} RerunsFacts(exec: Executor, os: seq<Outcome>, calls: nat, planId: string,
                                       order: seq<PlanStep>, skip: string)
    requires forall s :: s in order ==> s.id != skip
    ensures |Reruns(exec, os, calls, planId, order)| <= |order|
    ensures FirstAttempts(exec, calls, skip, Reruns(exec, os, calls, planId, order))
  {
    hide *;
    if order == [] {
      RerunsNone(exec, os, calls, planId);
      FirstAttemptsNone(exec, calls, skip);
    } else {
      var n := |order| - 1;
      RerunsFacts(exec, os, calls, planId, order[..n], skip);
      RerunsNext(exec, os, calls, planId, order, n);
      assert order[..n + 1] == order;
      FirstAttemptsNext(exec, calls, skip, Reruns(exec, os, calls, planId, order[..n]), order[n]);
    }
  }

  // ---- the planner ----

  datatype TurnResult = Returned(outcome: Outcome) | SplitCycle(id: string)

  /** A run may raise: on an unknown or cyclic plan, on a cyclic adapted plan, or at the end on a
      step without any outcome. */
  datatype RunResult =
    | Done(status: PlanStatus)
    | UnknownPlan
    | PlanCycle(id: string)
    | AdaptedCycle(id: string)
    | NoOutcome

  /** What one step's turn added to the journal, from executor call number `start` on. */
  datatype Turn = Turn(step: PlanStep, start: nat, attempts: seq<Outcome>, reruns: seq<Outcome>)

  ghost function Journal(turns: seq<Turn>): seq<Outcome>
  {
    if turns == [] then []
    else
      var t := turns[|turns| - 1];
      Journal(turns[..|turns| - 1]) + t.attempts + t.reruns
  }

  ghost predicate IsTurnOf(exec: Executor, t: Turn)
  {
    && IsTurn(t.step, t.attempts)
    && (forall j :: 0 <= j < |t.attempts| ==> t.attempts[j] == exec(t.start + j, t.step).(retry := j))
    && (Won(t.attempts) ==> t.reruns == [])
    && FirstAttempts(exec, t.start + |t.attempts|, t.step.id, t.reruns)
  }

  /** The pass over the adapted plan that a lost turn ended with: some order of the plan with the
      step split was gone through, under the adapted plan's id. */
  ghost predicate Replanned(exec: Executor, newId: string, os: seq<Outcome>, steps: seq<PlanStep>, t: Turn)
  {
    exists order :: IsOrder(ById(SplitFailed(steps, t.step.id)), order)
                 && t.reruns == Reruns(exec, PutAll(os, t.attempts), t.start + |t.attempts|, newId, order)
  }

  /** A lost turn stores the plan with the step split, as its next version, and marks the plan adapted. */
  ghost function Replan(plans: map<string, Plan>, planId: string, newId: string, step: string): map<string, Plan>
    requires planId in plans
  {
    var plan := plans[planId];
    plans[newId := Plan(SplitFailed(plan.steps, step), Adapted, plan.version + 1)][planId := plan.(status := Adapted)]
  }

  /** The plans after a number of turns: ids are drawn in pairs, one pair per lost turn. */
  ghost function Stored(plans: map<string, Plan>, planId: string, uuid: nat -> string, drawn: nat, turns: seq<Turn>):
      (r: map<string, Plan>)
    requires planId in plans
    ensures planId in r
  {
    if turns == [] then plans
    else
      var front, t := turns[..|turns| - 1], turns[|turns| - 1];
      var before := Stored(plans, planId, uuid, drawn, front);
      if Won(t.attempts) then before else Replan(before, planId, uuid(drawn + 2 * Losses(front) + 1), t.step.id)
  }

  /** Every lost turn that did not raise ended with its pass. */
  ghost predicate AllReplanned(exec: Executor, uuid: nat -> string, drawn: nat, os: seq<Outcome>, steps: seq<PlanStep>,
                               turns: seq<Turn>)
  {
    forall i :: 0 <= i < |turns| && !Won(turns[i].attempts) && !Raises(steps, turns[i]) ==>
      Replanned(exec, uuid(drawn + 2 * Losses(turns[..i]) + 1), PutAll(os, Journal(turns[..i])), steps, turns[i])
  }

  lemma ReplannedBy(exec: Executor, newId: string, os: seq<Outcome>, steps: seq<PlanStep>, t: Turn,
                    order: seq<PlanStep>)
    requires IsOrder(ById(SplitFailed(steps, t.step.id)), order)
    requires t.reruns == Reruns(exec, PutAll(os, t.attempts), t.start + |t.attempts|, newId, order)
    ensures Replanned(exec, newId, os, steps, t)
  {
  }

  lemma ReplannedNone(exec: Executor, uuid: nat -> string, drawn: nat, os: seq<Outcome>, plans: map<string, Plan>,
                      planId: string)
    requires planId in plans
    ensures AllReplanned(exec, uuid, drawn, os, plans[planId].steps, [])
    ensures Stored(plans, planId, uuid, drawn, []) == plans && Losses([]) == 0
  {
  }

  lemma ReplannedNext(exec: Executor, uuid: nat -> string, drawn: nat, os: seq<Outcome>, steps: seq<PlanStep>,
                      turns: seq<Turn>, t: Turn)
    requires AllReplanned(exec, uuid, drawn, os, steps, turns)
    requires !Won(t.attempts) && !Raises(steps, t) ==>
               Replanned(exec, uuid(drawn + 2 * Losses(turns) + 1), PutAll(os, Journal(turns)), steps, t)
    ensures AllReplanned(exec, uuid, drawn, os, steps, turns + [t])
  {
    hide Raises, Replanned, Won, Losses, PutAll, Journal;
    var all := turns + [t];
    assert forall i :: 0 <= i < |turns| ==> all[i] == turns[i] && all[..i] == turns[..i];
    assert all[..|turns|] == turns;
  }

  lemma StoredNext(plans: map<string, Plan>, planId: string, uuid: nat -> string, drawn: nat, turns: seq<Turn>, t: Turn)
    requires planId in plans
    ensures var before := Stored(plans, planId, uuid, drawn, turns);
            Stored(plans, planId, uuid, drawn, turns + [t]) ==
            if Won(t.attempts) then before else Replan(before, planId, uuid(drawn + 2 * Losses(turns) + 1), t.step.id)
    ensures Losses(turns + [t]) == Losses(turns) + if Won(t.attempts) then 0 else 1
  {
    assert (turns + [t])[..|turns|] == turns;
  }

  /** Where the ids drawn are all different and new, nothing stored is lost: every lost turn leaves
      the plan with its step split, adapted and one version on, and the plan itself keeps its
      steps and version. */
  lemma {:induction false} StoredKeeps(plans: map<string, Plan>, planId: string, uuid: nat -> string, drawn: nat,
                                       turns: seq<Turn>, i: nat)
    requires planId in plans && (forall k :: k >= drawn ==> uuid(k) !in plans)
    requires forall k, m :: drawn <= k < m ==> uuid(k) != uuid(m)
    ensures var r := Stored(plans, planId, uuid, drawn, turns);
            && (forall id :: id in plans && id != planId ==> id in r && r[id] == plans[id])
            && r[planId].steps == plans[planId].steps && r[planId].version == plans[planId].version
            && (i < |turns| && !Won(turns[i].attempts) ==>
                  var newId := uuid(drawn + 2 * Losses(turns[..i]) + 1);
                  newId in r && r[newId] == Plan(SplitFailed(plans[planId].steps, turns[i].step.id), Adapted,
                                                 plans[planId].version + 1))
  {
    hide SplitFailed, Won;
    if turns != [] {
      var n := |turns| - 1;
      StoredKeeps(plans, planId, uuid, drawn, turns[..n], i);
      if i < n {
        assert turns[..n][..i] == turns[..i];
        LossesGrow(turns[..n], i);
      }
    }
  }

  lemma {:induction false} LossesGrow(turns: seq<Turn>, i: nat)
    requires i < |turns|
    ensures Losses(turns[..i]) <= Losses(turns)
    ensures !Won(turns[i].attempts) ==> Losses(turns[..i]) < Losses(turns)
    decreases |turns|
  {
    hide Won;
    var n := |turns| - 1;
    if i < n {
      LossesGrow(turns[..n], i);
      assert turns[..n][..i] == turns[..i];
    }
  }

  /** No outcome so far, and no answer to come, carries the id of an adapted plan yet to be drawn. */
  ghost predicate Unclaimed(exec: Executor, os: seq<Outcome>, uuid: nat -> string, drawn: nat)
  {
    forall k :: k >= drawn ==> Disowns(exec, os, uuid(k))
  }

  ghost predicate Disowns(exec: Executor, os: seq<Outcome>, planId: string)
  {
    (forall n, s :: exec(n, s).planId != planId) && forall o :: o in os ==> o.planId != planId
  }

  /** The turn ended with one call for every step of an order of the split plan, in that order. */
  ghost predicate FullPass(exec: Executor, steps: seq<PlanStep>, t: Turn)
  {
    exists order :: IsOrder(ById(SplitFailed(steps, t.step.id)), order) && PassOver(exec, t, order)
  }

  ghost predicate PassOver(exec: Executor, t: Turn, order: seq<PlanStep>)
  {
    && |t.reruns| == |order|
    && forall j :: 0 <= j < |order| ==> t.reruns[j] == exec(t.start + |t.attempts| + j, order[j]).(retry := 0)
  }

  lemma {:induction false} PutMembers(os: seq<Outcome>, o: Outcome, p: Outcome)
    requires p in Put(os, o)
    ensures p in os || p == o
  {
    if os != [] && os[0].id != o.id && p != os[0] {
      PutMembers(os[1..], o, p);
    }
  }

  lemma {:induction false} PutAllMembers(os: seq<Outcome>, more: seq<Outcome>, p: Outcome)
    requires p in PutAll(os, more)
    ensures p in os || p in more
  {
    if more != [] {
      var n := |more| - 1;
      PutMembers(PutAll(os, more[..n]), more[n], p);
      if p in PutAll(os, more[..n]) {
        PutAllMembers(os, more[..n], p);
      }
    }
  }

  /** Nothing is skipped where no outcome carries the plan's id. */
  lemma {:induction false} RerunsAll(exec: Executor, os: seq<Outcome>, calls: nat, planId: string, order: seq<PlanStep>)
    requires Disowns(exec, os, planId)
    ensures |Reruns(exec, os, calls, planId, order)| == |order|
    ensures forall j :: 0 <= j < |order| ==>
              Reruns(exec, os, calls, planId, order)[j] == exec(calls + j, order[j]).(retry := 0)
  {
    if order != [] {
      var n := |order| - 1;
      RerunsAll(exec, os, calls, planId, order[..n]);
      var done := Reruns(exec, os, calls, planId, order[..n]);
      NotSucceeded(exec, os, calls, planId, order[..n], done, order[n].id);
      hide PutAll, SucceededIn, Disowns;
    }
  }

  lemma NotSucceeded(exec: Executor, os: seq<Outcome>, calls: nat, planId: string, order: seq<PlanStep>,
                     done: seq<Outcome>, sid: string)
    requires Disowns(exec, os, planId) && |done| == |order|
    requires forall j :: 0 <= j < |order| ==> done[j] == exec(calls + j, order[j]).(retry := 0)
    ensures !SucceededIn(PutAll(os, done), planId, sid)
  {
    forall p | p in PutAll(os, done)
      ensures p.planId != planId
    {
      PutAllMembers(os, done, p);
      if p in done {
        var j :| 0 <= j < |done| && done[j] == p;
      }
    }
  }

  /** What a run records was answered by the executor. */
  lemma {:induction false} JournalDisowned(exec: Executor, planId: string, first: nat, turns: seq<Turn>, o: Outcome)
    requires IsRun(exec, first, turns) && (forall n, s :: exec(n, s).planId != planId) && o in Journal(turns)
    ensures o.planId != planId
  {
    var n := |turns| - 1;
    var t := turns[n];
    assert o in Journal(turns[..n]) || o in t.attempts || o in t.reruns;
    hide IsTurn, Journal;
    if o in Journal(turns[..n]) {
      JournalDisowned(exec, planId, first, turns[..n], o);
    } else if o in t.attempts {
      var j :| 0 <= j < |t.attempts| && t.attempts[j] == o;
    } else {
      var j :| 0 <= j < |t.reruns| && t.reruns[j] == o;
      assert FirstAttempt(exec, t.start + |t.attempts| + j, t.step.id, t.reruns[j]);
    }
  }

  lemma DisownedLater(exec: Executor, os: seq<Outcome>, planId: string, first: nat, turns: seq<Turn>, t: Turn)
    requires Disowns(exec, os, planId) && IsRun(exec, first, turns) && IsTurnOf(exec, t)
    ensures Disowns(exec, PutAll(PutAll(os, Journal(turns)), t.attempts), planId)
  {
    forall o | o in PutAll(PutAll(os, Journal(turns)), t.attempts)
      ensures o.planId != planId
    {
      PutAllMembers(PutAll(os, Journal(turns)), t.attempts, o);
      if o in t.attempts {
        var j :| 0 <= j < |t.attempts| && t.attempts[j] == o;
      } else {
        PutAllMembers(os, Journal(turns), o);
        if o in Journal(turns) {
          JournalDisowned(exec, planId, first, turns, o);
        }
      }
    }
  }

  lemma {:induction false} RunFront(exec: Executor, first: nat, turns: seq<Turn>, i: nat)
    requires IsRun(exec, first, turns) && i < |turns|
    ensures IsRun(exec, first, turns[..i]) && IsTurnOf(exec, turns[i])
    decreases |turns|
  {
    var n := |turns| - 1;
    if i < n {
      RunFront(exec, first, turns[..n], i);
      assert turns[..n][..i] == turns[..i];
    }
  }

  /** If ids of adapted plans are nobody else's, each lost turn executes the whole adapted plan. */
  lemma PassesAreFull(exec: Executor, uuid: nat -> string, drawn: nat, os: seq<Outcome>, steps: seq<PlanStep>,
                      first: nat, turns: seq<Turn>)
    requires IsRun(exec, first, turns) && AllReplanned(exec, uuid, drawn, os, steps, turns)
    ensures Unclaimed(exec, os, uuid, drawn) ==>
              forall i :: 0 <= i < |turns| && !Won(turns[i].attempts) && !Raises(steps, turns[i]) ==>
                FullPass(exec, steps, turns[i])
  {
    hide Won, Raises, FullPass, Replanned, Losses, IsRun, Disowns;
    if Unclaimed(exec, os, uuid, drawn) {
      forall i | 0 <= i < |turns| && !Won(turns[i].attempts) && !Raises(steps, turns[i])
        ensures FullPass(exec, steps, turns[i])
      {
        var newId := uuid(drawn + 2 * Losses(turns[..i]) + 1);
        RunFront(exec, first, turns, i);
        DisownedLater(exec, os, newId, first, turns[..i], turns[i]);
        PassIsFull(exec, newId, PutAll(os, Journal(turns[..i])), steps, turns[i]);
      }
    }
  }

  lemma PassIsFull(exec: Executor, newId: string, os: seq<Outcome>, steps: seq<PlanStep>, t: Turn)
    requires Replanned(exec, newId, os, steps, t) && Disowns(exec, PutAll(os, t.attempts), newId)
    ensures FullPass(exec, steps, t)
  {
    hide PutAll, Reruns, Disowns, IsOrder;
    var order :| IsOrder(ById(SplitFailed(steps, t.step.id)), order)
              && t.reruns == Reruns(exec, PutAll(os, t.attempts), t.start + |t.attempts|, newId, order);
    RerunsAll(exec, PutAll(os, t.attempts), t.start + |t.attempts|, newId, order);
    assert PassOver(exec, t, order);
  }

  /** A run: turns that follow one another, starting at executor call number `first`. */
  ghost predicate IsRun(exec: Executor, first: nat, turns: seq<Turn>)
  {
    turns != [] ==>
      var n := |turns| - 1;
      && IsRun(exec, first, turns[..n])
      && turns[n].start == first + |Journal(turns[..n])|
      && IsTurnOf(exec, turns[n])
  }

  ghost function StepsOf(turns: seq<Turn>): seq<PlanStep>
  {
    seq(|turns|, i requires 0 <= i < |turns| => turns[i].step)
  }

  ghost predicate AllWon(turns: seq<Turn>)
  {
    forall i :: 0 <= i < |turns| ==> Won(turns[i].attempts)
  }

  /** Attempts the budgets allow. */
  ghost function Effort(turns: seq<Turn>): nat
  {
    if turns == [] then 0 else Effort(turns[..|turns| - 1]) + Max0(turns[|turns| - 1].step.budget) + 1
  }

  /** Steps that exhausted their budget. */
  ghost function Losses(turns: seq<Turn>): nat
  {
    if turns == [] then 0
    else Losses(turns[..|turns| - 1]) + if Won(turns[|turns| - 1].attempts) then 0 else 1
  }

  /** Attempts the budgets of a list of steps allow: the sum of (budget + 1). */
  ghost function BudgetOf(steps: seq<PlanStep>): nat
  {
    if steps == [] then 0 else BudgetOf(steps[..|steps| - 1]) + Max0(steps[|steps| - 1].budget) + 1
  }

  lemma {:induction false} BudgetTakeOut(steps: seq<PlanStep>, i: nat)
    requires i < |steps|
    ensures BudgetOf(steps) == BudgetOf(steps[..i] + steps[i + 1..]) + Max0(steps[i].budget) + 1
  {
    var n := |steps| - 1;
    if i == n {
      assert steps[..i] + steps[i + 1..] == steps[..n];
    } else {
      BudgetTakeOut(steps[..n], i);
      assert steps[..n][..i] + steps[..n][i + 1..] == (steps[..i] + steps[i + 1..])[..n - 1];
      assert (steps[..i] + steps[i + 1..])[n - 1] == steps[n];
    }
  }

  lemma {:induction false} BudgetPermutation(xs: seq<PlanStep>, ys: seq<PlanStep>)
    requires multiset(xs) == multiset(ys)
    ensures BudgetOf(xs) == BudgetOf(ys)
    decreases |xs|
  {
    if xs == [] {
      assert |multiset(ys)| == 0;
    } else {
      var n := |xs| - 1;
      var i := TakeOut(xs, ys);
      BudgetPermutation(xs[..n], ys[..i] + ys[i + 1..]);
      BudgetTakeOut(ys, i);
    }
  }

  /** The last element of a sequence can be taken out of any permutation of it. */
  lemma TakeOut<T>(xs: seq<T>, ys: seq<T>) returns (i: nat)
    requires xs != [] && multiset(xs) == multiset(ys)
    ensures i < |ys| && ys[i] == xs[|xs| - 1] && multiset(xs[..|xs| - 1]) == multiset(ys[..i] + ys[i + 1..])
  {
    var n := |xs| - 1;
    assert xs == xs[..n] + [xs[n]];
    assert xs[n] in multiset(ys);
    i :| 0 <= i < |ys| && ys[i] == xs[n];
    var front, rest := xs[..n], ys[..i] + ys[i + 1..];
    assert multiset(xs) == multiset(front) + multiset{xs[n]};
    assert multiset(ys) == multiset(rest) + multiset{xs[n]} by {
      assert ys == ys[..i] + [ys[i]] + ys[i + 1..];
    }
    assert multiset(front) == multiset(xs) - multiset{xs[n]};
    assert multiset(rest) == multiset(ys) - multiset{xs[n]};
  }

  lemma {:induction false} EffortIsBudget(turns: seq<Turn>)
    ensures Effort(turns) == BudgetOf(StepsOf(turns))
  {
    if turns != [] {
      EffortIsBudget(turns[..|turns| - 1]);
      assert StepsOf(turns)[..|turns| - 1] == StepsOf(turns[..|turns| - 1]);
    }
  }

  /** For a completed run of a plan with distinct ids, the effort is the plan's own sum of (budget + 1). */
  lemma EffortIsPlanned(steps: seq<PlanStep>, turns: seq<Turn>)
    requires Distinct(Ids(steps)) && IsOrder(ById(steps), StepsOf(turns))
    ensures Effort(turns) == BudgetOf(steps)
  {
    OrderIsPermutation(steps, StepsOf(turns));
    BudgetPermutation(StepsOf(turns), steps);
    EffortIsBudget(turns);
  }

  /** With fresh names, no adapted plan of an acyclic plan is cyclic. */
  lemma NoAdaptedCycle(steps: seq<PlanStep>, order: seq<PlanStep>)
    requires IsOrder(ById(steps), order)
    ensures FreshSplitNames(steps) ==> forall s :: s in order ==> !Cyclic(ById(SplitFailed(steps, s.id)))
  {
    if FreshSplitNames(steps) {
      OrderIsAcyclic(ById(steps), order);
      forall s | s in order
        ensures !Cyclic(ById(SplitFailed(steps, s.id)))
      {
        ByIdFacts(steps);
        assert s in steps;
        SplitAcyclic(steps, s.id, HalfNames(s.id).0, HalfNames(s.id).1);
      }
    }
  }

  lemma AddTurn(exec: Executor, first: nat, turns: seq<Turn>, t: Turn, n: nat)
    requires IsRun(exec, first, turns) && IsTurnOf(exec, t) && t.start == first + |Journal(turns)|
    requires |Journal(turns)| <= Effort(turns) + Losses(turns) * (n + 1)
    requires |t.reruns| <= n + 1
    ensures IsRun(exec, first, turns + [t])
    ensures Journal(turns + [t]) == Journal(turns) + t.attempts + t.reruns
    ensures |Journal(turns + [t])| <= Effort(turns + [t]) + Losses(turns + [t]) * (n + 1)
  {
    assert (turns + [t])[..|turns|] == turns;
    assert |t.attempts| <= Max0(t.step.budget) + 1;
    hide IsTurnOf, Max0;
    if !Won(t.attempts) {
      assert (Losses(turns) + 1) * (n + 1) == Losses(turns) * (n + 1) + (n + 1);
    } else {
      assert |t.reruns| == 0;
    }
  }

  /** What a run records are the executor's answers, one per call. */
  lemma {:induction false} JournalCalls(exec: Executor, first: nat, turns: seq<Turn>)
    requires IsRun(exec, first, turns)
    ensures forall j :: 0 <= j < |Journal(turns)| ==> IdOfCall(exec, first + j, Journal(turns)[j])
  {
    if turns != [] {
      var n := |turns| - 1;
      var t, before := turns[n], Journal(turns[..n]);
      JournalCalls(exec, first, turns[..n]);
      forall j | 0 <= j < |Journal(turns)|
        ensures IdOfCall(exec, first + j, Journal(turns)[j])
      {
        if j < |before| {
          assert Journal(turns)[j] == before[j];
        } else if j < |before| + |t.attempts| {
          assert Journal(turns)[j] == t.attempts[j - |before|];
        } else {
          var i := j - |before| - |t.attempts|;
          assert Journal(turns)[j] == t.reruns[i];
          assert FirstAttempt(exec, t.start + |t.attempts| + i, t.step.id, t.reruns[i]);
        }
      }
    }
  }

  /** An executor that answers for the step it is given, with ids of its own. */
  ghost predicate Lawful(exec: Executor, os: seq<Outcome>, calls: nat)
  {
    AnswersForItsStep(exec) && NewIds(exec, os, calls)
  }

  lemma JournalAppends(exec: Executor, os: seq<Outcome>, first: nat, turns: seq<Turn>)
    requires IsRun(exec, first, turns)
    ensures Lawful(exec, os, first) ==> PutAll(os, Journal(turns)) == os + Journal(turns)
  {
    if Lawful(exec, os, first) {
      JournalCalls(exec, first, turns);
      PutAllNew(exec, os, first, Journal(turns));
    }
  }

  /** A turn whose attempts are the step's and whose re-runs are others'. */
  ghost predicate OwnTurn(t: Turn)
  {
    && IsTurn(t.step, t.attempts)
    && (forall o :: o in t.attempts ==> o.stepId == t.step.id)
    && (Won(t.attempts) ==> t.reruns == [])
    && (forall o :: o in t.reruns ==> o.retry == 0 && o.stepId != t.step.id)
  }

  lemma AnswersOwnTurn(exec: Executor, t: Turn)
    requires AnswersForItsStep(exec) && IsTurnOf(exec, t)
    ensures OwnTurn(t)
  {
    forall o | o in t.reruns
      ensures o.retry == 0 && o.stepId != t.step.id
    {
      var j :| 0 <= j < |t.reruns| && t.reruns[j] == o;
      assert FirstAttempt(exec, t.start + |t.attempts| + j, t.step.id, t.reruns[j]);
    }
  }

  lemma StandingSelf(os: seq<Outcome>, t: Turn)
    requires OwnTurn(t)
    ensures LastOf(os + t.attempts + t.reruns, t.step.id).Some?
    ensures Settled(os, t.step) || (StaleSuccess(os, t.step) && Won(t.attempts)) ==>
              (StandsAsSuccess(os + t.attempts + t.reruns, t.step.id) <==> Won(t.attempts))
  {
    LastOfOthers(os + t.attempts, t.reruns, t.step.id);
    LastOfAppend(os, t.attempts, t.step.id);
    assert t.attempts[0] in t.attempts;
    if Settled(os, t.step) || (StaleSuccess(os, t.step) && Won(t.attempts)) {
      LastOfTurn(os, t.step, t.attempts);
    }
  }

  /** What a turn of one step means for another. */
  lemma StandingOther(os: seq<Outcome>, t: Turn, s: PlanStep)
    requires OwnTurn(t) && s.id != t.step.id
    ensures var after := os + t.attempts + t.reruns;
            && (Settled(os, s) ==> Settled(after, s))
            && (StaleSuccess(os, s) ==> StaleSuccess(after, s))
            && (LastOf(os, s.id).Some? ==> LastOf(after, s.id).Some?)
            && (Won(t.attempts) ==> LastOf(after, s.id) == LastOf(os, s.id))
  {
    LastOfOthers(os, t.attempts, s.id);
    LastOfAppend(os + t.attempts, t.reruns, s.id);
    if Won(t.attempts) {
      assert os + t.attempts + t.reruns == os + t.attempts;
    }
  }

  /** The first i steps have had their turns. */
  ghost predicate Taken(order: seq<PlanStep>, i: nat, turns: seq<Turn>)
    requires i <= |order|
  {
    Distinct(Ids(order)) && StepsOf(turns) == order[..i]
  }

  /** The first i steps have standing outcomes. */
  ghost predicate Covered(order: seq<PlanStep>, i: nat, os: seq<Outcome>)
    requires i <= |order|
  {
    forall j :: 0 <= j < i ==> LastOf(os, order[j].id).Some?
  }

  /** Where a run from a trusted journal stands after i steps: if none lost, every step so far
      stands as a success; else the step that lost most recently stands as a failure. Steps to
      come are trusted. */
  ghost predicate Progress(steps: seq<PlanStep>, order: seq<PlanStep>, i: nat, os: seq<Outcome>, turns: seq<Turn>,
                           loser: Option<nat>)
    requires i <= |order|
  {
    && (forall j :: i <= j < |order| ==> Trusted(steps, os, order[j]))
    && (AllWon(turns) <==> loser.None?)
    && (loser.None? ==> forall j :: 0 <= j < i ==> StandsAsSuccess(os, order[j].id))
    && (loser.Some? ==> loser.value < i && !StandsAsSuccess(os, order[loser.value].id))
  }

  lemma TurnEffects(order: seq<PlanStep>, i: nat, os: seq<Outcome>, t: Turn)
    requires i < |order| && Distinct(Ids(order)) && t.step == order[i] && OwnTurn(t)
    ensures var after := os + t.attempts + t.reruns;
            && LastOf(after, order[i].id).Some?
            && (Settled(os, order[i]) || (StaleSuccess(os, order[i]) && Won(t.attempts)) ==>
                  (StandsAsSuccess(after, order[i].id) <==> Won(t.attempts)))
    ensures var after := os + t.attempts + t.reruns;
            forall j :: 0 <= j < |order| && j != i ==>
              && (Settled(os, order[j]) ==> Settled(after, order[j]))
              && (StaleSuccess(os, order[j]) ==> StaleSuccess(after, order[j]))
              && (LastOf(os, order[j].id).Some? ==> LastOf(after, order[j].id).Some?)
              && (Won(t.attempts) ==> LastOf(after, order[j].id) == LastOf(os, order[j].id))
  {
    StandingSelf(os, t);
    forall j | 0 <= j < |order| && j != i
      ensures var after := os + t.attempts + t.reruns;
              && (Settled(os, order[j]) ==> Settled(after, order[j]))
              && (StaleSuccess(os, order[j]) ==> StaleSuccess(after, order[j]))
              && (LastOf(os, order[j].id).Some? ==> LastOf(after, order[j].id).Some?)
              && (Won(t.attempts) ==> LastOf(after, order[j].id) == LastOf(os, order[j].id))
    {
      assert Ids(order)[j] != Ids(order)[i];
      StandingOther(os, t, order[j]);
    }
  }

  lemma TakenStep(order: seq<PlanStep>, i: nat, turns: seq<Turn>, t: Turn)
    requires i < |order| && Taken(order, i, turns) && t.step == order[i]
    ensures Taken(order, i + 1, turns + [t]) && StepsOf(turns + [t]) <= order
  {
    assert StepsOf(turns + [t]) == order[..i + 1];
  }

  lemma CoveredStep(order: seq<PlanStep>, i: nat, os: seq<Outcome>, t: Turn)
    requires i < |order| && Distinct(Ids(order)) && Covered(order, i, os) && t.step == order[i] && OwnTurn(t)
    ensures Covered(order, i + 1, os + t.attempts + t.reruns)
  {
    hide LastOf, Settled, StaleSuccess, StandsAsSuccess;
    TurnEffects(order, i, os, t);
  }

  lemma ProgressStep(steps: seq<PlanStep>, order: seq<PlanStep>, i: nat, os: seq<Outcome>, turns: seq<Turn>,
                     loser: Option<nat>, t: Turn)
    requires i < |order| && Distinct(Ids(order)) && Progress(steps, order, i, os, turns, loser)
    requires t.step == order[i] && OwnTurn(t)
    requires Won(t.attempts) || !Cyclic(ById(SplitFailed(steps, t.step.id)))
    ensures Progress(steps, order, i + 1, os + t.attempts + t.reruns, turns + [t],
                     if Won(t.attempts) then loser else Some(i))
  {
    hide LastOf, Settled, StaleSuccess, Won, Cyclic, ById, SplitFailed;
    TurnEffects(order, i, os, t);
    assert (turns + [t])[|turns|] == t;
    assert forall j :: 0 <= j < |turns| ==> (turns + [t])[j] == turns[j];
  }

  /** What holds after i steps of a run of a lawful executor. */
  ghost predicate OnCourse(steps: seq<PlanStep>, order: seq<PlanStep>, i: nat, trusted: bool, os: seq<Outcome>,
                           turns: seq<Turn>, loser: Option<nat>)
    requires i <= |order|
  {
    Covered(order, i, os) && (trusted ==> Progress(steps, order, i, os, turns, loser))
  }

  lemma OnCourseStep(exec: Executor, steps: seq<PlanStep>, order: seq<PlanStep>, i: nat, trusted: bool,
                     os: seq<Outcome>, turns: seq<Turn>, loser: Option<nat>, t: Turn)
    requires i < |order| && Distinct(Ids(order)) && OnCourse(steps, order, i, trusted, os, turns, loser)
    requires AnswersForItsStep(exec) && IsTurnOf(exec, t) && t.step == order[i]
    requires Won(t.attempts) || !Cyclic(ById(SplitFailed(steps, t.step.id)))
    ensures OnCourse(steps, order, i + 1, trusted, os + t.attempts + t.reruns, turns + [t],
                     if Won(t.attempts) then loser else Some(i))
  {
    AnswersOwnTurn(exec, t);
    CoveredStep(order, i, os, t);
    if trusted {
      ProgressStep(steps, order, i, os, turns, loser, t);
    }
  }

  lemma RunStart(exec: Executor, first: nat, steps: seq<PlanStep>, order: seq<PlanStep>, os: seq<Outcome>)
    requires IsOrder(ById(steps), order)
    ensures IsRun(exec, first, []) && Journal([]) == [] && PutAll(os, []) == os
    ensures Taken(order, 0, []) && StepsOf([]) <= order
    ensures OnCourse(steps, order, 0, AllTrusted(os, steps), os, [], None)
  {
  }

  /** At the end of a run of a lawful executor every step has a standing outcome and, if the
      journal was trusted, the standing outcomes tell whether every step won. */
  lemma ProgressEnd(steps: seq<PlanStep>, order: seq<PlanStep>, trusted: bool, os: seq<Outcome>,
                    turns: seq<Turn>, loser: Option<nat>)
    requires IsOrder(ById(steps), order) && OnCourse(steps, order, |order|, trusted, os, turns, loser)
    ensures !Unanswered(os, steps)
    ensures trusted ==> (AllWon(turns) <==> AllStand(os, steps))
  {
    hide LastOf, StandsAsSuccess;
    ByIdFacts(steps);
    forall s | s in steps
      ensures exists j :: 0 <= j < |order| && order[j].id == s.id
    {
      assert s.id in Ids(order);
      var j :| 0 <= j < |order| && Ids(order)[j] == s.id;
      assert order[j].id == s.id;
    }
    if trusted && loser.Some? {
      assert order[loser.value] in steps;
    }
  }

  lemma TakenAll(steps: seq<PlanStep>, order: seq<PlanStep>, turns: seq<Turn>)
    requires IsOrder(ById(steps), order) && Taken(order, |order|, turns)
    ensures IsOrder(ById(steps), StepsOf(turns))
  {
    assert order[..|order|] == order;
  }

  lemma RunNothing(exec: Executor, first: nat, os: seq<Outcome>)
    ensures IsRun(exec, first, []) && Journal([]) == [] && PutAll(os, []) == os
  {
  }

  lemma LawfulAnswers(exec: Executor, os: seq<Outcome>, calls: nat)
    requires Lawful(exec, os, calls)
    ensures AnswersForItsStep(exec)
  {
  }

  /** One more turn's records, in general and for a lawful executor. */
  lemma JournalTurn(exec: Executor, os: seq<Outcome>, first: nat, turns: seq<Turn>, t: Turn)
    requires IsRun(exec, first, turns) && IsRun(exec, first, turns + [t])
    requires Journal(turns + [t]) == Journal(turns) + t.attempts + t.reruns
    ensures PutAll(os, Journal(turns + [t])) == PutAll(PutAll(os, Journal(turns)), t.attempts + t.reruns)
    ensures Lawful(exec, os, first) ==>
              PutAll(os, Journal(turns + [t])) == PutAll(os, Journal(turns)) + t.attempts + t.reruns
  {
    hide IsRun, Journal, PutAll, Lawful;
    PutAllConcat(os, Journal(turns), t.attempts + t.reruns);
    assert Journal(turns + [t]) == Journal(turns) + (t.attempts + t.reruns);
    JournalAppends(exec, os, first, turns);
    JournalAppends(exec, os, first, turns + [t]);
  }

  lemma TurnFacts(s: PlanStep, attempts: seq<Outcome>)
    requires IsTurn(s, attempts)
    ensures attempts != [] && (Won(attempts) <==> attempts[|attempts| - 1].status == "success")
  {
  }

  lemma TurnDone(exec: Executor, t: Turn)
    requires IsTurn(t.step, t.attempts)
    requires forall j :: 0 <= j < |t.attempts| ==> t.attempts[j] == exec(t.start + j, t.step).(retry := j)
    requires Won(t.attempts) ==> t.reruns == []
    requires FirstAttempts(exec, t.start + |t.attempts|, t.step.id, t.reruns)
    ensures IsTurnOf(exec, t)
  {
  }

  lemma OrderFacts(steps: seq<PlanStep>, order: seq<PlanStep>)
    requires IsOrder(ById(steps), order)
    ensures Distinct(Ids(order)) && forall i :: 0 <= i < |order| ==> order[i].id in ById(steps)
  {
  }

  /** The step lost, and the plan with the step split cannot be sorted. */
  ghost predicate Raises(steps: seq<PlanStep>, t: Turn)
  {
    !Won(t.attempts) && Cyclic(ById(SplitFailed(steps, t.step.id)))
  }

  /** No turn raises but, if `raised`, the last one. */
  ghost predicate RaisesLast(steps: seq<PlanStep>, turns: seq<Turn>, raised: bool)
  {
    && (raised ==> turns != [])
    && (forall i :: 0 <= i < |turns| ==> (Raises(steps, turns[i]) <==> raised && i == |turns| - 1))
  }

  lemma RaisesIs(steps: seq<PlanStep>, t: Turn)
    ensures Raises(steps, t) <==> !Won(t.attempts) && Cyclic(ById(SplitFailed(steps, t.step.id)))
  {
  }

  lemma RaisesNone(steps: seq<PlanStep>)
    ensures RaisesLast(steps, [], false)
  {
  }

  lemma RaisesNext(steps: seq<PlanStep>, turns: seq<Turn>, t: Turn)
    requires RaisesLast(steps, turns, false)
    ensures RaisesLast(steps, turns + [t], !Won(t.attempts) && Cyclic(ById(SplitFailed(steps, t.step.id))))
  {
    hide Won, Cyclic, ById, SplitFailed;
  }

  lemma RaisedOnce(steps: seq<PlanStep>, order: seq<PlanStep>, turns: seq<Turn>)
    requires RaisesLast(steps, turns, true) && StepsOf(turns) <= order
    ensures exists s :: s in order && Cyclic(ById(SplitFailed(steps, s.id)))
  {
    var t := turns[|turns| - 1];
    assert Raises(steps, t);
    assert t.step == StepsOf(turns)[|turns| - 1];
    assert t.step in order;
  }

  /** The halves' names are new for every step of the plan. */
  ghost predicate FreshSplitNames(steps: seq<PlanStep>)
  {
    forall s :: s in steps ==> Fresh(steps, s.id, HalfNames(s.id).0, HalfNames(s.id).1)
  }

  class Planner {
    var plans: map<string, Plan>
    var outcomes: seq<Outcome>
    var calls: nat           // executor calls awaited so far
    var drawn: nat           // unique ids drawn so far
    ghost var slept: nat     // total backoff awaited so far

    constructor ()
      ensures plans == map[] && outcomes == [] && calls == 0 && drawn == 0 && slept == 0
    {
      plans, outcomes, calls, drawn, slept := map[], [], 0, 0, 0;
    }

    method Record(o: Outcome)
      modifies this`outcomes
      ensures outcomes == Put(old(outcomes), o)
    {
      outcomes := Put(outcomes, o);
    }

    /** The fold over the journal. */
    method LastOutcome(sid: string) returns (last: Option<Outcome>)
      ensures last == LastOf(outcomes, sid)
    {
      last := None;
      for i := 0 to |outcomes|
        invariant last == LastOf(outcomes[..i], sid)
      {
        assert outcomes[..i + 1][..i] == outcomes[..i];
        var o := outcomes[i];
        if o.stepId == sid {
          if last.None? || o.retry >= last.value.retry {
            last := Some(o);
          }
        }
      }
      assert outcomes[..|outcomes|] == outcomes;
    }

    method AlreadySucceeded(planId: string, s: PlanStep) returns (b: bool)
      ensures b <==> exists o :: o in outcomes && o.planId == planId && o.stepId == s.id && o.status == "success"
    {
      for i := 0 to |outcomes|
        invariant forall j :: 0 <= j < i ==>
                    !(outcomes[j].planId == planId && outcomes[j].stepId == s.id && outcomes[j].status == "success")
      {
        var o := outcomes[i];
        if o.planId == planId && o.stepId == s.id && o.status == "success" {
          return true;
        }
      }
      return false;
    }

    /** One executor call whose answer enters the journal with the given retry count. */
    method Call(s: PlanStep, exec: Executor, retry: nat) returns (o: Outcome)
      modifies this`outcomes, this`calls
      ensures o == exec(old(calls), s).(retry := retry)
      ensures outcomes == Put(old(outcomes), o) && calls == old(calls) + 1
    {
      o := exec(calls, s);
      o := o.(retry := retry);
      calls := calls + 1;
      Record(o);
    }

    /** The retry loop: success, or every attempt of the budget used up; a step retried k times
        sleeps 1 + 2 + ... = 2^k - 1 in all. */
    method Attempt(s: PlanStep, exec: Executor) returns (o: Outcome, ghost attempts: seq<Outcome>)
      modifies this`outcomes, this`calls, this`slept
      ensures IsTurn(s, attempts) && o == attempts[|attempts| - 1]
      ensures forall j :: 0 <= j < |attempts| ==> attempts[j] == exec(old(calls) + j, s).(retry := j)
      ensures outcomes == PutAll(old(outcomes), attempts) && calls == old(calls) + |attempts|
      ensures slept == old(slept) + Pow2(|attempts| - 1) - 1
    {
      hide Put, PutAll;
      var budget, retry := s.budget, 0;
      attempts := [];
      PutNothing(outcomes);
      while true
        invariant |attempts| == retry && budget == s.budget - retry && (retry > 0 ==> budget >= 0)
        invariant forall j :: 0 <= j < retry ==> attempts[j].retry == j && attempts[j].status != "success"
        invariant forall j :: 0 <= j < retry ==> attempts[j] == exec(old(calls) + j, s).(retry := j)
        invariant outcomes == PutAll(old(outcomes), attempts) && calls == old(calls) + retry
        invariant slept == old(slept) + Pow2(retry) - 1
        decreases Max0(budget)
      {
        o := Call(s, exec, retry);
        PutAllNext(old(outcomes), attempts, o);
        attempts := attempts + [o];
        if o.status == "success" {
          return;
        }
        if budget > 0 {
          budget := budget - 1;
          retry := retry + 1;
          slept := slept + Pow2(retry - 1);
          continue;
        }
        return;
      }
    }

    /** One pass over the adapted plan, without retries, skipping steps that already succeeded in it. */
    method Rerun(planId: string, order: seq<PlanStep>, exec: Executor) returns (ghost reruns: seq<Outcome>)
      modifies this`outcomes, this`calls
      ensures outcomes == PutAll(old(outcomes), reruns) && calls == old(calls) + |reruns|
      ensures reruns == Reruns(exec, old(outcomes), old(calls), planId, order)
    {
      hide Reruns, Put, PutAll;
      reruns := [];
      assert order[..0] == [];
      RerunsNone(exec, outcomes, calls, planId);
      PutNothing(outcomes);
      for i := 0 to |order|
        invariant outcomes == PutAll(old(outcomes), reruns) && calls == old(calls) + |reruns|
        invariant reruns == Reruns(exec, old(outcomes), old(calls), planId, order[..i])
      {
        RerunsNext(exec, old(outcomes), old(calls), planId, order, i);
        var done := AlreadySucceeded(planId, order[i]);
        if done {
          continue;
        }
        var res := Call(order[i], exec, 0);
        PutAllNext(old(outcomes), reruns, res);
        reruns := reruns + [res];
      }
      assert order[..|order|] == order;
    }

    /** Replanning after `s` has exhausted its budget: a new plan with the step split, and one
        pass over it. The pass never runs the failed step itself. */
    method Adapt(planId: string, s: PlanStep, exec: Executor, uuid: nat -> string)
      returns (cycle: Option<string>, ghost reruns: seq<Outcome>)
      requires planId in plans && s.id in ById(plans[planId].steps)
      requires forall n :: n >= drawn ==> uuid(n) != planId
      modifies this`plans, this`drawn, this`outcomes, this`calls
      ensures outcomes == PutAll(old(outcomes), reruns) && calls == old(calls) + |reruns|
      ensures drawn == old(drawn) + 2 && planId in plans && plans[planId].steps == old(plans[planId].steps)
      ensures plans == Replan(old(plans), planId, uuid(old(drawn) + 1), s.id)
      ensures cycle.None? ==>
                exists order :: IsOrder(ById(SplitFailed(old(plans[planId].steps), s.id)), order)
                             && reruns == Reruns(exec, old(outcomes), old(calls), uuid(old(drawn) + 1), order)
      ensures cycle.Some? ==> reruns == []
      ensures |reruns| <= |old(plans[planId].steps)| + 1
      ensures FirstAttempts(exec, old(calls), s.id, reruns)
      ensures cycle.Some? <==> Cyclic(ById(SplitFailed(old(plans[planId].steps), s.id)))
    {
      hide Cyclic, ById, HalfNames, SplitFailed, Split, Put, PutAll, Reruns, FirstAttempts;
      reruns := [];
      PutNothing(outcomes);
      FirstAttemptsNone(exec, calls, s.id);
      var steps := plans[planId].steps;
      var newSteps := ReplanStepFailed(steps, s.id);
      var newId := uuid(drawn + 1);
      drawn := drawn + 2;
      plans := plans[newId := Plan(newSteps, Adapted, plans[planId].version + 1)];
      plans := plans[planId := plans[planId].(status := Adapted)];
      var sorted := Toposort(plans[newId].steps);
      if sorted.CycleAt? {
        return Some(sorted.id), reruns;
      }
      SplitOrderSize(steps, s.id, sorted.order);
      RerunsFacts(exec, outcomes, calls, newId, sorted.order, s.id);
      reruns := Rerun(newId, sorted.order, exec);
      cycle := None;
    }

    /** A step's whole turn: its attempts and, once they are exhausted, the adapted plan. */
    method ExecuteStepWithRetry(planId: string, s: PlanStep, exec: Executor, uuid: nat -> string)
      returns (r: TurnResult, ghost t: Turn)
      requires planId in plans && s.id in ById(plans[planId].steps)
      requires forall n :: n >= drawn ==> uuid(n) != planId
      modifies this
      ensures t.step == s && t.start == old(calls) && IsTurnOf(exec, t)
      ensures outcomes == PutAll(old(outcomes), t.attempts + t.reruns)
      ensures calls == old(calls) + |t.attempts| + |t.reruns|
      ensures slept == old(slept) + Pow2(|t.attempts| - 1) - 1
      ensures planId in plans && plans[planId].steps == old(plans[planId].steps)
      ensures drawn == old(drawn) + if Won(t.attempts) then 0 else 2
      ensures plans == if Won(t.attempts) then old(plans) else Replan(old(plans), planId, uuid(old(drawn) + 1), s.id)
      ensures Won(t.attempts) ==> r == Returned(t.attempts[|t.attempts| - 1])
      ensures r.Returned? && !Won(t.attempts) ==>
                Replanned(exec, uuid(old(drawn) + 1), old(outcomes), old(plans[planId].steps), t)
      ensures |t.reruns| <= |plans[planId].steps| + 1
      ensures r.Returned? && !Won(t.attempts) ==>
                r.outcome == if LastOf(outcomes, s.id).Some?
                    then LastOf(outcomes, s.id).value else t.attempts[|t.attempts| - 1]
      ensures r.SplitCycle? <==> !Won(t.attempts) && Cyclic(ById(SplitFailed(plans[planId].steps, s.id)))
    {
      hide *;
      ghost var start := calls;
      var o;
      ghost var attempts, reruns := [], [];
      o, attempts := Attempt(s, exec);
      FirstAttemptsNone(exec, calls, s.id);
      TurnFacts(s, attempts);
      assert attempts + [] == attempts;
      r := Returned(o);
      if o.status != "success" {
        var cycle;
        cycle, reruns := Adapt(planId, s, exec, uuid);
        PutAllConcat(old(outcomes), attempts, reruns);
        if cycle.Some? {
          r := SplitCycle(cycle.value);
        } else {
          var last := LastOutcome(s.id);
          r := Returned(if last.Some? then last.value else o);
        }
      }
      t := Turn(s, start, attempts, reruns);
      TurnDone(exec, t);
      if r.Returned? && !Won(attempts) {
        ghost var newId := uuid(old(drawn) + 1);
        var order :| IsOrder(ById(SplitFailed(old(plans[planId].steps), s.id)), order)
                  && reruns == Reruns(exec, PutAll(old(outcomes), attempts), start + |attempts|, newId, order);
        ReplannedBy(exec, newId, old(outcomes), old(plans[planId].steps), t, order);
      }
    }

    /** Whether every listed step stands as a success, read in order up to the first that does
        not; a step without any outcome makes the reading fail. */
    method AllSucceeded(steps: seq<PlanStep>) returns (b: Option<bool>)
      ensures b == Some(true) <==> AllStand(outcomes, steps)
      ensures b.None? <==> Unanswered(outcomes, steps)
    {
      hide LastOf;
      for i := 0 to |steps|
        invariant forall j :: 0 <= j < i ==> StandsAsSuccess(outcomes, steps[j].id)
      {
        var last := LastOutcome(steps[i].id);
        if last.None? {
          return None;
        }
        if last.value.status != "success" {
          assert !StandsAsSuccess(outcomes, steps[i].id);
          return Some(false);
        }
      }
      return Some(true);
    }

    /** The turns of all steps, in the sorted order. */
    method RunSteps(planId: string, order: seq<PlanStep>, exec: Executor, uuid: nat -> string)
      returns (cycle: Option<string>, ghost turns: seq<Turn>, ghost loser: Option<nat>)
      requires planId in plans && IsOrder(ById(plans[planId].steps), order)
      requires forall n :: n >= drawn ==> uuid(n) != planId
      modifies this
      ensures IsRun(exec, old(calls), turns) && outcomes == PutAll(old(outcomes), Journal(turns))
      ensures calls == old(calls) + |Journal(turns)|
      ensures |Journal(turns)| <= Effort(turns) + Losses(turns) * (|old(plans[planId].steps)| + 1)
      ensures planId in plans && plans[planId].steps == old(plans[planId].steps)
      ensures cycle.None? ==> Taken(order, |order|, turns)
      ensures cycle.None? && Lawful(exec, old(outcomes), old(calls)) ==>
                OnCourse(plans[planId].steps, order, |order|, AllTrusted(old(outcomes), plans[planId].steps), outcomes,
                         turns, loser)
      ensures RaisesLast(plans[planId].steps, turns, cycle.Some?) && StepsOf(turns) <= order
      ensures plans == Stored(old(plans), planId, uuid, old(drawn), turns) && drawn == old(drawn) + 2 * Losses(turns)
      ensures AllReplanned(exec, uuid, old(drawn), old(outcomes), plans[planId].steps, turns)
    {
      hide *;
      turns, loser, cycle := [], None, None;
      ghost var steps := plans[planId].steps;
      OrderFacts(steps, order);
      RunStart(exec, calls, steps, order, outcomes);
      RaisesNone(steps);
      ReplannedNone(exec, uuid, drawn, outcomes, plans, planId);
      ghost var trusted, lawful := AllTrusted(outcomes, steps), Lawful(exec, outcomes, calls);
      for i := 0 to |order|
        invariant planId in plans && plans[planId].steps == steps
        invariant plans == Stored(old(plans), planId, uuid, old(drawn), turns)
        invariant drawn == old(drawn) + 2 * Losses(turns)
        invariant AllReplanned(exec, uuid, old(drawn), old(outcomes), steps, turns)
        invariant IsRun(exec, old(calls), turns) && outcomes == PutAll(old(outcomes), Journal(turns))
        invariant calls == old(calls) + |Journal(turns)|
        invariant |Journal(turns)| <= Effort(turns) + Losses(turns) * (|steps| + 1)
        invariant Taken(order, i, turns) && StepsOf(turns) <= order
        invariant lawful ==> OnCourse(steps, order, i, trusted, outcomes, turns, loser)
        invariant RaisesLast(steps, turns, false)
      {
        ghost var before, done := outcomes, turns;
        var turn;
        ghost var t;
        turn, t := ExecuteStepWithRetry(planId, order[i], exec, uuid);
        AddTurn(exec, old(calls), done, t, |steps|);
        RaisesNext(steps, done, t);
        StoredNext(old(plans), planId, uuid, old(drawn), done, t);
        RaisesIs(steps, t);
        ReplannedNext(exec, uuid, old(drawn), old(outcomes), steps, done, t);
        TakenStep(order, i, done, t);
        turns := done + [t];
        JournalTurn(exec, old(outcomes), old(calls), done, t);
        if turn.SplitCycle? {
          cycle := Some(turn.id);
          return;
        }
        if lawful {
          LawfulAnswers(exec, old(outcomes), old(calls));
          OnCourseStep(exec, steps, order, i, trusted, before, done, loser, t);
        }
        loser := if Won(t.attempts) then loser else Some(i);
      }
    }

    /** Runs a plan. It ends COMPLETED exactly when every step stands as a success. For an executor
        that answers for its step with new outcome ids, and from a trusted journal, that is when
        every step succeeded within its own retry budget, whatever the re-runs in adapted plans
        recorded. It raises exactly on an unknown plan, a cyclic one, a step lost whose split is
        cyclic, and a step without an outcome; the number of executor calls is bounded by the
        budgets and the number of exhausted steps. */
    method ExecutePlan(planId: string, exec: Executor, uuid: nat -> string)
      returns (r: RunResult, ghost turns: seq<Turn>)
      requires forall n :: n >= drawn ==> uuid(n) != planId
      modifies this
      ensures r.UnknownPlan? <==> planId !in old(plans)
      ensures r.PlanCycle? <==> planId in old(plans) && Cyclic(ById(old(plans[planId].steps)))
      ensures IsRun(exec, old(calls), turns) && outcomes == PutAll(old(outcomes), Journal(turns))
      ensures Lawful(exec, old(outcomes), old(calls)) ==> outcomes == old(outcomes) + Journal(turns)
      ensures calls == old(calls) + |Journal(turns)|
      ensures r.UnknownPlan? || r.PlanCycle? ==> turns == []
      ensures planId in old(plans) ==>
                |Journal(turns)| <= Effort(turns) + Losses(turns) * (|old(plans[planId].steps)| + 1)
      ensures r.Done? || r.NoOutcome? ==> IsOrder(ById(old(plans[planId].steps)), StepsOf(turns))
      ensures r.Done? ==> r.status == if AllStand(outcomes, old(plans[planId].steps)) then Completed else Adapted
      ensures r.Done? && Lawful(exec, old(outcomes), old(calls))
                && AllTrusted(old(outcomes), old(plans[planId].steps)) ==>
                r.status == if AllWon(turns) then Completed else Adapted
      ensures r.Done? ==> planId in plans && plans[planId].status == r.status
      ensures planId in old(plans) ==>
                && AllReplanned(exec, uuid, old(drawn), old(outcomes), old(plans[planId].steps), turns)
                && drawn == old(drawn) + 2 * Losses(turns)
                && var active := old(plans)[planId := old(plans[planId]).(status := Active)];
                   var after := Stored(active, planId, uuid, old(drawn), turns);
                   plans == if r.Done? then after[planId := after[planId].(status := r.status)] else after
      ensures planId in old(plans) ==> RaisesLast(old(plans[planId].steps), turns, r.AdaptedCycle?)
      ensures planId in old(plans) && FreshSplitNames(old(plans[planId].steps)) ==> !r.AdaptedCycle?
      ensures planId in old(plans) && Unclaimed(exec, old(outcomes), uuid, old(drawn)) ==>
                var steps := old(plans[planId].steps);
                forall i :: 0 <= i < |turns| && !Won(turns[i].attempts) && !Raises(steps, turns[i]) ==>
                  FullPass(exec, steps, turns[i])
      ensures r.Done? || r.NoOutcome? ==> (r.NoOutcome? <==> Unanswered(outcomes, old(plans[planId].steps)))
      ensures Lawful(exec, old(outcomes), old(calls)) ==> !r.NoOutcome?
    {
      hide *;
      turns := [];
      if planId in plans {
        PassesAreFull(exec, uuid, drawn, outcomes, plans[planId].steps, calls, []) by {
          RunNothing(exec, calls, outcomes);
          ReplannedNone(exec, uuid, drawn, outcomes, plans, planId);
        }
      }
      RunNothing(exec, calls, outcomes);
      if planId !in plans {
        return UnknownPlan, turns;
      }
      plans := plans[planId := plans[planId].(status := Active)];
      var steps := plans[planId].steps;
      var sorted := Toposort(steps);
      if sorted.CycleAt? {
        RaisesNone(steps);
        ReplannedNone(exec, uuid, drawn, outcomes, plans, planId);
        return PlanCycle(sorted.id), turns;
      }
      var cycle;
      ghost var loser;
      cycle, turns, loser := RunSteps(planId, sorted.order, exec, uuid);
      JournalAppends(exec, old(outcomes), old(calls), turns);
      PassesAreFull(exec, uuid, old(drawn), old(outcomes), steps, old(calls), turns);
      if cycle.Some? {
        NoAdaptedCycle(steps, sorted.order);
        RaisedOnce(steps, sorted.order, turns);
        return AdaptedCycle(cycle.value), turns;
      }
      TakenAll(steps, sorted.order, turns);
      if Lawful(exec, old(outcomes), old(calls)) {
        ProgressEnd(steps, sorted.order, AllTrusted(old(outcomes), steps), outcomes, turns, loser);
      }
      var ok := AllSucceeded(steps);
      if ok.None? {
        return NoOutcome, turns;
      }
      r := Done(if ok.value then Completed else Adapted);
      plans := plans[planId := plans[planId].(status := r.status)];
    }
  }

  // ---- journals that are not trusted ----

  /** The step stands as a failure that a first attempt cannot replace. */
  ghost predicate StaleFailure(os: seq<Outcome>, sid: string)
  {
    LastOf(os, sid).Some? && LastOf(os, sid).value.retry >= 1 && !StandsAsSuccess(os, sid)
  }

  /** The step to fail, if any, for the journal to give the wrong status. */
  ghost predicate Misleads(os: seq<Outcome>, steps: seq<PlanStep>, bad: Option<string>)
  {
    match bad
    case None => exists k :: k in ById(steps) && StaleFailure(os, k)
    case Some(b) =>
      && b in ById(steps) && StaleSuccess(os, ById(steps)[b]) && !Cyclic(ById(SplitFailed(steps, b)))
      && forall k :: k in ById(steps) ==> !StaleFailure(os, k)
  }

  /** A journal can be trusted for a plan exactly when no choice of a failing step makes it mislead. */
  lemma UntrustedMisleads(os: seq<Outcome>, steps: seq<PlanStep>)
    ensures AllTrusted(os, steps) <==> forall bad :: !Misleads(os, steps, bad)
  {
    hide Cyclic, SplitFailed;
    ByIdFacts(steps);
    if !AllTrusted(os, steps) {
      var k :| k in ById(steps) && !Trusted(steps, os, ById(steps)[k]);
      if exists j :: j in ById(steps) && StaleFailure(os, j) {
        assert Misleads(os, steps, None);
      } else {
        assert Misleads(os, steps, Some(k));
      }
    }
  }

  function Longest(os: seq<Outcome>): nat
  {
    if os == [] then 0
    else
      var n, m := Longest(os[..|os| - 1]), |os[|os| - 1].id|;
      if n < m then m else n
  }

  lemma {:induction false} LongestBounds(os: seq<Outcome>, o: Outcome)
    requires o in os
    ensures |o.id| <= Longest(os)
  {
    var n := |os| - 1;
    if o != os[n] {
      LongestBounds(os[..n], o);
    }
  }

  /** An executor that fails the step called `bad`, if any, and no other; outcome ids are new. */
  function FailsOnly(base: nat, bad: Option<string>): Executor
  {
    (n: nat, s: PlanStep) =>
      Outcome(seq(base + n + 1, _ => 'x'), "", s.id, if bad == Some(s.id) then "failure" else "success", 0)
  }

  lemma FailsOnlyAllowed(os: seq<Outcome>, bad: Option<string>, calls: nat)
    ensures Lawful(FailsOnly(Longest(os), bad), os, calls)
  {
    forall o | o in os
      ensures |o.id| <= Longest(os)
    {
      LongestBounds(os, o);
    }
    var exec := FailsOnly(Longest(os), bad);
    assert forall n, s :: |exec(n, s).id| == Longest(os) + n + 1;
  }

  ghost predicate AnsweredBy(bad: Option<string>, limit: nat, o: Outcome)
  {
    if bad == Some(o.stepId) then o.status == "failure" && o.retry <= limit else o.status == "success" && o.retry == 0
  }

  /** What a turn under that executor records. */
  lemma FailsOnlyTurn(base: nat, bad: Option<string>, limit: nat, t: Turn)
    requires IsTurnOf(FailsOnly(base, bad), t)
    requires bad == Some(t.step.id) ==> Max0(t.step.budget) <= limit
    ensures Won(t.attempts) <==> bad != Some(t.step.id)
    ensures t.attempts != [] && t.attempts[0].stepId == t.step.id
    ensures forall o :: o in t.attempts + t.reruns ==> AnsweredBy(bad, limit, o)
  {
  }

  /** What a run under that executor records, and who wins. */
  ghost predicate Reported(bad: Option<string>, limit: nat, turns: seq<Turn>)
  {
    && (forall o :: o in Journal(turns) ==> AnsweredBy(bad, limit, o))
    && (forall t :: t in turns ==> LastOf(Journal(turns), t.step.id).Some?)
    && (AllWon(turns) <==> forall t :: t in turns ==> bad != Some(t.step.id))
  }

  lemma ReportedNone(bad: Option<string>, limit: nat)
    ensures Reported(bad, limit, [])
  {
  }

  lemma RunLast(exec: Executor, first: nat, turns: seq<Turn>)
    requires turns != [] && IsRun(exec, first, turns)
    ensures IsRun(exec, first, turns[..|turns| - 1]) && IsTurnOf(exec, turns[|turns| - 1])
  {
  }

  lemma {:induction false} FailsOnlyRun(base: nat, bad: Option<string>, limit: nat, first: nat, turns: seq<Turn>)
    requires IsRun(FailsOnly(base, bad), first, turns)
    requires forall t :: t in turns && bad == Some(t.step.id) ==> Max0(t.step.budget) <= limit
    ensures Reported(bad, limit, turns)
  {
    hide *;
    if turns == [] {
      ReportedNone(bad, limit);
    } else {
      var n := |turns| - 1;
      var t, done := turns[n], turns[..n];
      RunLast(FailsOnly(base, bad), first, turns);
      FailsOnlyRun(base, bad, limit, first, done);
      FailsOnlyTurn(base, bad, limit, t);
      assert turns == done + [t];
      ReportedNext(bad, limit, done, t);
    }
  }

  lemma ReportedNext(bad: Option<string>, limit: nat, done: seq<Turn>, t: Turn)
    requires Won(t.attempts) <==> bad != Some(t.step.id)
    requires t.attempts != [] && t.attempts[0].stepId == t.step.id
    requires forall o :: o in t.attempts + t.reruns ==> AnsweredBy(bad, limit, o)
    requires Reported(bad, limit, done)
    ensures Reported(bad, limit, done + [t])
  {
    hide Won, LastOf, AnsweredBy;
    var turns := done + [t];
    assert turns[..|done|] == done;
    assert Journal(turns) == Journal(done) + (t.attempts + t.reruns);
    assert t.attempts[0] in t.attempts + t.reruns;
    forall t' | t' in turns
      ensures LastOf(Journal(turns), t'.step.id).Some?
    {
      LastOfAppend(Journal(done), t.attempts + t.reruns, t'.step.id);
      assert t' in done || t' == t;
    }
    assert AllWon(turns) <==> AllWon(done) && Won(t.attempts) by {
      assert forall i :: 0 <= i < |done| ==> turns[i] == done[i];
      assert turns[|done|] == t;
    }
  }

  /** Every step of the plan has its turn in a full run. */
  lemma TurnOf(steps: seq<PlanStep>, turns: seq<Turn>, k: string) returns (t: Turn)
    requires IsOrder(ById(steps), StepsOf(turns)) && k in ById(steps)
    ensures t in turns && t.step == ById(steps)[k] && t.step.id == k
  {
    var i :| 0 <= i < |turns| && Ids(StepsOf(turns))[i] == k;
    t := turns[i];
    assert t.step == StepsOf(turns)[i];
  }

  /** After such a run the standing outcomes say the opposite of what happened. */
  lemma MisledStatus(base: nat, steps: seq<PlanStep>, bad: Option<string>, os: seq<Outcome>, first: nat,
                     turns: seq<Turn>)
    requires Misleads(os, steps, bad) && IsOrder(ById(steps), StepsOf(turns))
    requires IsRun(FailsOnly(base, bad), first, turns)
    ensures AllStand(os + Journal(turns), steps) <==> !AllWon(turns)
  {
    hide IsRun, FailsOnly, LastOf, Cyclic, SplitFailed, StandsAsSuccess, IsOrder;
    ByIdFacts(steps);
    if bad.None? {
      FailsOnlyRun(base, bad, 0, first, turns);
      var k :| k in ById(steps) && StaleFailure(os, k);
      hide ById;
      StaysStale(os, steps, k, turns);
      assert ById(steps)[k] in steps;
    } else {
      TurnsOfSteps(steps, turns);
      FailsOnlyRun(base, bad, Max0(ById(steps)[bad.value].budget), first, turns);
      hide ById;
      LoserHidden(os, steps, bad.value, turns);
    }
  }

  lemma TurnsOfSteps(steps: seq<PlanStep>, turns: seq<Turn>)
    requires IsOrder(ById(steps), StepsOf(turns))
    ensures forall t :: t in turns ==> t.step.id in ById(steps) && ById(steps)[t.step.id] == t.step
  {
    forall t | t in turns
      ensures t.step.id in ById(steps) && ById(steps)[t.step.id] == t.step
    {
      var i :| 0 <= i < |turns| && turns[i] == t;
      assert StepsOf(turns)[i] == t.step;
    }
  }

  /** First attempts leave a stale failure standing. */
  lemma StaysStale(os: seq<Outcome>, steps: seq<PlanStep>, k: string, turns: seq<Turn>)
    requires StaleFailure(os, k) && Reported(None, 0, turns)
    ensures !StandsAsSuccess(os + Journal(turns), k) && AllWon(turns)
  {
    hide LastOf, AllWon;
    LastOfAppend(os, Journal(turns), k);
  }

  /** A stale success hides the only loser, and nobody else stands as a failure. */
  lemma LoserHidden(os: seq<Outcome>, steps: seq<PlanStep>, b: string, turns: seq<Turn>)
    requires b in ById(steps) && IsOrder(ById(steps), StepsOf(turns))
    requires StaleSuccess(os, ById(steps)[b]) && forall k :: k in ById(steps) ==> !StaleFailure(os, k)
    requires Reported(Some(b), Max0(ById(steps)[b].budget), turns)
    ensures AllStand(os + Journal(turns), steps) && !AllWon(turns)
  {
    hide LastOf, AllWon, Journal, IsOrder, ById;
    ByIdFacts(steps);
    var t := TurnOf(steps, turns, b);
    forall s | s in steps
      ensures StandsAsSuccess(os + Journal(turns), s.id)
    {
      LastOfAppend(os, Journal(turns), s.id);
      if s.id != b {
        var t' := TurnOf(steps, turns, s.id);
        var k := LastOfIsLatestHighest(Journal(turns), s.id);
      }
    }
  }

  /** Under that executor no turn raises, unless it is that of a failing step whose split is cyclic. */
  lemma {:induction false} FailsOnlyKeeps(base: nat, bad: Option<string>, steps: seq<PlanStep>, first: nat,
                                          turns: seq<Turn>)
    requires turns != [] && IsRun(FailsOnly(base, bad), first, turns)
    requires bad.Some? ==> !Cyclic(ById(SplitFailed(steps, bad.value)))
    ensures !RaisesLast(steps, turns, true)
  {
    hide *;
    var t := turns[|turns| - 1];
    RunLast(FailsOnly(base, bad), first, turns);
    FailsOnlyTurn(base, bad, Max0(t.step.budget), t);
    RaisesWhen(steps, turns);
  }

  lemma RaisesWhen(steps: seq<PlanStep>, turns: seq<Turn>)
    requires turns != []
    ensures RaisesLast(steps, turns, true) ==>
              var t := turns[|turns| - 1];
              !Won(t.attempts) && Cyclic(ById(SplitFailed(steps, t.step.id)))
  {
    if RaisesLast(steps, turns, true) {
      assert Raises(steps, turns[|turns| - 1]);
    }
  }

  lemma RaisesSome(steps: seq<PlanStep>, turns: seq<Turn>)
    requires RaisesLast(steps, turns, true)
    ensures turns != []
  {
  }

  /** Whatever the journal cannot be trusted for, the executor chosen for it gets the wrong status:
      ADAPTED though every step won, or COMPLETED though one exhausted its budget. */
  method MisledRun(p: Planner, planId: string, bad: Option<string>, uuid: nat -> string)
    returns (r: RunResult, ghost turns: seq<Turn>)
    requires planId in p.plans && !Cyclic(ById(p.plans[planId].steps))
    requires Misleads(p.outcomes, p.plans[planId].steps, bad)
    requires forall n :: n >= p.drawn ==> uuid(n) != planId
    modifies p
    ensures IsRun(FailsOnly(Longest(old(p.outcomes)), bad), old(p.calls), turns)
    ensures r.Done? && IsOrder(ById(old(p.plans[planId].steps)), StepsOf(turns))
    ensures r.status == if AllWon(turns) then Adapted else Completed
  {
    hide *;
    var base, steps := Longest(p.outcomes), p.plans[planId].steps;
    FailsOnlyAllowed(p.outcomes, bad, p.calls);
    MisleadsSplit(p.outcomes, steps, bad);
    r, turns := p.ExecutePlan(planId, FailsOnly(base, bad), uuid);
    if r.AdaptedCycle? {
      RaisesSome(steps, turns);
      FailsOnlyKeeps(base, bad, steps, old(p.calls), turns);
      assert false;
    }
    MisledStatus(base, steps, bad, old(p.outcomes), old(p.calls), turns);
  }

  lemma MisleadsSplit(os: seq<Outcome>, steps: seq<PlanStep>, bad: Option<string>)
    requires Misleads(os, steps, bad)
    ensures bad.Some? ==> !Cyclic(ById(SplitFailed(steps, bad.value)))
  {
  }

  // ---- outcomes lost from the journal ----

  /** An executor whose answers are successes for their own step, but all under one id. */
  function OneId(id: string): Executor
  {
    (n: nat, s: PlanStep) => Outcome(id, "", s.id, "success", 0)
  }

  /** Outcomes with one id overwrite each other. */
  lemma {:induction false} PutAllOverwrites(id: string, more: seq<Outcome>)
    requires forall o :: o in more ==> o.id == id && o.status == "success"
    ensures |PutAll([], more)| <= 1
    ensures forall o :: o in PutAll([], more) ==> o.id == id && o.status == "success"
  {
    if more != [] {
      var n := |more| - 1;
      PutAllOverwrites(id, more[..n]);
      var os := PutAll([], more[..n]);
      assert more[n] in more;
      assert os == [] || os[0] in os;
      assert os != [] ==> os[1..] == [];
    }
  }

  /** A journal of one success cannot answer for two steps. */
  lemma {:induction false} OneAnswerTooFew(os: seq<Outcome>, steps: seq<PlanStep>, i: nat)
    requires |os| <= 1 && i < |steps| && LastOf(os, steps[i].id).None?
    requires forall o :: o in os ==> o.status == "success"
    ensures Unanswered(os, steps)
  {
    if j :| 0 <= j < i && !StandsAsSuccess(os, steps[j].id) {
      var k := LastOfIsLatestHighest(os, steps[j].id);
      OneAnswerTooFew(os, steps, j);
    }
  }

  lemma OneIdTurn(id: string, t: Turn)
    requires IsTurnOf(OneId(id), t)
    ensures Won(t.attempts) && t.reruns == []
    ensures forall o :: o in t.attempts ==> o.id == id && o.status == "success"
  {
  }

  lemma {:induction false} OneIdRun(id: string, steps: seq<PlanStep>, first: nat, turns: seq<Turn>)
    requires IsRun(OneId(id), first, turns)
    ensures forall o :: o in Journal(turns) ==> o.id == id && o.status == "success"
    ensures !RaisesLast(steps, turns, true)
  {
    if turns != [] {
      var n := |turns| - 1;
      RunLast(OneId(id), first, turns);
      OneIdRun(id, steps, first, turns[..n]);
      OneIdTurn(id, turns[n]);
      RaisesWhen(steps, turns);
      hide IsRun, IsTurnOf, OneId, Raises, RaisesLast;
    }
  }

  /** Reused ids lose outcomes: a run of any plan with two different step ids, every answer a
      success for its own step, ends without an outcome for one of them. */
  method OverwrittenRun(p: Planner, planId: string, id: string, uuid: nat -> string, ghost i: nat, ghost j: nat)
    returns (r: RunResult, ghost turns: seq<Turn>)
    requires planId in p.plans && !Cyclic(ById(p.plans[planId].steps)) && p.outcomes == []
    requires i < |p.plans[planId].steps| && j < |p.plans[planId].steps|
    requires p.plans[planId].steps[i].id != p.plans[planId].steps[j].id
    requires forall n :: n >= p.drawn ==> uuid(n) != planId
    modifies p
    ensures r.NoOutcome? && IsRun(OneId(id), old(p.calls), turns)
    ensures AnswersForItsStep(OneId(id)) && forall o :: o in Journal(turns) ==> o.status == "success"
  {
    assert AnswersForItsStep(OneId(id));
    hide *;
    ghost var steps := p.plans[planId].steps;
    r, turns := p.ExecutePlan(planId, OneId(id), uuid);
    OneIdRun(id, steps, old(p.calls), turns);
    PutAllOverwrites(id, Journal(turns));
    TwoSteps(p.outcomes, steps, i, j);
  }

  lemma TwoSteps(os: seq<Outcome>, steps: seq<PlanStep>, i: nat, j: nat)
    requires |os| <= 1 && (forall o :: o in os ==> o.status == "success")
    requires i < |steps| && j < |steps| && steps[i].id != steps[j].id
    ensures Unanswered(os, steps)
  {
    var k := if LastOf(os, steps[i].id).None? then i else j;
    var a := LastOfIsLatestHighest(os, steps[i].id);
    var b := LastOfIsLatestHighest(os, steps[j].id);
    hide LastOf;
    OneAnswerTooFew(os, steps, k);
  }
}
