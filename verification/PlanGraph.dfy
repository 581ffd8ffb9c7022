/** Plans as dependency graphs: the planner's depth-first topological sort with cycle
    detection, and the replanning rule that splits a failed step in two. */
module PlanGraph {
  import opened Common

  datatype RiskLevel = Low | Medium | High | Critical

  datatype PlanStep = PlanStep(
    id: string, capability: string, agent: Option<string>, deps: seq<string>,
    duration: int, risk: RiskLevel, budget: int)

  /** The dictionary the sort works on: of several steps with one id, the last is kept. */
  function ById(steps: seq<PlanStep>): map<string, PlanStep>
  {
    if steps == [] then map[]
    else
      var s := steps[|steps| - 1];
      ById(steps[..|steps| - 1])[s.id := s]
  }

  lemma {:induction false} ByIdFacts(steps: seq<PlanStep>)
    ensures forall s :: s in steps ==> s.id in ById(steps)
    ensures forall k :: k in ById(steps) ==> ById(steps)[k] in steps && ById(steps)[k].id == k
  {
    if steps != [] {
      ByIdFacts(steps[..|steps| - 1]);
    }
  }

  /** Step ids, in order. */
  function Ids(steps: seq<PlanStep>): (ids: seq<string>)
    ensures |ids| == |steps|
    ensures forall i :: 0 <= i < |steps| ==> ids[i] == steps[i].id
  {
    seq(|steps|, i requires 0 <= i < |steps| => steps[i].id)
  }

  /** A dependency between two existing steps; dependencies on anything else do not count. */
  ghost predicate DependsOn(m: map<string, PlanStep>, u: string, v: string)
  {
    u in m && v in m && v in m[u].deps
  }

  ghost predicate Walk(m: map<string, PlanStep>, w: seq<string>)
  {
    forall i :: 0 <= i < |w| - 1 ==> DependsOn(m, w[i], w[i + 1])
  }

  ghost predicate Cycle(m: map<string, PlanStep>, w: seq<string>)
  {
    |w| >= 2 && w[0] == w[|w| - 1] && Walk(m, w)
  }

  ghost predicate Cyclic(m: map<string, PlanStep>)
  {
    exists w :: Cycle(m, w)
  }

  /** Steps of m, none twice, each after all the existing steps it depends on. */
  ghost predicate Placed(m: map<string, PlanStep>, order: seq<PlanStep>)
  {
    && (forall i :: 0 <= i < |order| ==> order[i].id in m && order[i] == m[order[i].id])
    && Distinct(Ids(order))
    && (forall i, v :: 0 <= i < |order| && DependsOn(m, order[i].id, v) ==> v in Ids(order)[..i])
  }

  /** A topological order of the whole plan. */
  ghost predicate IsOrder(m: map<string, PlanStep>, order: seq<PlanStep>)
  {
    Placed(m, order) && forall k :: k in m ==> k in Ids(order)
  }

  datatype SortResult = Sorted(order: seq<PlanStep>) | CycleAt(id: string)

  /** The closure of the sort: what its nested `visit` reads and updates. */
  class Sorter {
    const byId: map<string, PlanStep>
    var visited: set<string>
    var stack: set<string>
    var order: seq<PlanStep>

    ghost predicate Valid()
      reads this
    {
      && (forall k :: k in byId ==> byId[k].id == k)
      && Placed(byId, order)
      && visited == (set x | x in Ids(order))
      && stack <= byId.Keys
      && stack !! visited
    }

    constructor (byId: map<string, PlanStep>)
      requires forall k :: k in byId ==> byId[k].id == k
      ensures Valid() && this.byId == byId && visited == {} && stack == {} && order == []
    {
      this.byId := byId;
      visited, stack, order := {}, {}, [];
    }

    /** `path` is the chain of dependencies that led here; `stack` holds its members. */
    method Visit(sid: string, ghost path: seq<string>) returns (cycle: Option<string>)
      requires Valid()
      requires stack == (set x | x in path) && Walk(byId, path)
      requires path != [] ==> path[|path| - 1] in byId && sid in byId[path[|path| - 1]].deps
      modifies this
      ensures Valid()
      ensures cycle.None? ==> stack == old(stack) && old(visited) <= visited && (sid in byId ==> sid in visited)
      ensures cycle.Some? ==> exists w :: Cycle(byId, w) && w[0] == cycle.value
      decreases byId.Keys - (visited + stack)
    {
      if sid in visited {
        return None;
      }
      if sid in stack {
        ghost var k :| 0 <= k < |path| && path[k] == sid;
        ghost var w := path[k..] + [sid];
        assert Cycle(byId, w) by {
          forall i | 0 <= i < |w| - 1
            ensures DependsOn(byId, w[i], w[i + 1])
          {
            if i < |w| - 2 {
              assert DependsOn(byId, path[k + i], path[k + i + 1]);
            }
          }
        }
        return Some(sid);
      }
      if sid !in byId {
        return None;
      }
      var step := byId[sid];
      stack := stack + {sid};
      ghost var path' := path + [sid];
      assert Walk(byId, path');
      var d := 0;
      while d < |step.deps|
        invariant 0 <= d <= |step.deps|
        invariant Valid() && stack == old(stack) + {sid} && old(visited) <= visited
        invariant forall j :: 0 <= j < d && step.deps[j] in byId ==> step.deps[j] in visited
      {
        cycle := Visit(step.deps[d], path');
        if cycle.Some? {
          return cycle;
        }
        d := d + 1;
      }
      Append(byId, order, step);
      stack := stack - {sid};
      visited := visited + {sid};
      order := order + [step];
      return None;
    }
  }

  /** A step may be appended once all its existing dependencies are placed. */
  lemma Append(m: map<string, PlanStep>, order: seq<PlanStep>, step: PlanStep)
    requires Placed(m, order) && step.id in m && m[step.id] == step && step.id !in Ids(order)
    requires forall v :: v in step.deps && v in m ==> v in Ids(order)
    ensures Placed(m, order + [step])
    ensures (set x | x in Ids(order + [step])) == (set x | x in Ids(order)) + {step.id}
  {
    assert Ids(order + [step]) == Ids(order) + [step.id];
    forall i, v | 0 <= i < |order + [step]| && DependsOn(m, (order + [step])[i].id, v)
      ensures v in Ids(order + [step])[..i]
    {
      if i < |order| {
        assert Ids(order + [step])[..i] == Ids(order)[..i];
      } else {
        assert Ids(order + [step])[..i] == Ids(order);
      }
    }
  }

  /** Along a walk, positions in a topological order only go down. */
  lemma {:induction false} WalkDescends(m: map<string, PlanStep>, order: seq<PlanStep>, w: seq<string>, p: nat)
      returns (q: nat)
    requires Placed(m, order) && Walk(m, w) && w != []
    requires p < |order| && order[p].id == w[0]
    ensures q < |order| && order[q].id == w[|w| - 1] && q <= p - (|w| - 1)
    decreases |w|
  {
    if |w| == 1 {
      q := p;
    } else {
      assert DependsOn(m, w[0], w[1]);
      assert w[1] in Ids(order)[..p];
      var p' :| 0 <= p' < p && Ids(order)[p'] == w[1];
      assert Walk(m, w[1..]) by {
        forall i | 0 <= i < |w[1..]| - 1
          ensures DependsOn(m, w[1..][i], w[1..][i + 1])
        {
          assert DependsOn(m, w[i + 1], w[i + 2]);
        }
      }
      q := WalkDescends(m, order, w[1..], p');
    }
  }

  /** A plan that has a topological order has no dependency cycle. */
  lemma OrderIsAcyclic(m: map<string, PlanStep>, order: seq<PlanStep>)
    requires IsOrder(m, order)
    ensures !Cyclic(m)
  {
    if Cyclic(m) {
      var w :| Cycle(m, w);
      assert DependsOn(m, w[0], w[1]);
      assert w[0] in Ids(order);
      var p :| 0 <= p < |order| && Ids(order)[p] == w[0];
      var q := WalkDescends(m, order, w, p);
      DistinctPosition(Ids(order), p, q);
    }
  }

  /** With distinct ids the dictionary loses no step. */
  lemma ByIdKeeps(steps: seq<PlanStep>, s: PlanStep)
    requires Distinct(Ids(steps)) && s in steps
    ensures s.id in ById(steps) && ById(steps)[s.id] == s
  {
    ByIdFacts(steps);
    var i :| 0 <= i < |steps| && steps[i] == s;
    var m := ById(steps);
    assert s.id in m;
    var j :| 0 <= j < |steps| && steps[j] == m[s.id];
    DistinctPosition(Ids(steps), i, j);
  }

  lemma DistinctSteps(steps: seq<PlanStep>)
    requires Distinct(Ids(steps))
    ensures Distinct(steps)
  {
    forall i, j | 0 <= i < j < |steps|
      ensures steps[i] != steps[j]
    {
      assert Ids(steps)[i] != Ids(steps)[j];
    }
  }

  /** With distinct step ids a topological order is a permutation of the steps. */
  lemma OrderIsPermutation(steps: seq<PlanStep>, order: seq<PlanStep>)
    requires Distinct(Ids(steps)) && IsOrder(ById(steps), order)
    ensures multiset(order) == multiset(steps)
  {
    ByIdFacts(steps);
    DistinctSteps(steps);
    DistinctSteps(order);
    forall x
      ensures multiset(order)[x] == multiset(steps)[x]
    {
      DistinctMultiset(steps, x);
      DistinctMultiset(order, x);
      if x in steps {
        ByIdKeeps(steps, x);
        var k :| 0 <= k < |order| && Ids(order)[k] == x.id;
      }
    }
  }

  /** The sort raises exactly when the dependencies among existing steps contain a cycle,
      and then names a step on one; otherwise it returns a topological order. */
  method Toposort(steps: seq<PlanStep>) returns (r: SortResult)
    ensures r.CycleAt? <==> Cyclic(ById(steps))
    ensures r.CycleAt? ==> exists w :: Cycle(ById(steps), w) && w[0] == r.id
    ensures r.Sorted? ==> IsOrder(ById(steps), r.order)
    ensures r.Sorted? && Distinct(Ids(steps)) ==> multiset(r.order) == multiset(steps)
  {
    ByIdFacts(steps);
    var sorter := new Sorter(ById(steps));
    var i := 0;
    while i < |steps|
      invariant 0 <= i <= |steps|
      invariant sorter.Valid() && sorter.stack == {}
      invariant forall j :: 0 <= j < i ==> steps[j].id in sorter.visited
    {
      var cycle := sorter.Visit(steps[i].id, []);
      if cycle.Some? {
        return CycleAt(cycle.value);
      }
      i := i + 1;
    }
    r := Sorted(sorter.order);
    OrderIsAcyclic(ById(steps), r.order);
    if Distinct(Ids(steps)) {
      OrderIsPermutation(steps, r.order);
    }
  }

  // ---- replanning: splitting a failed step ----

  function HalfDuration(d: int): int
  {
    if d / 2 < 1 then 1 else d / 2
  }

  function FirstHalf(s: PlanStep, a: string): PlanStep
  {
    s.(id := a, duration := HalfDuration(s.duration))
  }

  function SecondHalf(s: PlanStep, a: string, b: string): PlanStep
  {
    s.(id := b, deps := s.deps + [a], duration := HalfDuration(s.duration))
  }

  /** The names the replanner gives to the halves. */
  function HalfNames(failed: string): (names: (string, string))
    ensures names.0 != names.1 && names.0 != failed && names.1 != failed
  {
    var a, b := failed + "-a", failed + "-b";
    assert a[|failed| + 1] != b[|failed| + 1];
    (a, b)
  }

  /** The steps with every step called `failed` replaced, in place, by two halves called a and b. */
  function Split(steps: seq<PlanStep>, failed: string, a: string, b: string): seq<PlanStep>
  {
    if steps == [] then []
    else
      var s := steps[|steps| - 1];
      Split(steps[..|steps| - 1], failed, a, b)
      + if s.id == failed then [FirstHalf(s, a), SecondHalf(s, a, b)] else [s]
  }

  function SplitFailed(steps: seq<PlanStep>, failed: string): seq<PlanStep>
  {
    var (a, b) := HalfNames(failed);
    Split(steps, failed, a, b)
  }

  /** What a step is replaced by: two steps named after it that keep its capability, agent, risk and
      retry budget, each of half its duration, rounded down but at least 1; the second waits for
      the first as well. */
  lemma SplitSingle(s: PlanStep) returns (half: int)
    ensures half >= 1 && (half == 1 || half <= s.duration - half) && s.duration - half <= half + 1
    ensures SplitFailed([s], s.id) ==
            [PlanStep(s.id + "-a", s.capability, s.agent, s.deps, half, s.risk, s.budget),
             PlanStep(s.id + "-b", s.capability, s.agent, s.deps + [s.id + "-a"], half, s.risk, s.budget)]
  {
    half := HalfDuration(s.duration);
    assert [s][..0] == [];
    assert Split([], s.id, s.id + "-a", s.id + "-b") == [];
  }

  /** The split as the replanner builds it. */
  method ReplanStepFailed(steps: seq<PlanStep>, failed: string) returns (newList: seq<PlanStep>)
    ensures newList == SplitFailed(steps, failed)
  {
    newList := [];
    var (a, b) := HalfNames(failed);
    for i := 0 to |steps|
      invariant newList == Split(steps[..i], failed, a, b)
    {
      var s := steps[i];
      assert steps[..i + 1][..i] == steps[..i];
      if s.id == failed {
        newList := newList + [FirstHalf(s, a)];
        newList := newList + [SecondHalf(s, a, b)];
      } else {
        newList := newList + [s];
      }
    }
    assert steps[..|steps|] == steps;
  }

  /** `name` is neither a step id nor a dependency anywhere in the plan. */
  ghost predicate Unused(steps: seq<PlanStep>, name: string)
  {
    forall s :: s in steps ==> s.id != name && name !in s.deps
  }

  /** Three different names, the last two of them not ids of steps. */
  ghost predicate NewNames(steps: seq<PlanStep>, failed: string, a: string, b: string)
  {
    failed != a && failed != b && a != b && forall s :: s in steps ==> s.id != a && s.id != b
  }

  /** Three different names, the last two of them new to the plan. */
  ghost predicate Fresh(steps: seq<PlanStep>, failed: string, a: string, b: string)
  {
    failed != a && failed != b && a != b && Unused(steps, a) && Unused(steps, b)
  }

  lemma ByIdAppend(steps: seq<PlanStep>, s: PlanStep)
    ensures ById(steps + [s]) == ById(steps)[s.id := s]
  {
    assert (steps + [s])[..|steps|] == steps;
  }

  ghost function SplitMap(m: map<string, PlanStep>, failed: string, a: string, b: string): map<string, PlanStep>
  {
    if failed in m
    then (m - {failed})[a := FirstHalf(m[failed], a)][b := SecondHalf(m[failed], a, b)]
    else m
  }

  /** The dictionary of a split plan: `failed` is gone, its halves are there, the rest is untouched. */
  lemma {:induction false} SplitById(steps: seq<PlanStep>, failed: string, a: string, b: string)
    requires NewNames(steps, failed, a, b)
    ensures ById(Split(steps, failed, a, b)) == SplitMap(ById(steps), failed, a, b)
  {
    if steps != [] {
      var n := |steps| - 1;
      var front, s := steps[..n], steps[n];
      SplitById(front, failed, a, b);
      var rest := Split(front, failed, a, b);
      assert s in steps;
      if s.id == failed {
        var x, y := FirstHalf(s, a), SecondHalf(s, a, b);
        assert rest + [x, y] == rest + [x] + [y];
        ByIdAppend(rest, x);
        ByIdAppend(rest + [x], y);
        SplitMapFailed(ById(front), s, a, b);
      } else {
        ByIdAppend(rest, s);
        SplitMapOther(ById(front), failed, a, b, s);
      }
    }
  }

  lemma SplitMapFailed(m: map<string, PlanStep>, s: PlanStep, a: string, b: string)
    requires s.id != a && s.id != b && a != b
    ensures SplitMap(m, s.id, a, b)[a := FirstHalf(s, a)][b := SecondHalf(s, a, b)] ==
            SplitMap(m[s.id := s], s.id, a, b)
  {
  }

  lemma SplitMapOther(m: map<string, PlanStep>, failed: string, a: string, b: string, s: PlanStep)
    requires s.id != failed && s.id != a && s.id != b
    ensures SplitMap(m, failed, a, b)[s.id := s] == SplitMap(m[s.id := s], failed, a, b)
  {
  }

  /** The step waits for something called a or b. */
  ghost predicate WaitsFor(m: map<string, PlanStep>, u: string, a: string, b: string)
  {
    u in m && (a in m[u].deps || b in m[u].deps)
  }

  /** A walk from one step to another, or from a step to itself. */
  ghost predicate Leads(m: map<string, PlanStep>, u: string, v: string)
  {
    exists w :: w != [] && w[0] == u && w[|w| - 1] == v && Walk(m, w)
  }

  lemma LeadsOn(m: map<string, PlanStep>, u: string, v: string, x: string)
    requires Leads(m, u, v) && DependsOn(m, v, x)
    ensures Leads(m, u, x)
  {
    var w :| w != [] && w[0] == u && w[|w| - 1] == v && Walk(m, w);
    var w' := w + [x];
    forall i | 0 <= i < |w'| - 1
      ensures DependsOn(m, w'[i], w'[i + 1])
    {
      if i < |w| - 1 {
        assert DependsOn(m, w[i], w[i + 1]);
      }
    }
    assert w'[0] == u && w'[|w'| - 1] == x;
  }

  lemma LeadsNowhere(m: map<string, PlanStep>, u: string)
    ensures Leads(m, u, u)
  {
    var w := [u];
    assert w[0] == u && w[|w| - 1] == u && Walk(m, w);
  }

  /** The first half of a split stands above the steps it leads to, and the second above the first. */
  ghost function Height(a: string, b: string, u: string): nat
  {
    if u == b then 2 else if u == a then 1 else 0
  }

  /** A half, or a step that the split one led to. */
  ghost predicate Below(m: map<string, PlanStep>, failed: string, a: string, b: string, u: string)
  {
    u == a || u == b || (u != failed && Leads(m, failed, u))
  }

  /** Where nothing the failed step leads to waits for a half, dependencies of the split plan lead down. */
  lemma SplitDescends(m: map<string, PlanStep>, failed: string, a: string, b: string, u: string, v: string)
    requires failed in m && failed != a && failed != b && a != b && a !in m && b !in m
    requires forall x :: Leads(m, failed, x) ==> !WaitsFor(m, x, a, b)
    requires Below(m, failed, a, b, u) && DependsOn(SplitMap(m, failed, a, b), u, v)
    ensures Below(m, failed, a, b, v) && Height(a, b, v) <= Height(a, b, u)
    ensures u == a || u == b ==> Height(a, b, v) < Height(a, b, u)
  {
    LeadsNowhere(m, failed);
    assert !WaitsFor(m, failed, a, b);
    if u == a || u == b {
      if v != a {
        assert DependsOn(m, failed, v);
        LeadsOn(m, failed, failed, v);
      }
    } else {
      assert !WaitsFor(m, u, a, b);
      assert DependsOn(m, u, v);
      LeadsOn(m, failed, u, v);
    }
  }

  lemma WalkFront(m: map<string, PlanStep>, w: seq<string>, n: nat)
    requires Walk(m, w) && n <= |w|
    ensures Walk(m, w[..n])
  {
    forall i | 0 <= i < |w[..n]| - 1
      ensures DependsOn(m, w[..n][i], w[..n][i + 1])
    {
      assert DependsOn(m, w[i], w[i + 1]);
    }
  }

  lemma {:induction false} SplitWalkDescends(m: map<string, PlanStep>, failed: string, a: string, b: string,
                                             w: seq<string>)
    requires failed in m && failed != a && failed != b && a != b && a !in m && b !in m
    requires forall x :: Leads(m, failed, x) ==> !WaitsFor(m, x, a, b)
    requires w != [] && Walk(SplitMap(m, failed, a, b), w) && Below(m, failed, a, b, w[0])
    ensures Below(m, failed, a, b, w[|w| - 1]) && Height(a, b, w[|w| - 1]) <= Height(a, b, w[0])
    ensures |w| >= 2 && (w[0] == a || w[0] == b) ==> Height(a, b, w[|w| - 1]) < Height(a, b, w[0])
  {
    hide Below, Leads, WaitsFor, SplitMap, DependsOn;
    if |w| >= 2 {
      var n := |w| - 1;
      WalkFront(SplitMap(m, failed, a, b), w, n);
      SplitWalkDescends(m, failed, a, b, w[..n]);
      assert DependsOn(SplitMap(m, failed, a, b), w[n - 1], w[n]);
      SplitDescends(m, failed, a, b, w[n - 1], w[n]);
    }
  }

  lemma SplitLeavesHalf(m: map<string, PlanStep>, failed: string, a: string, b: string, w: seq<string>)
    requires failed in m && failed != a && failed != b && a != b && a !in m && b !in m
    requires forall x :: Leads(m, failed, x) ==> !WaitsFor(m, x, a, b)
    requires |w| >= 2 && Walk(SplitMap(m, failed, a, b), w)
    ensures w[0] == a || w[0] == b ==> Height(a, b, w[|w| - 1]) < Height(a, b, w[0])
  {
    if w[0] == a || w[0] == b {
      SplitWalkDescends(m, failed, a, b, w);
    }
  }

  /** A cycle can be entered at any of its members. */
  lemma CycleFrom(m: map<string, PlanStep>, w: seq<string>, i: nat) returns (c: seq<string>)
    requires Cycle(m, w) && i < |w|
    ensures Cycle(m, c) && c[0] == w[i]
  {
    c := w[i..] + w[1..i + 1];
    if i == |w| - 1 {
      c := w;
    } else {
      forall j | 0 <= j < |c| - 1
        ensures DependsOn(m, c[j], c[j + 1])
      {
        if j < |w| - 1 - i {
          assert DependsOn(m, w[i + j], w[i + j + 1]);
        } else {
          var k := j - (|w| - 1 - i);
          assert c[j] == w[k] && c[j + 1] == w[k + 1];
          assert DependsOn(m, w[k], w[k + 1]);
        }
      }
    }
  }

  /** A step of an acyclic plan that leads to one waiting for a half closes a cycle through it. */
  lemma SplitCloses(m: map<string, PlanStep>, failed: string, a: string, b: string, w: seq<string>)
    requires failed in m && failed != a && failed != b && a != b && a !in m && b !in m && !Cyclic(m)
    requires w != [] && w[0] == failed && Walk(m, w) && WaitsFor(m, w[|w| - 1], a, b)
    ensures Cyclic(SplitMap(m, failed, a, b))
  {
    var m', n := SplitMap(m, failed, a, b), |w|;
    var x := if a in m[w[n - 1]].deps then a else b;
    var c := [x] + w[1..] + [x];
    forall i | 1 <= i < n
      ensures w[i] != failed && w[i] in m && DependsOn(m, w[i - 1], w[i])
    {
      assert DependsOn(m, w[i - 1], w[i]);
      if w[i] == failed {
        WalkFront(m, w, i + 1);
        assert Cycle(m, w[..i + 1]);
      }
    }
    forall i | 0 <= i < |c| - 1
      ensures DependsOn(m', c[i], c[i + 1])
    {
      if 0 < i {
        assert c[i] == w[i];
      }
      if i < n - 1 {
        assert c[i + 1] == w[i + 1];
        assert DependsOn(m, w[i], w[i + 1]);
      }
    }
    assert Cycle(m', c);
  }

  /** Splitting a step of an acyclic plan, under names that are not step ids, gives a cyclic plan
      exactly if the step leads to one that waits for a half by name. */
  lemma SplitCyclicExactly(steps: seq<PlanStep>, failed: string, a: string, b: string)
    requires NewNames(steps, failed, a, b) && !Cyclic(ById(steps)) && failed in ById(steps)
    ensures Cyclic(ById(Split(steps, failed, a, b))) <==>
            exists u :: Leads(ById(steps), failed, u) && WaitsFor(ById(steps), u, a, b)
  {
    var m := ById(steps);
    ByIdFacts(steps);
    SplitById(steps, failed, a, b);
    if u :| Leads(m, failed, u) && WaitsFor(m, u, a, b) {
      var w :| w != [] && w[0] == failed && w[|w| - 1] == u && Walk(m, w);
      SplitCloses(m, failed, a, b, w);
    } else {
      SplitStaysAcyclic(m, failed, a, b);
    }
  }

  /** Otherwise a cycle of the split plan avoids the halves, and was there before. */
  lemma SplitStaysAcyclic(m: map<string, PlanStep>, failed: string, a: string, b: string)
    requires failed in m && failed != a && failed != b && a != b && a !in m && b !in m
    requires forall x :: Leads(m, failed, x) ==> !WaitsFor(m, x, a, b)
    ensures Cyclic(SplitMap(m, failed, a, b)) ==> Cyclic(m)
  {
    var m' := SplitMap(m, failed, a, b);
    if w :| Cycle(m', w) {
      forall i | 0 <= i < |w|
        ensures w[i] != a && w[i] != b
      {
        var c := CycleFrom(m', w, i);
        SplitLeavesHalf(m, failed, a, b, c);
      }
      forall i | 0 <= i < |w| - 1
        ensures DependsOn(m, w[i], w[i + 1])
      {
        assert DependsOn(m', w[i], w[i + 1]);
      }
      assert Cycle(m, w);
    }
  }

  /** Splitting a failed step of an acyclic plan, with fresh names, gives an acyclic plan. */
  lemma SplitAcyclic(steps: seq<PlanStep>, failed: string, a: string, b: string)
    requires Fresh(steps, failed, a, b) && !Cyclic(ById(steps))
    ensures !Cyclic(ById(Split(steps, failed, a, b)))
  {
    ByIdFacts(steps);
    if failed in ById(steps) {
      SplitCyclicExactly(steps, failed, a, b);
      hide Leads, Split, ById, Cyclic;
    } else {
      SplitById(steps, failed, a, b);
    }
  }

  ghost predicate Before(order: seq<PlanStep>, u: string, v: string)
  {
    exists i, j :: 0 <= i < j < |order| && order[i].id == u && order[j].id == v
  }

  lemma DependencyFirst(m: map<string, PlanStep>, order: seq<PlanStep>, u: string, v: string)
    requires IsOrder(m, order) && DependsOn(m, u, v)
    ensures Before(order, v, u)
  {
    var j :| 0 <= j < |order| && Ids(order)[j] == u;
    assert v in Ids(order)[..j];
    var i :| 0 <= i < j && Ids(order)[i] == v;
  }

  /** In every order the sort may return for the split plan, both halves come after the existing
      dependencies of the original and the first half comes before the second; the original is
      gone and the other steps are there unchanged. */
  lemma SplitOrder(steps: seq<PlanStep>, failed: string, a: string, b: string, order: seq<PlanStep>)
    requires Fresh(steps, failed, a, b) && failed in ById(steps) && !Cyclic(ById(steps))
    requires IsOrder(ById(Split(steps, failed, a, b)), order)
    ensures Before(order, a, b)
    ensures forall v :: DependsOn(ById(steps), failed, v) ==> Before(order, v, a) && Before(order, v, b)
    ensures failed !in Ids(order)
    ensures forall k :: k in ById(steps) && k != failed ==> ById(steps)[k] in order
  {
    SplitHalves(steps, failed, a, b, order);
    SplitOthers(steps, failed, a, b, order);
  }

  lemma SplitHalves(steps: seq<PlanStep>, failed: string, a: string, b: string, order: seq<PlanStep>)
    requires Fresh(steps, failed, a, b) && failed in ById(steps) && !Cyclic(ById(steps))
    requires IsOrder(ById(Split(steps, failed, a, b)), order)
    ensures Before(order, a, b)
    ensures forall v :: DependsOn(ById(steps), failed, v) ==> Before(order, v, a) && Before(order, v, b)
  {
    var m' := ById(Split(steps, failed, a, b));
    assert DependsOn(m', b, a) by {
      SplitById(steps, failed, a, b);
    }
    DependencyFirst(m', order, b, a);
    forall v | DependsOn(ById(steps), failed, v)
      ensures Before(order, v, a) && Before(order, v, b)
    {
      SplitKeepsDependency(steps, failed, a, b, v);
      DependencyFirst(m', order, a, v);
      DependencyFirst(m', order, b, v);
    }
  }

  lemma SplitOthers(steps: seq<PlanStep>, failed: string, a: string, b: string, order: seq<PlanStep>)
    requires Fresh(steps, failed, a, b) && failed in ById(steps)
    requires IsOrder(ById(Split(steps, failed, a, b)), order)
    ensures failed !in Ids(order)
    ensures forall k :: k in ById(steps) && k != failed ==> ById(steps)[k] in order
  {
    var m, m' := ById(steps), ById(Split(steps, failed, a, b));
    SplitById(steps, failed, a, b);
    ByIdFacts(steps);
    forall k | k in m && k != failed
      ensures m[k] in order
    {
      assert m[k] in steps;
      assert m'[k] == m[k];
      var i :| 0 <= i < |order| && Ids(order)[i] == k;
      assert order[i] == m'[k];
    }
  }

  lemma SplitKeepsDependency(steps: seq<PlanStep>, failed: string, a: string, b: string, v: string)
    requires Fresh(steps, failed, a, b) && !Cyclic(ById(steps)) && DependsOn(ById(steps), failed, v)
    ensures DependsOn(ById(Split(steps, failed, a, b)), a, v)
    ensures DependsOn(ById(Split(steps, failed, a, b)), b, v)
  {
    SplitById(steps, failed, a, b);
    ByIdFacts(steps);
    assert ById(steps)[v] in steps;
    assert v != failed by {
      if v == failed {
        assert Cycle(ById(steps), [v, v]);
      }
    }
  }

  lemma ByIdPair(s: PlanStep, t: PlanStep)
    requires s.id != t.id
    ensures ById([s, t]) == map[s.id := s, t.id := t]
  {
    ByIdAppend([s], t);
    ByIdAppend([], s);
    assert [s] + [t] == [s, t] && [] + [s] == [s];
  }

  /** Without fresh names a split can close a cycle: a step that is itself called as the first
      half will be, and waits for the second, is harmless until its namesake is split. */
  lemma SplitCanClose(f: PlanStep, g: PlanStep)
    requires f.deps == [] && g.id == HalfNames(f.id).0 && g.deps == [HalfNames(f.id).1]
    ensures !Cyclic(ById([f, g])) && Cyclic(ById(SplitFailed([f, g], f.id)))
  {
    var (a, b) := HalfNames(f.id);
    ByIdPair(f, g);
    PairAcyclic(ById([f, g]), f, g);
    hide HalfNames, Cyclic;
    var x, y := FirstHalf(f, a), SecondHalf(f, a, b);
    SplitPair(f, g, a, b);
    ByIdAppend([x, y], g);
    ByIdPair(x, y);
    assert [x, y] + [g] == [x, y, g];
    assert y.deps == [a];
    TwoCycle(ById([x, y, g]), a, b);
  }

  /** A step may come at the end of an order once its existing dependencies are in it. */
  lemma OrderAppend(m: map<string, PlanStep>, order: seq<PlanStep>, s: PlanStep)
    requires Placed(m, order) && s.id in m && m[s.id] == s && s.id !in Ids(order)
    requires forall v :: v in s.deps && v in m ==> v in Ids(order)
    ensures Placed(m, order + [s]) && Ids(order + [s]) == Ids(order) + [s.id]
  {
    Append(m, order, s);
  }

  lemma PairAcyclic(m: map<string, PlanStep>, s: PlanStep, t: PlanStep)
    requires s.id != t.id && m == map[s.id := s, t.id := t] && s.deps == [] && t.id !in t.deps
    ensures !Cyclic(m)
  {
    assert Placed(m, []);
    OrderAppend(m, [], s);
    assert [] + [s] == [s] && Ids([s]) == [s.id];
    OrderAppend(m, [s], t);
    assert [s] + [t] == [s, t];
    assert IsOrder(m, [s, t]) by {
      hide Placed;
      assert Ids([s, t]) == [s.id, t.id];
    }
    OrderIsAcyclic(m, [s, t]);
  }

  lemma TwoCycle(m: map<string, PlanStep>, u: string, v: string)
    requires DependsOn(m, u, v) && DependsOn(m, v, u)
    ensures Cyclic(m)
  {
    assert Cycle(m, [u, v, u]);
  }

  lemma SplitPair(f: PlanStep, g: PlanStep, a: string, b: string)
    requires f.id != g.id
    ensures Split([f, g], f.id, a, b) == [FirstHalf(f, a), SecondHalf(f, a, b), g]
    ensures Split([g, f], f.id, a, b) == [g, FirstHalf(f, a), SecondHalf(f, a, b)]
  {
    assert [f, g][..1] == [f] && [f][..0] == [];
    assert [g, f][..1] == [g] && [g][..0] == [];
    assert Split([f], f.id, a, b) == [FirstHalf(f, a), SecondHalf(f, a, b)];
    assert Split([g], f.id, a, b) == [g];
  }

  /** A step that waits for a missing one may come before both halves. */
  lemma SplitListed(d: PlanStep, x: PlanStep, y: PlanStep, gone: string)
    requires d.id != x.id && d.id != y.id && x.id != y.id && gone != d.id && gone != x.id && gone != y.id
    requires d.deps == [gone] && x.deps == [] && y.deps == [x.id]
    ensures var m := map[d.id := d, x.id := x, y.id := y]; IsOrder(m, [d, x, y])
  {
    var m := map[d.id := d, x.id := x, y.id := y];
    assert Placed(m, []);
    hide Placed;
    OrderAppend(m, [], d);
    assert [] + [d] == [d];
    OrderAppend(m, [d], x);
    assert [d] + [x] == [d, x];
    OrderAppend(m, [d, x], y);
    assert [d, x] + [y] == [d, x, y];
  }

  /** Dependents of a split step are not redirected to its halves: they may be sorted, and run,
      before either of them. */
  lemma DependentMayComeFirst(f: PlanStep, d: PlanStep)
    requires f.deps == [] && d.deps == [f.id]
    requires Fresh([d, f], f.id, HalfNames(f.id).0, HalfNames(f.id).1)
    requires d.id != f.id
    ensures var (a, b) := HalfNames(f.id);
            && DependsOn(ById([d, f]), d.id, f.id) && !Cyclic(ById([d, f]))
            && IsOrder(ById(SplitFailed([d, f], f.id)), [d, FirstHalf(f, a), SecondHalf(f, a, b)])
  {
    var (a, b) := HalfNames(f.id);
    ByIdPair(d, f);
    PairAcyclic(ById([d, f]), f, d);
    hide HalfNames, Cyclic;
    var x, y := FirstHalf(f, a), SecondHalf(f, a, b);
    SplitPair(f, d, a, b);
    assert d in [d, f];
    ByIdPair(d, x);
    ByIdAppend([d, x], y);
    assert [d, x] + [y] == [d, x, y];
    SplitListed(d, x, y, f.id);
  }
}
