/** Walks over a knowledge graph's relations and the breadth-first search for a shortest one. */
module GraphPaths {
  import opened Common

  datatype RelationKind = Knows | PartOf | Causes | DependsOn | SimilarTo | DerivedFrom

  datatype Relation = Relation(
    id: string, source: string, target: string, kind: RelationKind, weight: real, bidirectional: bool)

  /** The relation can be walked starting at u. */
  predicate Leaves(r: Relation, u: string)
  {
    r.source == u || (r.bidirectional && r.target == u)
  }

  /** Where walking the relation from u leads. */
  function Other(r: Relation, u: string): string
  {
    if r.source == u then r.target else r.source
  }

  /** `path` is a chain of relations that leads from u to v. */
  ghost predicate Chain(rels: seq<Relation>, u: string, path: seq<Relation>, v: string)
    decreases |path|
  {
    if path == [] then u == v
    else path[0] in rels && Leaves(path[0], u) && Chain(rels, Other(path[0], u), path[1..], v)
  }

  ghost predicate Reach(rels: seq<Relation>, u: string, v: string)
  {
    exists path :: Chain(rels, u, path, v)
  }

  ghost predicate Shortest(rels: seq<Relation>, u: string, path: seq<Relation>, v: string)
  {
    Chain(rels, u, path, v) && forall p :: Chain(rels, u, p, v) ==> |path| <= |p|
  }

  // ---- adjacency lists ----

  function Out(adj: map<string, seq<Relation>>, u: string): seq<Relation>
  {
    if u in adj then adj[u] else []
  }

  /** Lists every relation under each entity it can be walked from. */
  ghost predicate Adjacency(adj: map<string, seq<Relation>>, rels: seq<Relation>)
  {
    forall u, r :: r in Out(adj, u) <==> r in rels && Leaves(r, u)
  }

  function AddOut(adj: map<string, seq<Relation>>, u: string, r: Relation): map<string, seq<Relation>>
  {
    adj[u := Out(adj, u) + [r]]
  }

  method BuildAdjacency(rels: seq<Relation>) returns (adj: map<string, seq<Relation>>)
    ensures Adjacency(adj, rels)
  {
    adj := map[];
    for i := 0 to |rels|
      invariant Adjacency(adj, rels[..i])
    {
      var r := rels[i];
      ghost var before := adj;
      adj := AddOut(adj, r.source, r);
      if r.bidirectional {
        adj := AddOut(adj, r.target, r);
      }
      assert rels[..i + 1] == rels[..i] + [r];
      assert forall u, x :: x in Out(adj, u) <==> x in Out(before, u) || (x == r && Leaves(r, u));
    }
    assert rels[..|rels|] == rels;
  }

  // ---- breadth-first search ----

  datatype Link = Link(from: string, via: Relation)

  /** What the predecessor links promise: each reached entity is one relation further from `from`
      than the entity it was reached from. */
  ghost predicate Tree(rels: seq<Relation>, from: string, prev: map<string, Link>, dist: map<string, nat>)
  {
    && dist.Keys == prev.Keys + {from} && from !in prev && dist[from] == 0
    && forall x :: x in prev ==>
         && prev[x].from in dist && dist[x] == dist[prev[x].from] + 1
         && prev[x].via in rels && Leaves(prev[x].via, prev[x].from) && Other(prev[x].via, prev[x].from) == x
  }

  /** The queue holds the reached entities not yet expanded, nearest first, one or two levels deep. */
  ghost predicate Frontier(queue: seq<string>, done: set<string>, dist: map<string, nat>, level: nat)
  {
    && Distinct(queue)
    && (forall i :: 0 <= i < |queue| ==> queue[i] in dist && queue[i] !in done)
    && (forall x :: x in dist ==> x in done || x in queue)
    && (forall x :: x in done ==> x in dist && dist[x] <= level)
    && (forall i :: 0 <= i < |queue| ==> level <= dist[queue[i]] <= level + 1)
    && (forall i, j :: 0 <= i < j < |queue| ==> dist[queue[i]] <= dist[queue[j]])
  }

  /** Everything an expanded entity leads to has been reached, at most one level further. */
  ghost predicate Expanded(rels: seq<Relation>, done: set<string>, dist: map<string, nat>)
  {
    done <= dist.Keys && forall x :: x in done ==> ExpandedAt(rels, x, dist)
  }

  ghost predicate ExpandedAt(rels: seq<Relation>, x: string, dist: map<string, nat>)
    requires x in dist
  {
    forall r :: r in rels && Leaves(r, x) ==> Other(r, x) in dist && dist[Other(r, x)] <= dist[x] + 1
  }

  /** A chain that starts at a reached entity either ends at one, no further than its length, or
      passes a queued one that is no further than that. */
  lemma {:induction false} ChainMeetsQueue(rels: seq<Relation>, done: set<string>, queue: seq<string>,
                                           dist: map<string, nat>,
                                           u: string, path: seq<Relation>, v: string)
    requires Expanded(rels, done, dist) && (forall x :: x in dist ==> x in done || x in queue)
    requires u in dist && Chain(rels, u, path, v)
    ensures (v in dist && dist[v] <= dist[u] + |path|)
            || exists x :: x in queue && x in dist && dist[x] <= dist[u] + |path|
    decreases |path|
  {
    if path != [] && u in done {
      assert ExpandedAt(rels, u, dist);
      ChainMeetsQueue(rels, done, queue, dist, Other(path[0], u), path[1..], v);
    }
  }

  lemma TreeAdd(rels: seq<Relation>, from: string, prev: map<string, Link>, dist: map<string, nat>, u: string,
                r: Relation)
    requires Tree(rels, from, prev, dist) && u in dist && r in rels && Leaves(r, u) && Other(r, u) !in dist
    ensures Tree(rels, from, prev[Other(r, u) := Link(u, r)], dist[Other(r, u) := dist[u] + 1])
  {
  }

  lemma FrontierAdd(queue: seq<string>, done: set<string>, dist: map<string, nat>, level: nat, x: string)
    requires Frontier(queue, done, dist, level) && x !in dist
    ensures Frontier(queue + [x], done, dist[x := level + 1], level)
  {
  }

  /** Reached entities keep their distance when others are added. */
  ghost predicate Extends(dist: map<string, nat>, dist': map<string, nat>)
  {
    forall x :: x in dist ==> x in dist' && dist'[x] == dist[x]
  }

  lemma ExpandedStays(rels: seq<Relation>, done: set<string>, cur: string, out: seq<Relation>, dist: map<string, nat>,
                      dist': map<string, nat>)
    requires Expanded(rels, done - {cur}, dist) && Extends(dist, dist') && cur in done && done <= dist.Keys
    requires forall r :: r in out <==> r in rels && Leaves(r, cur)
    requires forall r :: r in out ==> Other(r, cur) in dist' && dist'[Other(r, cur)] <= dist[cur] + 1
    ensures Expanded(rels, done, dist')
  {
    forall x | x in done
      ensures ExpandedAt(rels, x, dist')
    {
      if x != cur {
        assert ExpandedAt(rels, x, dist);
      }
    }
  }

  /** One entity's relations looked at: unseen entities are linked and queued. */
  method Expand(rels: seq<Relation>, out: seq<Relation>, cur: string, from: string, ghost done: set<string>,
                seen: set<string>, prev: map<string, Link>, queue: seq<string>, ghost dist: map<string, nat>)
    returns (seen': set<string>, prev': map<string, Link>, queue': seq<string>, ghost dist': map<string, nat>)
    requires forall r :: r in out <==> r in rels && Leaves(r, cur)
    requires seen == dist.Keys && Tree(rels, from, prev, dist)
    requires cur in done && done <= seen && Frontier(queue, done, dist, dist[cur])
    requires Expanded(rels, done - {cur}, dist)
    ensures seen' == dist'.Keys && seen <= seen' && Tree(rels, from, prev', dist')
    ensures Extends(dist, dist') && Frontier(queue', done, dist', dist[cur]) && Expanded(rels, done, dist')
    ensures forall x :: x in seen' ==> x in seen || exists r :: r in rels && x in {r.source, r.target}
  {
    hide Tree, Frontier, Expanded;
    seen', prev', queue', dist' := seen, prev, queue, dist;
    for k := 0 to |out|
      invariant seen' == dist'.Keys && seen <= seen' && Tree(rels, from, prev', dist')
      invariant Extends(dist, dist') && Frontier(queue', done, dist', dist[cur])
      invariant forall j :: 0 <= j < k ==> Other(out[j], cur) in dist' && dist'[Other(out[j], cur)] <= dist[cur] + 1
      invariant forall x :: x in seen' ==> x in seen || exists r :: r in rels && x in {r.source, r.target}
    {
      var r := out[k];
      assert r in out;
      var nxt := if r.source == cur then r.target else r.source;
      if nxt !in seen' {
        TreeAdd(rels, from, prev', dist', cur, r);
        FrontierAdd(queue', done, dist', dist[cur], nxt);
        seen' := seen' + {nxt};
        prev' := prev'[nxt := Link(cur, r)];
        queue' := queue' + [nxt];
        dist' := dist'[nxt := dist[cur] + 1];
      } else {
        FrontierBound(queue', done, dist', dist[cur], nxt);
      }
    }
    ExpandedStays(rels, done, cur, out, dist, dist');
  }

  lemma FrontierBound(queue: seq<string>, done: set<string>, dist: map<string, nat>, level: nat, x: string)
    requires Frontier(queue, done, dist, level) && x in dist
    ensures dist[x] <= level + 1
  {
  }

  /** The state of the search: what is reached, what is queued, what is expanded. */
  ghost predicate Searching(nodes: set<string>, rels: seq<Relation>, from: string, seen: set<string>,
                            prev: map<string, Link>,
                            queue: seq<string>, done: set<string>, dist: map<string, nat>, level: nat)
  {
    && seen == dist.Keys && seen <= nodes && Tree(rels, from, prev, dist)
    && Frontier(queue, done, dist, level) && Expanded(rels, done, dist)
  }

  lemma SearchStart(nodes: set<string>, rels: seq<Relation>, from: string)
    requires from in nodes
    ensures Searching(nodes, rels, from, {from}, map[], [from], {}, map[from := 0], 0)
  {
  }

  /** The search proper: predecessor links from `from` up to `to`, if `to` can be reached at all. */
  method Search(nodes: set<string>, rels: seq<Relation>, from: string, to: string)
    returns (prev: map<string, Link>, ghost dist: map<string, nat>)
    requires from in nodes
    requires forall r :: r in rels ==> r.source in nodes && r.target in nodes
    ensures Tree(rels, from, prev, dist)
    ensures to in dist <==> Reach(rels, from, to)
    ensures to in dist ==> forall p :: Chain(rels, from, p, to) ==> dist[to] <= |p|
  {
    hide Tree, Frontier, Expanded, Adjacency, Chain;
    var adj := BuildAdjacency(rels);
    prev := map[];
    dist := map[from := 0];
    var seen, queue := {from}, [from];
    ghost var done: set<string>, level: nat := {}, 0;
    SearchStart(nodes, rels, from);
    while queue != []
      invariant Searching(nodes, rels, from, seen, prev, queue, done, dist, level)
      invariant to !in done
      decreases nodes - done
    {
      var cur := queue[0];
      if cur == to {
        Found(rels, from, prev, queue, done, dist, level);
        return;
      }
      Pop(queue, done, dist, level);
      queue := queue[1..];
      OutOf(adj, rels, cur);
      assert done + {cur} - {cur} == done;
      done := done + {cur};
      level := dist[cur];
      seen, prev, queue, dist := Expand(rels, Out(adj, cur), cur, from, done, seen, prev, queue, dist);
    }
    NotFound(rels, from, prev, done, dist, level, to);
  }

  lemma OutOf(adj: map<string, seq<Relation>>, rels: seq<Relation>, u: string)
    requires Adjacency(adj, rels)
    ensures forall r :: r in Out(adj, u) <==> r in rels && Leaves(r, u)
  {
  }

  /** When the queue runs empty, only expanded entities can be reached. */
  lemma NotFound(rels: seq<Relation>, from: string, prev: map<string, Link>, done: set<string>,
                 dist: map<string, nat>, level: nat, to: string)
    requires Tree(rels, from, prev, dist) && Frontier([], done, dist, level) && Expanded(rels, done, dist)
               && to !in done
    ensures to !in dist && !Reach(rels, from, to)
  {
    forall p | Chain(rels, from, p, to)
      ensures false
    {
      ChainMeetsQueue(rels, done, [], dist, from, p, to);
    }
  }

  lemma Pop(queue: seq<string>, done: set<string>, dist: map<string, nat>, level: nat)
    requires queue != [] && Frontier(queue, done, dist, level)
    ensures queue[0] in dist && queue[0] !in done && done <= dist.Keys
    ensures Frontier(queue[1..], done + {queue[0]}, dist, dist[queue[0]])
  {
    assert forall i :: 0 <= i < |queue[1..]| ==> queue[1..][i] == queue[i + 1];
    assert forall x :: x in queue ==> x == queue[0] || x in queue[1..];
  }

  /** When an entity comes to the head of the queue, no chain to it is shorter than its distance. */
  lemma Found(rels: seq<Relation>, from: string, prev: map<string, Link>, queue: seq<string>, done: set<string>,
              dist: map<string, nat>, level: nat)
    requires queue != [] && Tree(rels, from, prev, dist) && Frontier(queue, done, dist, level)
               && Expanded(rels, done, dist)
    ensures queue[0] in dist && Reach(rels, from, queue[0])
    ensures forall p :: Chain(rels, from, p, queue[0]) ==> dist[queue[0]] <= |p|
  {
    TreeReaches(rels, from, prev, dist, queue[0]);
    forall p | Chain(rels, from, p, queue[0])
      ensures dist[queue[0]] <= |p|
    {
      ChainMeetsQueue(rels, done, queue, dist, from, p, queue[0]);
    }
  }

  lemma {:induction false} ChainAppend(rels: seq<Relation>, u: string, path: seq<Relation>, v: string, r: Relation)
    requires Chain(rels, u, path, v) && r in rels && Leaves(r, v)
    ensures Chain(rels, u, path + [r], Other(r, v))
    decreases |path|
  {
    if path == [] {
      assert path + [r] == [r];
    } else {
      ChainAppend(rels, Other(path[0], u), path[1..], v, r);
      assert (path + [r])[1..] == path[1..] + [r];
    }
  }

  /** Every reached entity has a chain as long as its distance. */
  lemma {:induction false} TreeReaches(rels: seq<Relation>, from: string, prev: map<string, Link>,
                                       dist: map<string, nat>, x: string)
    requires Tree(rels, from, prev, dist) && x in dist
    ensures exists path :: Chain(rels, from, path, x) && |path| == dist[x]
    decreases dist[x]
  {
    if x == from {
      assert Chain(rels, from, [], x);
    } else {
      TreeReaches(rels, from, prev, dist, prev[x].from);
      var path :| Chain(rels, from, path, prev[x].from) && |path| == dist[prev[x].from];
      ChainAppend(rels, from, path, prev[x].from, prev[x].via);
    }
  }

  function Reversed<T>(s: seq<T>): (r: seq<T>)
    ensures |r| == |s|
  {
    if s == [] then [] else [s[|s| - 1]] + Reversed(s[..|s| - 1])
  }

  /** The path read off the predecessor links, from the end to the start and then turned round. */
  method Reconstruct(rels: seq<Relation>, from: string, to: string, prev: map<string, Link>,
                     ghost dist: map<string, nat>)
    returns (path: seq<Relation>)
    requires Tree(rels, from, prev, dist) && to in dist
    ensures Chain(rels, from, path, to) && |path| == dist[to]
  {
    path := [];
    var node := to;
    while node != from
      invariant node in dist && dist[node] + |path| == dist[to]
      invariant Chain(rels, node, Reversed(path), to)
      decreases dist[node]
    {
      var Link(p, r) := prev[node];
      assert (path + [r])[..|path|] == path;
      assert Reversed(path + [r])[1..] == Reversed(path);
      path := path + [r];
      node := p;
    }
    path := Reversed(path);
  }
}
