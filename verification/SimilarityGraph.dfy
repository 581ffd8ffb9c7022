/** The workspace-scoped similarity graph, built one node at a time. The similarity measure is any
    symmetric function of two embeddings. */
module SimilarityGraph {
  import opened Common

  type Embedding = seq<real>

  datatype Node = Node(id: string, workspace: string, embedding: Embedding)

  datatype Edge = Edge(source: string, target: string, score: real)

  type Measure = (Embedding, Embedding) -> real

  ghost predicate Symmetric(sim: Measure)
  {
    forall a, b :: sim(a, b) == sim(b, a)
  }

  /** The all-pairs definition: who u should be linked to. */
  predicate Related(sim: Measure, threshold: real, u: Node, v: Node)
  {
    u.id != v.id && u.workspace == v.workspace && sim(u.embedding, v.embedding) >= threshold
  }

  ghost predicate DistinctNodes(nodes: seq<Node>)
  {
    forall i, j :: 0 <= i < j < |nodes| ==> nodes[i].id != nodes[j].id
  }

  /** Exactly one edge from u to every related node, carrying the similarity, and no other. */
  ghost predicate EdgesOf(sim: Measure, threshold: real, nodes: seq<Node>, u: Node, es: seq<Edge>)
  {
    && (forall e :: e in es ==> e.source == u.id)
    && (forall e :: e in es ==>
          exists v :: v in nodes && Related(sim, threshold, u, v)
                   && e == Edge(u.id, v.id, sim(u.embedding, v.embedding)))
    && (forall v :: v in nodes && Related(sim, threshold, u, v) ==>
        Edge(u.id, v.id, sim(u.embedding, v.embedding)) in es)
    && (forall i, j :: 0 <= i < j < |es| ==> es[i].target != es[j].target)
  }

  /** The adjacency is the all-pairs one. */
  ghost predicate AllPairs(sim: Measure, threshold: real, nodes: seq<Node>, edges: map<string, seq<Edge>>)
  {
    && DistinctNodes(nodes)
    && (forall id :: id in edges <==> exists u :: u in nodes && u.id == id)
    && (forall u :: u in nodes ==> EdgesOf(sim, threshold, nodes, u, edges[u.id]))
  }

  /** Edges come in pairs with equal scores, and no node is linked to itself. */
  lemma EdgesSymmetric(sim: Measure, threshold: real, nodes: seq<Node>, edges: map<string, seq<Edge>>, u: Node, e: Edge)
    requires Symmetric(sim) && AllPairs(sim, threshold, nodes, edges) && u in nodes && e in edges[u.id]
    ensures e.target in edges && Edge(e.target, u.id, e.score) in edges[e.target] && e.target != u.id
  {
    assert EdgesOf(sim, threshold, nodes, u, edges[u.id]);
    var v :| v in nodes && Related(sim, threshold, u, v) && e == Edge(u.id, v.id, sim(u.embedding, v.embedding));
    hide AllPairs, Symmetric;
    BackEdge(sim, threshold, nodes, u, v, edges[v.id]);
  }

  lemma BackEdge(sim: Measure, threshold: real, nodes: seq<Node>, u: Node, v: Node, es: seq<Edge>)
    requires Symmetric(sim) && u in nodes && Related(sim, threshold, u, v) && EdgesOf(sim, threshold, nodes, v, es)
    ensures Edge(v.id, u.id, sim(u.embedding, v.embedding)) in es
  {
    assert Related(sim, threshold, v, u);
  }

  /** Two graphs built from the same nodes, in whatever order, have the same edges. */
  lemma OrderIrrelevant(sim: Measure, threshold: real, nodes: seq<Node>, edges: map<string, seq<Edge>>,
                        nodes': seq<Node>, edges': map<string, seq<Edge>>)
    requires AllPairs(sim, threshold, nodes, edges) && AllPairs(sim, threshold, nodes', edges')
    requires multiset(nodes) == multiset(nodes')
    ensures edges.Keys == edges'.Keys
    ensures forall id :: id in edges ==> multiset(edges[id]) == multiset(edges'[id])
  {
    hide EdgesOf, DistinctNodes;
    assert forall u :: u in nodes <==> u in multiset(nodes);
    assert forall u :: u in nodes' <==> u in multiset(nodes');
    forall u | u in nodes
      ensures u in nodes' && multiset(edges[u.id]) == multiset(edges'[u.id])
    {
      SameEdges(sim, threshold, nodes, nodes', u, edges[u.id], edges'[u.id]);
    }
  }

  lemma SameEdges(sim: Measure, threshold: real, nodes: seq<Node>, nodes': seq<Node>, u: Node, es: seq<Edge>,
                  fs: seq<Edge>)
    requires EdgesOf(sim, threshold, nodes, u, es) && EdgesOf(sim, threshold, nodes', u, fs)
    requires forall v :: v in nodes <==> v in nodes'
    ensures multiset(es) == multiset(fs)
  {
    forall e
      ensures multiset(es)[e] == multiset(fs)[e]
    {
      DistinctMultiset(es, e);
      DistinctMultiset(fs, e);
    }
  }

  // ---- ranking by score ----

  datatype Hit = Hit(id: string, score: real)

  function Insert(hits: seq<Hit>, h: Hit): seq<Hit>
  {
    if hits == [] || hits[|hits| - 1].score >= h.score then hits + [h]
    else Insert(hits[..|hits| - 1], h) + [hits[|hits| - 1]]
  }

  /** Highest score first; equal scores keep their order. */
  function Ranked(hits: seq<Hit>): seq<Hit>
  {
    if hits == [] then [] else Insert(Ranked(hits[..|hits| - 1]), hits[|hits| - 1])
  }

  ghost predicate Descending(hits: seq<Hit>)
  {
    forall i, j :: 0 <= i < j < |hits| ==> hits[i].score >= hits[j].score
  }

  lemma {:induction false} InsertMultiset(hits: seq<Hit>, h: Hit)
    ensures multiset(Insert(hits, h)) == multiset(hits) + multiset{h}
  {
    if !(hits == [] || hits[|hits| - 1].score >= h.score) {
      var n := |hits| - 1;
      InsertMultiset(hits[..n], h);
      assert hits == hits[..n] + [hits[n]];
    }
  }

  lemma {:induction false} InsertSorted(hits: seq<Hit>, h: Hit, floor: real)
    requires Descending(hits) && h.score >= floor && forall i :: 0 <= i < |hits| ==> hits[i].score >= floor
    ensures var r := Insert(hits, h); Descending(r) && forall i :: 0 <= i < |r| ==> r[i].score >= floor
  {
    if !(hits == [] || hits[|hits| - 1].score >= h.score) {
      var n := |hits| - 1;
      InsertSorted(hits[..n], h, hits[n].score);
    }
  }

  lemma {:induction false} RankedFacts(hits: seq<Hit>)
    ensures multiset(Ranked(hits)) == multiset(hits) && Descending(Ranked(hits))
  {
    if hits != [] {
      var n := |hits| - 1;
      RankedFacts(hits[..n]);
      var front := Ranked(hits[..n]);
      InsertMultiset(front, hits[n]);
      var least := if front == [] || front[|front| - 1].score > hits[n].score then hits[n].score
                   else front[|front| - 1].score;
      InsertSorted(front, hits[n], least);
      assert hits == hits[..n] + [hits[n]];
    }
  }

  // ---- building the graph ----

  /** The answer to a similarity query: each node of the workspace above the threshold once. */
  ghost predicate Hits(sim: Measure, threshold: real, nodes: seq<Node>, embedding: Embedding,
                       workspace: Option<string>, hits: seq<Hit>)
  {
    && (forall i, j :: 0 <= i < j < |hits| ==> hits[i].id != hits[j].id)
    && (forall h :: h in hits <==>
          exists v :: v in nodes && Matches(sim, threshold, embedding, workspace, v)
                   && h == Hit(v.id, sim(embedding, v.embedding)))
  }

  predicate Matches(sim: Measure, threshold: real, embedding: Embedding, workspace: Option<string>, v: Node)
  {
    (workspace.None? || v.workspace == workspace.value) && sim(embedding, v.embedding) >= threshold
  }

  /** Edges of an older node once `u` has joined. */
  ghost function Extended(sim: Measure, threshold: real, u: Node, v: Node, es: seq<Edge>): seq<Edge>
  {
    if Related(sim, threshold, u, v) then es + [Edge(v.id, u.id, sim(u.embedding, v.embedding))] else es
  }

  lemma ExtendedEdges(sim: Measure, threshold: real, nodes: seq<Node>, u: Node, v: Node, es: seq<Edge>)
    requires Symmetric(sim) && EdgesOf(sim, threshold, nodes, v, es) && forall x :: x in nodes ==> x.id != u.id
    ensures EdgesOf(sim, threshold, nodes + [u], v, Extended(sim, threshold, u, v, es))
  {
    var es' := Extended(sim, threshold, u, v, es);
    assert Related(sim, threshold, u, v) <==> Related(sim, threshold, v, u);
    forall e | e in es'
      ensures e.source == v.id
      ensures exists x :: x in nodes + [u] && Related(sim, threshold, v, x)
                && e == Edge(v.id, x.id, sim(v.embedding, x.embedding))
    {
      if e in es {
        var x :| x in nodes && Related(sim, threshold, v, x) && e == Edge(v.id, x.id, sim(v.embedding, x.embedding));
        assert x in nodes + [u];
      } else {
        assert u in nodes + [u];
      }
    }
    assert forall e :: e in es ==> e.target != u.id;
    assert forall i :: 0 <= i < |es| ==> es[i] in es;
  }

  ghost function Outgoing(u: Node, hits: seq<Hit>): (es: seq<Edge>)
    ensures |es| == |hits| && forall i :: 0 <= i < |hits| ==> es[i] == Edge(u.id, hits[i].id, hits[i].score)
  {
    seq(|hits|, i requires 0 <= i < |hits| => Edge(u.id, hits[i].id, hits[i].score))
  }

  lemma OutgoingEdges(sim: Measure, threshold: real, nodes: seq<Node>, u: Node, hits: seq<Hit>)
    requires Hits(sim, threshold, nodes, u.embedding, Some(u.workspace), hits)
    requires forall x :: x in nodes ==> x.id != u.id
    ensures EdgesOf(sim, threshold, nodes + [u], u, Outgoing(u, hits))
  {
    var es := Outgoing(u, hits);
    forall e | e in es
      ensures exists v :: v in nodes + [u] && Related(sim, threshold, u, v)
                && e == Edge(u.id, v.id, sim(u.embedding, v.embedding))
    {
      var i :| 0 <= i < |es| && es[i] == e;
      assert hits[i] in hits;
      var v :| v in nodes && Matches(sim, threshold, u.embedding, Some(u.workspace), v)
          && hits[i] == Hit(v.id, sim(u.embedding, v.embedding));
      assert v in nodes + [u];
    }
    forall v | v in nodes + [u] && Related(sim, threshold, u, v)
      ensures Edge(u.id, v.id, sim(u.embedding, v.embedding)) in es
    {
      assert v in nodes;
      var h := Hit(v.id, sim(u.embedding, v.embedding));
      assert h in hits;
      var i :| 0 <= i < |hits| && hits[i] == h;
      assert es[i] in es;
    }
  }

  /** Half-way through linking the new node: the nodes hit so far have their back-edge. */
  ghost predicate Linking(edges: map<string, seq<Edge>>, now: map<string, seq<Edge>>, u: Node, hits: seq<Hit>, k: nat)
    requires k <= |hits|
  {
    && u.id !in edges && now.Keys == edges.Keys + {u.id} && now[u.id] == Outgoing(u, hits[..k])
    && (forall id :: id in edges && (forall j :: 0 <= j < k ==> hits[j].id != id) ==> now[id] == edges[id])
    && (forall j :: 0 <= j < k ==>
        hits[j].id in edges && now[hits[j].id] == edges[hits[j].id] + [Edge(hits[j].id, u.id, hits[j].score)])
  }

  lemma Linked(sim: Measure, threshold: real, nodes: seq<Node>, edges: map<string, seq<Edge>>,
               now: map<string, seq<Edge>>,
               u: Node, hits: seq<Hit>, v: Node)
    requires DistinctNodes(nodes) && v in nodes && v.id in edges && forall x :: x in nodes ==> x.id != u.id
    requires Hits(sim, threshold, nodes, u.embedding, Some(u.workspace), hits) && Linking(edges, now, u, hits, |hits|)
    ensures now[v.id] == Extended(sim, threshold, u, v, edges[v.id])
  {
    if Related(sim, threshold, u, v) {
      var h := Hit(v.id, sim(u.embedding, v.embedding));
      assert h in hits;
      var j :| 0 <= j < |hits| && hits[j] == h;
      assert now[hits[j].id] == edges[hits[j].id] + [Edge(hits[j].id, u.id, hits[j].score)];
    } else {
      forall j | 0 <= j < |hits|
        ensures hits[j].id != v.id
      {
        assert hits[j] in hits;
        var x :| x in nodes && Matches(sim, threshold, u.embedding, Some(u.workspace), x)
            && hits[j] == Hit(x.id, sim(u.embedding, x.embedding));
        if x.id == v.id {
          SameMember(nodes, (y: Node) => y.id, x, v);
        }
      }
    }
  }

  class Graph {
    const sim: Measure
    const threshold: real
    var nodes: seq<Node>
    var edges: map<string, seq<Edge>>

    ghost predicate Valid()
      reads this
    {
      Symmetric(sim) && AllPairs(sim, threshold, nodes, edges)
    }

    constructor (sim: Measure, threshold: real)
      requires Symmetric(sim)
      ensures Valid() && nodes == [] && edges == map[] && this.sim == sim && this.threshold == threshold
    {
      this.sim, this.threshold := sim, threshold;
      nodes, edges := [], map[];
    }

    /** Nodes above the threshold, best first, within one workspace or across all. */
    method FindSimilar(embedding: Embedding, workspace: Option<string>) returns (hits: seq<Hit>)
      requires Valid()
      ensures Hits(sim, threshold, nodes, embedding, workspace, hits) && Descending(hits)
    {
      hide AllPairs, EdgesOf;
      assert DistinctNodes(nodes) by { NodesDistinct(sim, threshold, nodes, edges); }
      var found: seq<Hit> := [];
      for i := 0 to |nodes|
        invariant Hits(sim, threshold, nodes[..i], embedding, workspace, found)
      {
        var v := nodes[i];
        var score := sim(embedding, v.embedding);
        AddHit(sim, threshold, nodes, i, embedding, workspace, found);
        if workspace.Some? && v.workspace != workspace.value {
          continue;
        }
        if score >= threshold {
          found := found + [Hit(v.id, score)];
        }
      }
      assert nodes[..|nodes|] == nodes;
      hits := Ranked(found);
      RankedFacts(found);
      SameHits(sim, threshold, nodes, embedding, workspace, found, hits);
    }

    /** Adds a node and both directions of its edges; the graph stays the all-pairs graph. */
    method AddNode(u: Node)
      requires Valid() && forall v :: v in nodes ==> v.id != u.id
      modifies this
      ensures Valid() && nodes == old(nodes) + [u]
    {
      hide AllPairs, EdgesOf, Hits, Linking;
      var similar := FindSimilar(u.embedding, Some(u.workspace));
      ghost var before := edges;
      NewId(sim, threshold, nodes, edges, u, similar);
      nodes := nodes + [u];
      edges := edges[u.id := []];
      LinkStart(before, u, similar);
      for k := 0 to |similar|
        invariant nodes == old(nodes) + [u] && Linking(before, edges, u, similar, k)
      {
        var h := similar[k];
        LinkNext(before, edges, u, similar, k);
        edges := edges[u.id := edges[u.id] + [Edge(u.id, h.id, h.score)]];
        edges := edges[h.id := (if h.id in edges then edges[h.id] else []) + [Edge(h.id, u.id, h.score)]];
      }
      assert similar[..|similar|] == similar;
      NodeAdded(sim, threshold, old(nodes), before, edges, u, similar);
    }
  }

  lemma LinkStart(edges: map<string, seq<Edge>>, u: Node, hits: seq<Hit>)
    requires u.id !in edges
    ensures Linking(edges, edges[u.id := []], u, hits, 0)
  {
  }

  lemma LinkNext(edges: map<string, seq<Edge>>, now: map<string, seq<Edge>>, u: Node, hits: seq<Hit>, k: nat)
    requires k < |hits| && Linking(edges, now, u, hits, k) && hits[k].id in edges
    requires forall i, j :: 0 <= i < j < |hits| ==> hits[i].id != hits[j].id
    ensures u.id in now && hits[k].id in now && hits[k].id != u.id
    ensures Linking(edges, now[u.id := now[u.id] + [Edge(u.id, hits[k].id, hits[k].score)]]
                           [hits[k].id := now[hits[k].id] + [Edge(hits[k].id, u.id, hits[k].score)]], u, hits, k + 1)
  {
    assert hits[..k + 1] == hits[..k] + [hits[k]];
    assert now[hits[k].id] == edges[hits[k].id];
  }

  lemma NodesDistinct(sim: Measure, threshold: real, nodes: seq<Node>, edges: map<string, seq<Edge>>)
    requires AllPairs(sim, threshold, nodes, edges)
    ensures DistinctNodes(nodes)
  {
  }

  lemma AddHit(sim: Measure, threshold: real, nodes: seq<Node>, i: nat, embedding: Embedding,
               workspace: Option<string>, found: seq<Hit>)
    requires i < |nodes| && DistinctNodes(nodes) && Hits(sim, threshold, nodes[..i], embedding, workspace, found)
    ensures Hits(sim, threshold, nodes[..i + 1], embedding, workspace,
                 if Matches(sim, threshold, embedding, workspace, nodes[i])
                     then found + [Hit(nodes[i].id, sim(embedding, nodes[i].embedding))] else found)
  {
    assert nodes[..i + 1] == nodes[..i] + [nodes[i]];
    forall j | 0 <= j < |found|
      ensures found[j].id != nodes[i].id
    {
      assert found[j] in found;
    }
  }

  lemma SameHits(sim: Measure, threshold: real, nodes: seq<Node>, embedding: Embedding, workspace: Option<string>,
                 found: seq<Hit>, hits: seq<Hit>)
    requires Hits(sim, threshold, nodes, embedding, workspace, found) && multiset(found) == multiset(hits)
    ensures Hits(sim, threshold, nodes, embedding, workspace, hits)
  {
    assert forall h :: h in hits <==> h in multiset(hits);
    assert forall h :: h in found <==> h in multiset(found);
    StillDistinct(found, hits);
  }

  lemma StillDistinct(found: seq<Hit>, hits: seq<Hit>)
    requires multiset(found) == multiset(hits)
    requires forall i, j :: 0 <= i < j < |found| ==> found[i].id != found[j].id
    ensures forall i, j :: 0 <= i < j < |hits| ==> hits[i].id != hits[j].id
  {
    forall i, j | 0 <= i < j < |hits|
      ensures hits[i].id != hits[j].id
    {
      if hits[i].id == hits[j].id {
        assert hits[i] in multiset(found) && hits[j] in multiset(found);
        var a :| 0 <= a < |found| && found[a] == hits[i];
        var b :| 0 <= b < |found| && found[b] == hits[j];
        DistinctMultiset(found, hits[i]);
        Twice(hits, i, j);
      }
    }
  }

  lemma Twice(hits: seq<Hit>, i: nat, j: nat)
    requires i < j < |hits| && hits[i] == hits[j]
    ensures multiset(hits)[hits[i]] >= 2
  {
    var front := hits[..j];
    assert hits == front + hits[j..];
    assert front[i] in multiset(front) && hits[j..][0] in multiset(hits[j..]);
  }

  lemma NewId(sim: Measure, threshold: real, nodes: seq<Node>, edges: map<string, seq<Edge>>, u: Node, hits: seq<Hit>)
    requires AllPairs(sim, threshold, nodes, edges) && forall v :: v in nodes ==> v.id != u.id
    requires Hits(sim, threshold, nodes, u.embedding, Some(u.workspace), hits)
    ensures u.id !in edges && forall i :: 0 <= i < |hits| ==> hits[i].id in edges
    ensures forall i, j :: 0 <= i < j < |hits| ==> hits[i].id != hits[j].id
  {
    forall i | 0 <= i < |hits|
      ensures hits[i].id in edges
    {
      assert hits[i] in hits;
    }
  }

  lemma NodeAdded(sim: Measure, threshold: real, nodes: seq<Node>, edges: map<string, seq<Edge>>,
                  now: map<string, seq<Edge>>, u: Node, hits: seq<Hit>)
    requires Symmetric(sim) && AllPairs(sim, threshold, nodes, edges) && forall v :: v in nodes ==> v.id != u.id
    requires Hits(sim, threshold, nodes, u.embedding, Some(u.workspace), hits) && Linking(edges, now, u, hits, |hits|)
    ensures AllPairs(sim, threshold, nodes + [u], now)
  {
    hide EdgesOf, Hits;
    assert hits[..|hits|] == hits;
    forall v | v in nodes + [u]
      ensures v.id in now && EdgesOf(sim, threshold, nodes + [u], v, now[v.id])
    {
      if v in nodes {
        Linked(sim, threshold, nodes, edges, now, u, hits, v);
        ExtendedEdges(sim, threshold, nodes, u, v, edges[v.id]);
      } else {
        OutgoingEdges(sim, threshold, nodes, u, hits);
      }
    }
    forall id | id in now
      ensures exists v :: v in nodes + [u] && v.id == id
    {
      if id == u.id {
        assert u in nodes + [u];
      } else {
        var v :| v in nodes && v.id == id;
        assert v in nodes + [u];
      }
    }
    assert forall i :: 0 <= i < |nodes| ==> nodes[i] in nodes;
  }
}
