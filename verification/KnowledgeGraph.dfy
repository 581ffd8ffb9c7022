/** The knowledge graph engine: entities and relations updated in place, neighbour and path
    queries, entity merge and rule inference. */
module KnowledgeGraph {
  import opened Common
  import opened GraphPaths
  import opened SemanticGraph
  import opened GraphInference

  /** The dictionary update `relations[r.id] = r`. */
  function PutRelation(rels: seq<Relation>, r: Relation): seq<Relation>
  {
    if rels == [] then [r]
    else if rels[0].id == r.id then [r] + rels[1..]
    else [rels[0]] + PutRelation(rels[1..], r)
  }

  lemma {:induction false} PutRelationFacts(rels: seq<Relation>, r: Relation)
    ensures r in PutRelation(rels, r)
    ensures forall q :: q in PutRelation(rels, r) ==> q == r || q in rels
    ensures DistinctRelations(rels) ==> forall q :: q in rels && q.id != r.id ==> q in PutRelation(rels, r)
    ensures DistinctRelations(rels) ==> DistinctRelations(PutRelation(rels, r))
  {
    if rels != [] {
      PutRelationFacts(rels[1..], r);
      if rels[0].id != r.id {
        var p := PutRelation(rels[1..], r);
        assert forall i :: 0 < i < |p| + 1 ==> ([rels[0]] + p)[i] == p[i - 1] && p[i - 1] in p;
        assert forall q :: q in rels[1..] ==> exists j :: 0 < j < |rels| && rels[j] == q;
      }
    }
  }

  /** The dictionary update `entities[e.id] = e`. */
  function PutEntity(es: seq<Entity>, e: Entity): seq<Entity>
  {
    if e.id in EntityIds(es) then Replace(es, e) else es + [e]
  }

  /** A relation with a new id comes last; one with an id in use takes its place. */
  lemma {:induction false} PutRelationPlace(rels: seq<Relation>, r: Relation)
    requires DistinctRelations(rels)
    ensures (forall q :: q in rels ==> q.id != r.id) ==> PutRelation(rels, r) == rels + [r]
    ensures (exists q :: q in rels && q.id == r.id) ==>
              && |PutRelation(rels, r)| == |rels|
              && forall i :: 0 <= i < |rels| ==> PutRelation(rels, r)[i] == if rels[i].id == r.id then r else rels[i]
  {
    if rels != [] && rels[0].id != r.id {
      PutRelationPlace(rels[1..], r);
      assert rels == [rels[0]] + rels[1..];
    }
  }

  lemma PutEntityFacts(es: seq<Entity>, e: Entity)
    requires DistinctEntities(es)
    ensures DistinctEntities(PutEntity(es, e))
    ensures EntityIds(PutEntity(es, e)) == EntityIds(es) + {e.id}
  {
    if e.id in EntityIds(es) {
      ReplaceIds(es, e);
    } else {
      assert forall i :: 0 <= i < |es| ==> es[i] in es;
      assert EntityIds(es + [e]) == EntityIds(es) + {e.id} by {
        assert forall x :: x in es + [e] <==> x in es || x == e;
      }
    }
  }

  /** The relations that can be walked from the entity, optionally of one type, in order. */
  function Hops(rels: seq<Relation>, id: string, kind: Option<RelationKind>): seq<Relation>
  {
    if rels == [] then []
    else
      var r := rels[|rels| - 1];
      Hops(rels[..|rels| - 1], id, kind)
      + if Leaves(r, id) && (kind.None? || r.kind == kind.value) then [r] else []
  }

  function Via(out: seq<(Entity, Relation)>): seq<Relation>
  {
    seq(|out|, i requires 0 <= i < |out| => out[i].1)
  }

  /** Both ends of a relation exist. */
  lemma FarEnd(g: Graph, r: Relation, id: string)
    requires WellFormed(g) && r in g.relations && Leaves(r, id)
    ensures Lookup(g.entities, Other(r, id)).Some?
  {
  }

  lemma {:induction false} HopsAre(rels: seq<Relation>, id: string, kind: Option<RelationKind>, r: Relation)
    ensures r in Hops(rels, id, kind) <==> r in rels && Leaves(r, id) && (kind.None? || r.kind == kind.value)
  {
    if rels != [] {
      var n := |rels| - 1;
      HopsAre(rels[..n], id, kind, r);
      assert r in rels <==> r in rels[..n] || r == rels[n];
    }
  }

  /** Each relation is listed with the entity at its far end. */
  ghost predicate FarEnds(es: seq<Entity>, id: string, out: seq<(Entity, Relation)>)
  {
    forall j :: 0 <= j < |out| ==> Lookup(es, Other(out[j].1, id)) == Some(out[j].0)
  }

  lemma NoHops(es: seq<Entity>, id: string, kind: Option<RelationKind>)
    ensures Via([]) == [] == Hops([], id, kind) && FarEnds(es, id, [])
  {
  }

  lemma HopsNext(rels: seq<Relation>, i: nat, id: string, kind: Option<RelationKind>)
    requires i < |rels|
    ensures Hops(rels[..i + 1], id, kind) ==
            Hops(rels[..i], id, kind)
            + if Leaves(rels[i], id) && (kind.None? || rels[i].kind == kind.value) then [rels[i]] else []
  {
    assert rels[..i + 1][..i] == rels[..i];
  }

  lemma ViaNext(es: seq<Entity>, id: string, out: seq<(Entity, Relation)>, x: (Entity, Relation))
    requires FarEnds(es, id, out) && Lookup(es, Other(x.1, id)) == Some(x.0)
    ensures Via(out + [x]) == Via(out) + [x.1] && FarEnds(es, id, out + [x])
  {
  }

  /** Hops listed with their far ends are exactly the pairs that the relations allow. */
  lemma HopsMembers(g: Graph, id: string, kind: Option<RelationKind>, out: seq<(Entity, Relation)>)
    requires WellFormed(g) && Via(out) == Hops(g.relations, id, kind)
    requires FarEnds(g.entities, id, out)
    ensures forall e, r :: (e, r) in out <==>
              r in g.relations && Leaves(r, id) && (kind.None? || r.kind == kind.value) && e in g.entities
              && e.id == Other(r, id)
  {
    forall e, r
      ensures (e, r) in out <==>
              r in g.relations && Leaves(r, id) && (kind.None? || r.kind == kind.value) && e in g.entities
              && e.id == Other(r, id)
    {
      HopsAre(g.relations, id, kind, r);
      hide Hops, EntityIds;
      if (e, r) in out {
        var j :| 0 <= j < |out| && out[j] == (e, r);
        assert Via(out)[j] == r;
      }
      if r in Hops(g.relations, id, kind) && e in g.entities && e.id == Other(r, id) {
        var j :| 0 <= j < |out| && Via(out)[j] == r;
        UniqueEntity(g.entities, e);
        assert out[j] == (e, r);
      }
    }
  }

  class Engine {
    const lower: string -> string      // case folding of names
    const uuid: nat -> string          // the n-th relation id inference draws
    var entities: seq<Entity>
    var relations: seq<Relation>
    var drawn: nat
    var version: int

    function Value(): Graph
      reads this`entities, this`relations, this`drawn
    {
      Graph(entities, relations, drawn)
    }

    /** Holds in every state reachable through additions, merges and inference. */
    ghost predicate Valid()
      reads this`entities, this`relations, this`drawn
    {
      WellFormed(Value()) && NewIds(Value(), uuid)
    }

    constructor (lower: string -> string, uuid: nat -> string)
      requires forall n, m :: 0 <= n < m ==> uuid(n) != uuid(m)
      ensures Valid() && Value() == Graph([], [], 0) && version == 1
      ensures this.lower == lower && this.uuid == uuid
    {
      this.lower, this.uuid := lower, uuid;
      entities, relations, drawn, version := [], [], 0, 1;
    }

    /** An entity whose name is already there, in any case, updates the first such entity. */
    method AddEntity(e: Entity) returns (r: Entity)
      requires Valid()
      modifies this
      ensures Valid() && relations == old(relations) && drawn == old(drawn) && version == old(version) + 1
      ensures r in entities && EntityIds(old(entities)) <= EntityIds(entities)
      ensures (forall x :: x in old(entities) ==> lower(x.name) != lower(e.name)) ==>
                r == e && entities == PutEntity(old(entities), e)
      ensures (exists x :: x in old(entities) && lower(x.name) == lower(e.name)) ==>
                exists k :: 0 <= k < |old(entities)| && FirstNamed(old(entities), k, e.name) &&
                            r == Refreshed(old(entities)[k], e) && entities == old(entities)[k := r]
    {
      var i := 0;
      while i < |entities|
        invariant 0 <= i <= |entities|
        invariant forall j :: 0 <= j < i ==> lower(entities[j].name) != lower(e.name)
        invariant entities == old(entities) && relations == old(relations) && drawn == old(drawn)
                    && version == old(version)
      {
        if lower(entities[i].name) == lower(e.name) {
          r := Refreshed(entities[i], e);
          assert FirstNamed(old(entities), i, e.name);
          ReplaceIds(entities, r);
          assert Replace(entities, r) == entities[i := r];
          entities := entities[i := r];
          assert r == entities[i];
          version := version + 1;
          assert entities == old(entities)[i := r];
          return;
        }
        i := i + 1;
      }
      PutEntityFacts(entities, e);
      r := e;
      entities := PutEntity(entities, e);
      assert e in entities by {
        if e.id in EntityIds(old(entities)) {
          var x :| x in old(entities) && x.id == e.id;
          var k :| 0 <= k < |old(entities)| && old(entities)[k] == x;
          assert entities[k] == e;
        } else {
          assert entities[|old(entities)|] == e;
        }
      }
      version := version + 1;
    }

    ghost predicate FirstNamed(es: seq<Entity>, k: nat, name: string)
      requires k < |es|
    {
      lower(es[k].name) == lower(name) && forall j :: 0 <= j < k ==> lower(es[j].name) != lower(name)
    }

    /** The entity with the other's properties on top, the greater confidence, and the other's source
        if it names one. */
    function Refreshed(x: Entity, e: Entity): (r: Entity)
      ensures r.id == x.id && r.name == x.name && r.kind == x.kind && r.props.Keys == x.props.Keys + e.props.Keys
      ensures forall k :: k in e.props ==> r.props[k] == e.props[k]
      ensures forall k :: k in x.props && k !in e.props ==> r.props[k] == x.props[k]
      ensures r.confidence >= x.confidence && r.confidence >= e.confidence
      ensures r.confidence in {x.confidence, e.confidence} && (e.source != "" ==> r.source == e.source)
      ensures e.source == "" ==> r.source == x.source
    {
      x.(props := x.props + e.props,
         confidence := if e.confidence > x.confidence then e.confidence else x.confidence,
         source := if e.source != "" then e.source else x.source)
    }

    /** Refused, with nothing changed, unless both endpoints exist. */
    method AddRelation(r: Relation) returns (ok: bool)
      requires Valid()
      requires forall n :: n >= drawn ==> uuid(n) != r.id
      modifies this
      ensures Valid() && entities == old(entities) && drawn == old(drawn)
      ensures ok <==> r.source in EntityIds(entities) && r.target in EntityIds(entities)
      ensures relations == if ok then PutRelation(old(relations), r) else old(relations)
      ensures version == old(version) + if ok then 1 else 0
    {
      if Lookup(entities, r.source).None? || Lookup(entities, r.target).None? {
        return false;
      }
      PutRelationFacts(relations, r);
      relations := PutRelation(relations, r);
      version := version + 1;
      return true;
    }

    /** Exactly the hops that relations allow out of the entity, optionally of one kind only. */
    method GetNeighbors(id: string, kind: Option<RelationKind>) returns (out: seq<(Entity, Relation)>)
      requires Valid()
      ensures id !in EntityIds(entities) ==> out == []
      ensures id in EntityIds(entities) ==> Via(out) == Hops(relations, id, kind)
      ensures id in EntityIds(entities) ==> forall e, r :: (e, r) in out <==>
                r in relations && Leaves(r, id) && (kind.None? || r.kind == kind.value) && e in entities
                    && e.id == Other(r, id)
    {
      out := [];
      if Lookup(entities, id).None? {
        return;
      }
      hide *;
      out := ListHops(id, kind);
      HopsMembers(Value(), id, kind, out);
    }

    method ListHops(id: string, kind: Option<RelationKind>) returns (out: seq<(Entity, Relation)>)
      requires WellFormed(Value())
      ensures Via(out) == Hops(relations, id, kind) && FarEnds(entities, id, out)
    {
      hide Lookup, EntityIds, WellFormed, Hops, Via, FarEnds, Leaves, Other;
      out := [];
      NoHops(entities, id, kind);
      assert relations[..0] == [];
      for i := 0 to |relations|
        invariant Via(out) == Hops(relations[..i], id, kind) && FarEnds(entities, id, out)
      {
        var r := relations[i];
        HopsNext(relations, i, id, kind);
        if Leaves(r, id) && (kind.None? || r.kind == kind.value) {
          FarEnd(Value(), r, id);
          var other := Lookup(entities, Other(r, id));
          ViaNext(entities, id, out, (other.value, r));
          out := out + [(other.value, r)];
        }
      }
      assert relations[..|relations|] == relations;
    }

    /** A shortest chain of relations between the two entities, of whatever length; none exactly
        when an endpoint is missing or no chain exists. The depth limit is not used. */
    method FindPath(from: string, to: string, maxDepth: int) returns (r: Option<seq<Relation>>)
      requires Valid()
      ensures r.Some? ==> Shortest(relations, from, r.value, to)
      ensures r.None? <==> from !in EntityIds(entities) || to !in EntityIds(entities) || !Reach(relations, from, to)
    {
      if Lookup(entities, from).None? || Lookup(entities, to).None? {
        return None;
      }
      var prev;
      ghost var dist;
      prev, dist := Search(EntityIds(entities), relations, from, to);
      if to !in prev && from != to {
        return None;
      }
      var path := Reconstruct(relations, from, to, prev, dist);
      return Some(path);
    }

    /** Redirects every relation end at `dup` to the canonical entity. */
    method RedirectRelations(dup: string, canonical: string)
      modifies this`relations
      ensures relations == RedirectAll(old(relations), dup, canonical)
    {
      var i := 0;
      while i < |relations|
        invariant 0 <= i <= |relations| == |old(relations)|
        invariant forall j :: 0 <= j < i ==> relations[j] == Redirect(old(relations)[j], dup, canonical)
        invariant forall j :: i <= j < |relations| ==> relations[j] == old(relations)[j]
      {
        if relations[i].source == dup {
          relations := relations[i := relations[i].(source := canonical)];
        }
        if relations[i].target == dup {
          relations := relations[i := relations[i].(target := canonical)];
        }
        i := i + 1;
      }
    }

    /** One duplicate of a merge. */
    method MergeDuplicate(canonical: string, dup: string) returns (merged: bool)
      requires canonical in EntityIds(entities)
      modifies this`entities, this`relations
      ensures Value() == MergeOne(old(Value()), canonical, dup)
      ensures merged <==> !Passed(old(Value()), canonical, dup)
    {
      if dup == canonical || Lookup(entities, dup).None? {
        return false;
      }
      var c, d := Lookup(entities, canonical).value, Lookup(entities, dup).value;
      entities := Replace(entities, Absorb(c, d));
      RedirectRelations(dup, canonical);
      entities := Without(entities, dup);
      return true;
    }

    method MergeEach(canonical: string, dups: seq<string>) returns (any: bool)
      requires canonical in EntityIds(entities)
      modifies this`entities, this`relations
      ensures Value() == MergeAll(old(Value()), canonical, dups)
      ensures any <==> Merged(old(Value()), canonical, dups) != {}
    {
      hide MergeOne, MergeAll, Merged, EntityIds, Passed;
      ghost var g := Value();
      MergeNothing(g, canonical);
      any := false;
      assert dups[..0] == [];
      for i := 0 to |dups|
        invariant Value() == MergeAll(g, canonical, dups[..i])
        invariant any <==> Merged(g, canonical, dups[..i]) != {}
      {
        MergeNext(g, canonical, dups, i);
        var merged := MergeDuplicate(canonical, dups[i]);
        any := any || merged;
      }
      assert dups[..|dups|] == dups;
    }

    /** Merges the duplicates into the canonical entity; a missing canonical entity is an error
        that changes nothing. */
    method Merge(canonical: string, dups: seq<string>) returns (ok: bool)
      requires Valid()
      modifies this
      ensures Valid()
      ensures ok <==> canonical in EntityIds(old(entities))
      ensures !ok ==> Value() == old(Value()) && version == old(version)
      ensures ok ==> Value() == MergeAll(old(Value()), canonical, dups)
      ensures ok ==> version == old(version) + if Merged(old(Value()), canonical, dups) == {} then 0 else 1
    {
      ghost var g0 := Value();
      if Lookup(entities, canonical).None? {
        return false;
      }
      var any := MergeEach(canonical, dups);
      hide WellFormed, NewIds, Merged, EntityIds, MergeAll;
      MergeAllWellFormed(g0, canonical, dups);
      MergeAllIds(g0, canonical, dups, uuid);
      if any {
        version := version + 1;
      }
      return true;
    }

    method MatchFrom(rule: Rule, src: Entity) returns (pairs: seq<(string, string)>)
      ensures pairs == MatchesFrom(entities, relations, rule, src)
    {
      pairs := [];
      if rule.sourceType != "" && EntityKindValue(src.kind) != rule.sourceType {
        NoMatchFrom(entities, relations, rule, src);
        return;
      }
      for j := 0 to |relations|
        invariant pairs == MatchesFrom(entities, relations[..j], rule, src)
      {
        var rel := relations[j];
        assert relations[..j + 1][..j] == relations[..j];
        if rel.source != src.id {
          continue;
        }
        if rule.relation != "" && RelationKindValue(rel.kind) != rule.relation {
          continue;
        }
        var tgt := Lookup(entities, rel.target);
        if tgt.None? {
          continue;
        }
        if rule.targetType != "" && EntityKindValue(tgt.value.kind) != rule.targetType {
          continue;
        }
        pairs := pairs + [(src.id, tgt.value.id)];
      }
      assert relations[..|relations|] == relations;
    }

    /** The pairs a rule matches: its pattern accepts the source entity, the relation and the target. */
    method MatchRule(rule: Rule) returns (pairs: seq<(string, string)>)
      ensures pairs == Matches(entities, entities, relations, rule)
      ensures forall p :: p in pairs <==> Matched(entities, entities, relations, rule, p)
    {
      pairs := [];
      for i := 0 to |entities|
        invariant pairs == Matches(entities, entities[..i], relations, rule)
      {
        assert entities[..i + 1][..i] == entities[..i];
        var more := MatchFrom(rule, entities[i]);
        pairs := pairs + more;
      }
      assert entities[..|entities|] == entities;
      forall p
        ensures p in pairs <==> Matched(entities, entities, relations, rule, p)
      {
        MatchesMembers(entities, entities, relations, rule, p);
      }
    }

    /** Links the matched pairs that no similar_to relation joins yet. */
    method CreateLinks(pairs: seq<(string, string)>)
      modifies this`relations, this`drawn
      ensures Value() == LinkPairs(old(Value()), pairs, uuid)
    {
      ghost var g := Value();
      for i := 0 to |pairs|
        invariant Value() == LinkPairs(g, pairs[..i], uuid)
      {
        assert pairs[..i + 1][..i] == pairs[..i];
        var (a, b) := pairs[i];
        if !Linked(relations, a, b) {
          relations := relations + [Relation(uuid(drawn), a, b, SimilarTo, 1.0, false)];
          drawn := drawn + 1;
        }
      }
      assert pairs[..|pairs|] == pairs;
    }

    /** Merges the matched pairs one by one, until one's first entity is gone. */
    method MergeMatches(pairs: seq<(string, string)>) returns (ok: bool)
      requires Valid()
      modifies this
      ensures Valid() && Step(Value(), ok) == MergePairs(old(Value()), pairs)
    {
      hide WellFormed, NewIds, MergeAll;
      ghost var g := Value();
      for i := 0 to |pairs|
        invariant Valid() && Step(Value(), true) == MergePairs(g, pairs[..i])
      {
        assert pairs[..i + 1][..i] == pairs[..i];
        var merged := Merge(pairs[i].0, [pairs[i].1]);
        if !merged {
          MergePairsStop(g, pairs, i);
          return false;
        }
      }
      assert pairs[..|pairs|] == pairs;
      return true;
    }

    /** One rule's action on everything it matches. */
    method Fire(rule: Rule) returns (ok: bool)
      requires Valid()
      modifies this
      ensures Valid() && Step(Value(), ok) == ApplyRule(old(Value()), rule, uuid)
    {
      ApplyRuleWellFormed(Value(), rule, uuid);
      ok := true;
      var pairs := MatchRule(rule);
      match rule.action
      case CreateRelation => CreateLinks(pairs);
      case MergeEntities => ok := MergeMatches(pairs);
      case RaiseAlert =>
    }

    /** All active rules once, in order, up to the first that fails. */
    method RunPass(active: seq<Rule>) returns (ok: bool)
      requires Valid()
      modifies this
      ensures Valid() && Step(Value(), ok) == Pass(old(Value()), active, uuid)
    {
      hide WellFormed, NewIds, ApplyRule;
      ghost var g := Value();
      for i := 0 to |active|
        invariant Valid() && Step(Value(), true) == Pass(g, active[..i], uuid)
      {
        assert active[..i + 1][..i] == active[..i];
        var fired := Fire(active[i]);
        if !fired {
          PassStop(g, active, i, uuid);
          return false;
        }
      }
      assert active[..|active|] == active;
      return true;
    }

    /** Bounded inference: passes over the active rules until one adds no relation. Without
        merge rules its outcome does not depend on the bound. */
    method RunInference(rules: seq<Rule>, maxIterations: int) returns (ok: bool)
      requires Valid()
      modifies this
      ensures Valid()
      ensures Step(Value(), ok) ==
              Iterate(old(Value()), ActiveRules(rules), if maxIterations > 1 then maxIterations else 1, uuid)
      ensures NoMerging(ActiveRules(rules)) ==> ok && Value() == Pass(old(Value()), ActiveRules(rules), uuid).g
    {
      hide WellFormed, NewIds, Pass, NoMerging;
      var active := ActiveRules(rules);
      var left: nat := if maxIterations > 1 then maxIterations else 1;
      ghost var n, g0 := left, Value();
      if NoMerging(active) {
        OnePassSuffices(g0, active, n, uuid);
      }
      ok := true;
      while left > 0
        invariant Valid() && ok && Iterate(g0, active, n, uuid) == Iterate(Value(), active, left, uuid)
      {
        var before := |relations|;
        ok := RunPass(active);
        left := left - 1;
        if !ok || |relations| == before {
          return;
        }
      }
    }
  }

  /** Whatever pair find_path could connect before a merge, it connects the images of afterwards,
      by a path that is no longer. */
  method PathsSurviveMerge(e: Engine, canonical: string, dups: seq<string>, x: string, y: string)
    returns (before: Option<seq<Relation>>, after: Option<seq<Relation>>)
    requires e.Valid() && canonical in EntityIds(e.entities)
    modifies e
    ensures e.Valid() && e.Value() == MergeAll(old(e.Value()), canonical, dups)
    ensures before.Some? <==>
            x in EntityIds(old(e.entities)) && y in EntityIds(old(e.entities)) && Reach(old(e.relations), x, y)
    ensures before.Some? ==> after.Some? && |after.value| <= |before.value|
    ensures after.Some? ==>
              var g := old(e.Value());
              Shortest(e.relations, ImageAll(g, canonical, dups, x), after.value, ImageAll(g, canonical, dups, y))
  {
    hide WellFormed, NewIds, MergeAll;
    before := e.FindPath(x, y, 5);
    var x', y' := ImageAll(e.Value(), canonical, dups, x), ImageAll(e.Value(), canonical, dups, y);
    if before.Some? {
      assert WellFormed(e.Value());
      ghost var path := MergeKeepsChains(e.Value(), canonical, dups, x, before.value, y);
    }
    var ok := e.Merge(canonical, dups);
    after := e.FindPath(x', y', 5);
  }

  lemma MergeNothing(g: Graph, canonical: string)
    requires canonical in EntityIds(g.entities)
    ensures MergeAll(g, canonical, []) == g && Merged(g, canonical, []) == {}
  {
  }

  lemma MergeNext(g: Graph, canonical: string, dups: seq<string>, i: nat)
    requires canonical in EntityIds(g.entities) && i < |dups|
    ensures MergeAll(g, canonical, dups[..i + 1]) == MergeOne(MergeAll(g, canonical, dups[..i]), canonical, dups[i])
    ensures Merged(g, canonical, dups[..i + 1]) ==
            Merged(g, canonical, dups[..i])
            + if Passed(MergeAll(g, canonical, dups[..i]), canonical, dups[i]) then {} else {dups[i]}
  {
    assert dups[..i + 1][..i] == dups[..i];
    MergeAllEffect(g, canonical, dups[..i]);
    MergedNext(g, canonical, dups[..i + 1], MergeAll(g, canonical, dups[..i]));
  }

  lemma {:induction false} MergePairsStop(g: Graph, pairs: seq<(string, string)>, i: nat)
    requires i < |pairs|
    requires !MergePairs(g, pairs[..i]).ok || pairs[i].0 !in EntityIds(MergePairs(g, pairs[..i]).g.entities)
    ensures MergePairs(g, pairs) == Step(MergePairs(g, pairs[..i]).g, false)
    decreases |pairs|
  {
    var n := |pairs| - 1;
    if i < n {
      assert pairs[..n][..i] == pairs[..i];
      MergePairsStop(g, pairs[..n], i);
    }
  }

  lemma {:induction false} PassStop(g: Graph, rules: seq<Rule>, i: nat, uuid: nat -> string)
    requires i < |rules| && !Pass(g, rules[..i + 1], uuid).ok
    ensures Pass(g, rules, uuid) == Pass(g, rules[..i + 1], uuid)
    decreases |rules|
  {
    var n := |rules| - 1;
    if i < n {
      assert rules[..n][..i + 1] == rules[..i + 1];
      PassStop(g, rules[..n], i, uuid);
    } else {
      assert rules[..i + 1] == rules;
    }
  }

  lemma {:induction false} NoMatchFrom(es: seq<Entity>, rels: seq<Relation>, rule: Rule, src: Entity)
    requires rule.sourceType != "" && EntityKindValue(src.kind) != rule.sourceType
    ensures MatchesFrom(es, rels, rule, src) == []
  {
    if rels != [] {
      NoMatchFrom(es, rels[..|rels| - 1], rule, src);
    }
  }
}
