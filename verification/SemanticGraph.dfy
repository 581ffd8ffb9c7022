/** Semantic graphs as values, and what merging duplicate entities does to them. */
module SemanticGraph {
  import opened Common
  import opened GraphPaths

  datatype EntityKind = Person | Org | Concept | Event | Document | Custom

  datatype Entity = Entity(
    id: string, name: string, kind: EntityKind, props: map<string, string>, source: string, confidence: real)

  /** Both dictionaries are kept in insertion order; `drawn` counts the relation ids drawn so far. */
  datatype Graph = Graph(entities: seq<Entity>, relations: seq<Relation>, drawn: nat)

  function EntityIds(es: seq<Entity>): set<string>
  {
    set e | e in es :: e.id
  }

  ghost predicate DistinctEntities(es: seq<Entity>)
  {
    forall i, j :: 0 <= i < j < |es| ==> es[i].id != es[j].id
  }

  ghost predicate DistinctRelations(rels: seq<Relation>)
  {
    forall i, j :: 0 <= i < j < |rels| ==> rels[i].id != rels[j].id
  }

  /** Every relation connects two entities of the graph. */
  ghost predicate Anchored(g: Graph)
  {
    forall r :: r in g.relations ==> r.source in EntityIds(g.entities) && r.target in EntityIds(g.entities)
  }

  /** Relation ids from `drawn` on are new to the graph and to each other. */
  ghost predicate NewIds(g: Graph, uuid: nat -> string)
  {
    && (forall n, r :: n >= g.drawn && r in g.relations ==> uuid(n) != r.id)
    && (forall n, m :: g.drawn <= n < m ==> uuid(n) != uuid(m))
  }

  ghost predicate WellFormed(g: Graph)
  {
    DistinctEntities(g.entities) && DistinctRelations(g.relations) && Anchored(g)
  }

  // ---- merging ----

  function Image(dup: string, canonical: string, x: string): string
  {
    if x == dup then canonical else x
  }

  function Redirect(r: Relation, dup: string, canonical: string): Relation
  {
    r.(source := Image(dup, canonical, r.source), target := Image(dup, canonical, r.target))
  }

  function RedirectAll(rels: seq<Relation>, dup: string, canonical: string): (rs: seq<Relation>)
    ensures |rs| == |rels|
    ensures forall i :: 0 <= i < |rels| ==> rs[i] == Redirect(rels[i], dup, canonical)
  {
    seq(|rels|, i requires 0 <= i < |rels| => Redirect(rels[i], dup, canonical))
  }

  function Absorb(c: Entity, d: Entity): Entity
  {
    c.(props := c.props + d.props, confidence := if d.confidence > c.confidence then d.confidence else c.confidence)
  }

  /** The entity with the given id, if any. */
  function Lookup(es: seq<Entity>, id: string): (e: Option<Entity>)
    ensures e.Some? <==> id in EntityIds(es)
    ensures e.Some? ==> e.value in es && e.value.id == id
  {
    if es == [] then None
    else if es[0].id == id then Some(es[0])
    else Lookup(es[1..], id)
  }

  function Without(es: seq<Entity>, id: string): (r: seq<Entity>)
    ensures forall e :: e in r <==> e in es && e.id != id
    ensures DistinctEntities(es) ==> DistinctEntities(r)
  {
    if es == [] then []
    else (if es[0].id == id then [] else [es[0]]) + Without(es[1..], id)
  }

  /** Replaces the entity with e's id in place. */
  function Replace(es: seq<Entity>, e: Entity): (r: seq<Entity>)
    ensures |r| == |es|
    ensures forall i :: 0 <= i < |es| ==> r[i] == if es[i].id == e.id then e else es[i]
  {
    seq(|es|, i requires 0 <= i < |es| => if es[i].id == e.id then e else es[i])
  }

  /** A duplicate that is the canonical entity itself, or is not there, is passed over. */
  predicate Passed(g: Graph, canonical: string, dup: string)
  {
    dup == canonical || dup !in EntityIds(g.entities)
  }

  function MergeOne(g: Graph, canonical: string, dup: string): Graph
    requires canonical in EntityIds(g.entities)
  {
    if Passed(g, canonical, dup) then g
    else
      var c, d := Lookup(g.entities, canonical).value, Lookup(g.entities, dup).value;
      Graph(Without(Replace(g.entities, Absorb(c, d)), dup), RedirectAll(g.relations, dup, canonical), g.drawn)
  }

  lemma MergeOneIds(g: Graph, canonical: string, dup: string)
    requires canonical in EntityIds(g.entities)
    ensures EntityIds(MergeOne(g, canonical, dup).entities) ==
            if Passed(g, canonical, dup) then EntityIds(g.entities) else EntityIds(g.entities) - {dup}
    ensures canonical in EntityIds(MergeOne(g, canonical, dup).entities)
  {
    if !Passed(g, canonical, dup) {
      var c, d := Lookup(g.entities, canonical).value, Lookup(g.entities, dup).value;
      ReplaceIds(g.entities, Absorb(c, d));
      WithoutIds(Replace(g.entities, Absorb(c, d)), dup);
    }
  }

  lemma ReplaceIds(es: seq<Entity>, e: Entity)
    ensures EntityIds(Replace(es, e)) == EntityIds(es)
    ensures DistinctEntities(es) ==> DistinctEntities(Replace(es, e))
  {
    var r := Replace(es, e);
    forall i | 0 <= i < |es|
      ensures r[i].id == es[i].id && r[i].id in EntityIds(es) && es[i].id in EntityIds(r)
    {
      assert es[i] in es && r[i] in r;
    }
    forall x | x in EntityIds(r)
      ensures x in EntityIds(es)
    {
      var y :| y in r && y.id == x;
      var i :| 0 <= i < |r| && r[i] == y;
    }
    forall x | x in EntityIds(es)
      ensures x in EntityIds(r)
    {
      var y :| y in es && y.id == x;
      var i :| 0 <= i < |es| && es[i] == y;
    }
  }

  lemma WithoutIds(es: seq<Entity>, id: string)
    ensures EntityIds(Without(es, id)) == EntityIds(es) - {id}
  {
  }

  lemma MergeOneWellFormed(g: Graph, canonical: string, dup: string)
    requires WellFormed(g) && canonical in EntityIds(g.entities)
    ensures WellFormed(MergeOne(g, canonical, dup))
  {
    MergeOneIds(g, canonical, dup);
    if !Passed(g, canonical, dup) {
      var c, d := Lookup(g.entities, canonical).value, Lookup(g.entities, dup).value;
      ReplaceIds(g.entities, Absorb(c, d));
      var g' := MergeOne(g, canonical, dup);
      forall r | r in g'.relations
        ensures r.source in EntityIds(g'.entities) && r.target in EntityIds(g'.entities)
      {
        var i :| 0 <= i < |g'.relations| && g'.relations[i] == r;
        assert g.relations[i] in g.relations;
      }
    }
  }

  /** All duplicates, from left to right. */
  function MergeAll(g: Graph, canonical: string, dups: seq<string>): (g': Graph)
    requires canonical in EntityIds(g.entities)
    ensures canonical in EntityIds(g'.entities)
  {
    if dups == [] then g
    else
      var h := MergeAll(g, canonical, dups[..|dups| - 1]);
      MergeOneIds(h, canonical, dups[|dups| - 1]);
      MergeOne(h, canonical, dups[|dups| - 1])
  }

  /** The duplicates that really are merged away. */
  function Merged(g: Graph, canonical: string, dups: seq<string>): set<string>
  {
    set d | d in dups && d != canonical && d in EntityIds(g.entities)
  }

  function ImageAll(g: Graph, canonical: string, dups: seq<string>, x: string): string
  {
    if x in Merged(g, canonical, dups) then canonical else x
  }

  /** What merging does to entities, relations and relation ids. */
  lemma {:induction false} MergeAllEffect(g: Graph, canonical: string, dups: seq<string>)
    requires canonical in EntityIds(g.entities)
    ensures var g' := MergeAll(g, canonical, dups);
            && EntityIds(g'.entities) == EntityIds(g.entities) - Merged(g, canonical, dups)
            && |g'.relations| == |g.relations|
            && forall i :: 0 <= i < |g.relations| ==> g'.relations[i] == Carried(g, canonical, dups, g.relations[i])
  {
    if dups != [] {
      var n := |dups| - 1;
      MergeAllEffect(g, canonical, dups[..n]);
      var h := MergeAll(g, canonical, dups[..n]);
      MergeOneIds(h, canonical, dups[n]);
      hide EntityIds;
      forall x
        ensures ImageAll(g, canonical, dups, x) ==
                if Passed(h, canonical, dups[n]) then ImageAll(g, canonical, dups[..n], x)
                else Image(dups[n], canonical, ImageAll(g, canonical, dups[..n], x))
      {
        ImageNext(g, canonical, dups, h, x);
      }
      MergedNext(g, canonical, dups, h);
    }
  }

  /** A relation with both ends carried to their images. */
  function Carried(g: Graph, canonical: string, dups: seq<string>, r: Relation): Relation
  {
    r.(source := ImageAll(g, canonical, dups, r.source), target := ImageAll(g, canonical, dups, r.target))
  }

  lemma MergedNext(g: Graph, canonical: string, dups: seq<string>, h: Graph)
    requires dups != [] && EntityIds(h.entities) == EntityIds(g.entities) - Merged(g, canonical, dups[..|dups| - 1])
    ensures var d := dups[|dups| - 1];
            Merged(g, canonical, dups) ==
            Merged(g, canonical, dups[..|dups| - 1]) + if Passed(h, canonical, d) then {} else {d}
  {
    hide EntityIds;
    var n := |dups| - 1;
    assert forall d :: d in dups <==> d in dups[..n] || d == dups[n];
  }

  lemma ImageNext(g: Graph, canonical: string, dups: seq<string>, h: Graph, x: string)
    requires dups != [] && EntityIds(h.entities) == EntityIds(g.entities) - Merged(g, canonical, dups[..|dups| - 1])
    ensures var n := |dups| - 1;
            ImageAll(g, canonical, dups, x) ==
            if Passed(h, canonical, dups[n]) then ImageAll(g, canonical, dups[..n], x)
            else Image(dups[n], canonical, ImageAll(g, canonical, dups[..n], x))
  {
    MergedNext(g, canonical, dups, h);
    hide EntityIds;
  }

  lemma {:induction false} MergeAllWellFormed(g: Graph, canonical: string, dups: seq<string>)
    requires WellFormed(g) && canonical in EntityIds(g.entities)
    ensures WellFormed(MergeAll(g, canonical, dups))
  {
    if dups != [] {
      MergeAllWellFormed(g, canonical, dups[..|dups| - 1]);
      MergeOneWellFormed(MergeAll(g, canonical, dups[..|dups| - 1]), canonical, dups[|dups| - 1]);
    }
  }

  lemma UniqueEntity(es: seq<Entity>, e: Entity)
    requires DistinctEntities(es) && e in es
    ensures Lookup(es, e.id) == Some(e)
  {
    SameMember(es, (x: Entity) => x.id, e, Lookup(es, e.id).value);
  }

  lemma AbsorbedInPlace(es: seq<Entity>, canonical: string, dup: string)
    requires canonical in EntityIds(es) && dup in EntityIds(es) && canonical != dup
    ensures var c, d := Lookup(es, canonical).value, Lookup(es, dup).value;
            var r := Without(Replace(es, Absorb(c, d)), dup);
            Absorb(c, d) in r && forall e :: e in es && e.id != canonical && e.id != dup ==> e in r
  {
    var c, d := Lookup(es, canonical).value, Lookup(es, dup).value;
    var r := Replace(es, Absorb(c, d));
    forall e | e in es
      ensures e.id == canonical ==> Absorb(c, d) in r
      ensures e.id != canonical ==> e in r
    {
      var i :| 0 <= i < |es| && es[i] == e;
      assert r[i] in r;
    }
  }

  /** One merged duplicate: the canonical entity takes over its properties, the duplicate's values
      winning, and the greater confidence; all other entities are untouched. */
  lemma DuplicateAbsorbed(g: Graph, canonical: string, dup: string)
    requires WellFormed(g) && canonical in EntityIds(g.entities) && !Passed(g, canonical, dup)
    ensures var c, d := Lookup(g.entities, canonical).value, Lookup(g.entities, dup).value;
            var c' := Lookup(MergeOne(g, canonical, dup).entities, canonical);
            && c'.Some? && c'.value.id == c.id && c'.value.name == c.name && c'.value.kind == c.kind
                && c'.value.source == c.source
            && c'.value.props.Keys == c.props.Keys + d.props.Keys
            && (forall k :: k in d.props ==> c'.value.props[k] == d.props[k])
            && (forall k :: k in c.props && k !in d.props ==> c'.value.props[k] == c.props[k])
            && c'.value.confidence >= c.confidence && c'.value.confidence >= d.confidence
            && (c'.value.confidence == c.confidence || c'.value.confidence == d.confidence)
    ensures forall e :: e in g.entities && e.id != canonical && e.id != dup ==>
              e in MergeOne(g, canonical, dup).entities
  {
    AbsorbedInPlace(g.entities, canonical, dup);
    MergeOneWellFormed(g, canonical, dup);
    hide EntityIds, Replace, Without, Lookup, Anchored, DistinctRelations;
    var c, d := Lookup(g.entities, canonical).value, Lookup(g.entities, dup).value;
    UniqueEntity(MergeOne(g, canonical, dup).entities, Absorb(c, d));
  }

  /** Merging keeps every fact: the canonical entity ends with the properties of all merged
      duplicates and a confidence no lower than any of theirs; entities not involved are untouched. */
  lemma {:induction false} MergeKeepsFacts(g: Graph, canonical: string, dups: seq<string>)
    requires WellFormed(g) && canonical in EntityIds(g.entities)
    ensures forall x :: x in Merged(g, canonical, dups) + {canonical} ==>
              FactsKept(Lookup(g.entities, x).value, Lookup(MergeAll(g, canonical, dups).entities, canonical).value)
    ensures forall e :: e in g.entities && e.id != canonical && e.id !in Merged(g, canonical, dups) ==>
              e in MergeAll(g, canonical, dups).entities
  {
    if dups != [] {
      var n := |dups| - 1;
      var h, dup := MergeAll(g, canonical, dups[..n]), dups[n];
      MergeKeepsFacts(g, canonical, dups[..n]);
      MergeAllEffect(g, canonical, dups[..n]);
      MergeAllWellFormed(g, canonical, dups[..n]);
      MergedNext(g, canonical, dups, h);
      hide EntityIds, WellFormed, Merged, MergeOne, FactsKept;
      if !Passed(h, canonical, dup) {
        var d := Lookup(g.entities, dup).value;
        UniqueEntity(h.entities, d) by { StillDistinct(h); }
        var c := Lookup(h.entities, canonical).value;
        var c' := Lookup(MergeAll(g, canonical, dups).entities, canonical).value;
        AbsorbKeeps(h, canonical, dup);
        forall x | x in Merged(g, canonical, dups) + {canonical}
          ensures FactsKept(Lookup(g.entities, x).value, c')
        {
          if x != dup {
            FactsKeptTransitive(Lookup(g.entities, x).value, c, c');
          }
        }
      }
    }
  }

  function PropOf(e: Entity, k: string): Option<string>
  {
    if k in e.props then Some(e.props[k]) else None
  }

  /** The value of a property after a merge: that of the last duplicate which is merged, at its
      first mention, and has the property; else the canonical entity's own. */
  function Winner(g: Graph, canonical: string, dups: seq<string>, k: string): Option<string>
    requires canonical in EntityIds(g.entities)
  {
    if dups == [] then PropOf(Lookup(g.entities, canonical).value, k)
    else
      var front, d := dups[..|dups| - 1], dups[|dups| - 1];
      if d in Merged(g, canonical, dups) && d !in front && k in Lookup(g.entities, d).value.props
      then PropOf(Lookup(g.entities, d).value, k)
      else Winner(g, canonical, front, k)
  }

  /** One more duplicate leaves the canonical entity as it was, or absorbed into it the duplicate as
      the graph first had it. */
  lemma CanonicalNext(g: Graph, canonical: string, dups: seq<string>)
    requires WellFormed(g) && canonical in EntityIds(g.entities) && dups != []
    ensures var front, dup := dups[..|dups| - 1], dups[|dups| - 1];
            var c := Lookup(MergeAll(g, canonical, front).entities, canonical).value;
            var c' := Lookup(MergeAll(g, canonical, dups).entities, canonical).value;
            if dup in Merged(g, canonical, dups) && dup !in front then c' == Absorb(c, Lookup(g.entities, dup).value)
            else c' == c
  {
    var n := |dups| - 1;
    var h, dup := MergeAll(g, canonical, dups[..n]), dups[n];
    MergeKeepsFacts(g, canonical, dups[..n]);
    MergeAllEffect(g, canonical, dups[..n]);
    MergeAllWellFormed(g, canonical, dups[..n]);
    assert !Passed(h, canonical, dup) <==> dup in Merged(g, canonical, dups) && dup !in dups[..n];
    if !Passed(h, canonical, dup) {
      var c, d := Lookup(h.entities, canonical).value, Lookup(g.entities, dup).value;
      hide EntityIds, Merged, MergeAll;
      UniqueEntity(h.entities, d);
      MergeOneWellFormed(h, canonical, dup);
      var i :| 0 <= i < |h.entities| && h.entities[i] == c;
      assert Replace(h.entities, Absorb(c, d))[i] == Absorb(c, d);
      UniqueEntity(MergeOne(h, canonical, dup).entities, Absorb(c, d));
    }
  }

  /** What becomes of each single property in a merge. */
  lemma {:induction false} MergeKeepsValue(g: Graph, canonical: string, dups: seq<string>, k: string)
    requires WellFormed(g) && canonical in EntityIds(g.entities)
    ensures PropOf(Lookup(MergeAll(g, canonical, dups).entities, canonical).value, k) == Winner(g, canonical, dups, k)
  {
    if dups != [] {
      MergeKeepsValue(g, canonical, dups[..|dups| - 1], k);
      CanonicalNext(g, canonical, dups);
      hide WellFormed, EntityIds, Merged, Lookup, MergeAll;
    }
  }

  /** The confidence after a merge is that of the canonical entity or of a merged duplicate. */
  lemma {:induction false} MergeConfidence(g: Graph, canonical: string, dups: seq<string>) returns (x: string)
    requires WellFormed(g) && canonical in EntityIds(g.entities)
    ensures x in Merged(g, canonical, dups) + {canonical} && x in EntityIds(g.entities)
    ensures Lookup(g.entities, x).value.confidence ==
            Lookup(MergeAll(g, canonical, dups).entities, canonical).value.confidence
  {
    x := canonical;
    if dups != [] {
      var n := |dups| - 1;
      x := MergeConfidence(g, canonical, dups[..n]);
      CanonicalNext(g, canonical, dups);
      assert x in Merged(g, canonical, dups) + {canonical};
      assert dups[n] in Merged(g, canonical, dups) ==> dups[n] in EntityIds(g.entities);
      hide WellFormed, EntityIds, Merged, Lookup, MergeAll;
      var c := Lookup(MergeAll(g, canonical, dups[..n]).entities, canonical).value;
      if Lookup(MergeAll(g, canonical, dups).entities, canonical).value.confidence != c.confidence {
        x := dups[n];
      }
    }
  }

  lemma StillDistinct(g: Graph)
    requires WellFormed(g)
    ensures DistinctEntities(g.entities)
  {
  }

  lemma AbsorbKeeps(g: Graph, canonical: string, dup: string)
    requires WellFormed(g) && canonical in EntityIds(g.entities) && !Passed(g, canonical, dup)
    ensures Lookup(MergeOne(g, canonical, dup).entities, canonical).Some?
    ensures var c' := Lookup(MergeOne(g, canonical, dup).entities, canonical).value;
            FactsKept(Lookup(g.entities, canonical).value, c') && FactsKept(Lookup(g.entities, dup).value, c')
    ensures forall e :: e in g.entities && e.id != canonical && e.id != dup ==>
              e in MergeOne(g, canonical, dup).entities
  {
    hide MergeOne;
    DuplicateAbsorbed(g, canonical, dup);
  }

  lemma FactsKeptTransitive(d: Entity, c: Entity, c': Entity)
    requires FactsKept(d, c) && FactsKept(c, c')
    ensures FactsKept(d, c')
  {
  }

  ghost predicate FactsKept(d: Entity, c: Entity)
  {
    d.props.Keys <= c.props.Keys && d.confidence <= c.confidence
  }

  // ---- the order of entities ----

  /** Ids of the entities outside a set, in order. */
  function Order(es: seq<Entity>, gone: set<string>): seq<string>
  {
    if es == [] then [] else (if es[0].id in gone then [] else [es[0].id]) + Order(es[1..], gone)
  }

  lemma {:induction false} ReplaceOrder(es: seq<Entity>, e: Entity, gone: set<string>)
    ensures Order(Replace(es, e), gone) == Order(es, gone)
  {
    if es != [] {
      assert Replace(es, e)[1..] == Replace(es[1..], e);
      ReplaceOrder(es[1..], e, gone);
    }
  }

  lemma OrderCons(e: Entity, rest: seq<Entity>, gone: set<string>)
    ensures Order([e] + rest, gone) == (if e.id in gone then [] else [e.id]) + Order(rest, gone)
  {
    assert ([e] + rest)[1..] == rest;
  }

  lemma OrderNone(id: string, gone: set<string>)
    ensures Without([], id) == [] && Order([], gone) == [] && Order([], gone + {id}) == []
  {
  }

  lemma WithoutCons(e: Entity, rest: seq<Entity>, id: string)
    ensures Without([e] + rest, id) == if e.id == id then Without(rest, id) else [e] + Without(rest, id)
  {
    assert ([e] + rest)[1..] == rest;
  }

  lemma {:induction false} WithoutOrder(es: seq<Entity>, id: string, gone: set<string>)
    ensures Order(Without(es, id), gone) == Order(es, gone + {id})
  {
    hide *;
    if es == [] {
      OrderNone(id, gone);
    } else {
      var e, rest := es[0], es[1..];
      WithoutOrder(rest, id, gone);
      WithoutCons(e, rest, id);
      OrderCons(e, Without(rest, id), gone);
      OrderCons(e, rest, gone + {id});
      assert es == [e] + rest;
    }
  }

  /** Merging keeps the remaining entities in their order. */
  lemma {:induction false} MergeKeepsOrder(g: Graph, canonical: string, dups: seq<string>, gone: set<string>)
    requires canonical in EntityIds(g.entities)
    ensures Order(MergeAll(g, canonical, dups).entities, gone) ==
            Order(g.entities, gone + Merged(g, canonical, dups))
  {
    if dups == [] {
      assert gone + Merged(g, canonical, dups) == gone;
    } else {
      var n := |dups| - 1;
      var h, dup := MergeAll(g, canonical, dups[..n]), dups[n];
      MergeAllEffect(g, canonical, dups[..n]);
      MergedNext(g, canonical, dups, h);
      hide EntityIds, Merged, Order, Without, Replace, Lookup, RedirectAll;
      if Passed(h, canonical, dup) {
        MergeKeepsOrder(g, canonical, dups[..n], gone);
        assert Merged(g, canonical, dups) == Merged(g, canonical, dups[..n]);
      } else {
        var a := Absorb(Lookup(h.entities, canonical).value, Lookup(h.entities, dup).value);
        WithoutOrder(Replace(h.entities, a), dup, gone);
        ReplaceOrder(h.entities, a, gone + {dup});
        MergeKeepsOrder(g, canonical, dups[..n], gone + {dup});
        assert gone + {dup} + Merged(g, canonical, dups[..n]) == gone + Merged(g, canonical, dups);
      }
    }
  }

  /** A chain survives redirection, relation by relation. */
  lemma {:induction false} RedirectChain(rels: seq<Relation>, dup: string, canonical: string, u: string,
                                         path: seq<Relation>, v: string)
    requires Chain(rels, u, path, v)
    ensures Chain(RedirectAll(rels, dup, canonical), Image(dup, canonical, u), RedirectAll(path, dup, canonical),
                  Image(dup, canonical, v))
    decreases |path|
  {
    if path != [] {
      RedirectChain(rels, dup, canonical, Other(path[0], u), path[1..], v);
      var i :| 0 <= i < |rels| && rels[i] == path[0];
      assert RedirectAll(rels, dup, canonical)[i] == Redirect(path[0], dup, canonical);
      assert RedirectAll(path, dup, canonical)[1..] == RedirectAll(path[1..], dup, canonical);
    }
  }

  /** Merging loses no connection and makes none longer: whatever chain led from u to v, one of
      the same length leads from the image of u to the image of v afterwards. */
  lemma {:induction false} MergeKeepsChains(g: Graph, canonical: string, dups: seq<string>, u: string,
                                            path: seq<Relation>, v: string)
      returns (path': seq<Relation>)
    requires canonical in EntityIds(g.entities) && WellFormed(g)
    requires u in EntityIds(g.entities) && Chain(g.relations, u, path, v)
    ensures |path'| == |path|
    ensures Chain(MergeAll(g, canonical, dups).relations, ImageAll(g, canonical, dups, u), path',
                  ImageAll(g, canonical, dups, v))
    ensures v in EntityIds(g.entities)
    ensures ImageAll(g, canonical, dups, u) in EntityIds(MergeAll(g, canonical, dups).entities)
    ensures ImageAll(g, canonical, dups, v) in EntityIds(MergeAll(g, canonical, dups).entities)
  {
    ChainStays(g, u, path, v);
    MergeAllEffect(g, canonical, dups);
    if dups == [] {
      path' := path;
    } else {
      var n := |dups| - 1;
      var h, dup := MergeAll(g, canonical, dups[..n]), dups[n];
      path' := MergeKeepsChains(g, canonical, dups[..n], u, path, v);
      MergeAllEffect(g, canonical, dups[..n]);
      if !Passed(h, canonical, dup) {
        RedirectChain(h.relations, dup, canonical, ImageAll(g, canonical, dups[..n], u), path',
                      ImageAll(g, canonical, dups[..n], v));
        path' := RedirectAll(path', dup, canonical);
      }
      ImageNext(g, canonical, dups, h, u);
      ImageNext(g, canonical, dups, h, v);
    }
  }

  lemma {:induction false} ChainStays(g: Graph, u: string, path: seq<Relation>, v: string)
    requires Anchored(g) && u in EntityIds(g.entities) && Chain(g.relations, u, path, v)
    ensures v in EntityIds(g.entities)
    decreases |path|
  {
    if path != [] {
      ChainStays(g, Other(path[0], u), path[1..], v);
    }
  }

  /** Merging draws no relation ids and keeps those there are. */
  lemma MergeAllIds(g: Graph, canonical: string, dups: seq<string>, uuid: nat -> string)
    requires canonical in EntityIds(g.entities) && NewIds(g, uuid)
    ensures NewIds(MergeAll(g, canonical, dups), uuid)
  {
    MergeAllEffect(g, canonical, dups);
    MergeAllDrawn(g, canonical, dups);
    var g' := MergeAll(g, canonical, dups);
    forall r | r in g'.relations
      ensures exists q :: q in g.relations && q.id == r.id
    {
      var i :| 0 <= i < |g.relations| && g'.relations[i] == r;
      assert g.relations[i].id == r.id;
    }
  }

  lemma {:induction false} MergeAllDrawn(g: Graph, canonical: string, dups: seq<string>)
    requires canonical in EntityIds(g.entities)
    ensures MergeAll(g, canonical, dups).drawn == g.drawn
  {
    if dups != [] {
      MergeAllDrawn(g, canonical, dups[..|dups| - 1]);
    }
  }
}
