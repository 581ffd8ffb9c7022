/** Rule inference over a semantic graph, as functions on graph values. */
module GraphInference {
  import opened Common
  import opened GraphPaths
  import opened SemanticGraph

  datatype Action = CreateRelation | MergeEntities | RaiseAlert

  /** An empty pattern string matches every type. */
  datatype Rule = Rule(
    id: string, sourceType: string, relation: string, targetType: string,
    action: Action, priority: int, enabled: bool)

  function EntityKindValue(k: EntityKind): string
  {
    match k
    case Person => "person"
    case Org => "org"
    case Concept => "concept"
    case Event => "event"
    case Document => "document"
    case Custom => "custom"
  }

  function RelationKindValue(k: RelationKind): string
  {
    match k
    case Knows => "knows"
    case PartOf => "part_of"
    case Causes => "causes"
    case DependsOn => "depends_on"
    case SimilarTo => "similar_to"
    case DerivedFrom => "derived_from"
  }

  // ---- matching ----

  /** The rule's pattern accepts the relation when read from entity `src`. */
  predicate Accepts(es: seq<Entity>, rule: Rule, src: Entity, r: Relation)
  {
    && (rule.sourceType == "" || EntityKindValue(src.kind) == rule.sourceType)
    && r.source == src.id
    && (rule.relation == "" || RelationKindValue(r.kind) == rule.relation)
    && Lookup(es, r.target).Some?
    && (rule.targetType == "" || EntityKindValue(Lookup(es, r.target).value.kind) == rule.targetType)
  }

  /** The pattern in full: the relation leads from the entity to an entity of the graph, and each of
      the three types is the one asked for, if any is. */
  lemma AcceptsExactly(es: seq<Entity>, rule: Rule, src: Entity, r: Relation)
    requires DistinctEntities(es)
    ensures Accepts(es, rule, src, r) <==>
            && r.source == src.id
            && rule.sourceType in {"", EntityKindValue(src.kind)}
            && rule.relation in {"", RelationKindValue(r.kind)}
            && exists tgt :: tgt in es && tgt.id == r.target && rule.targetType in {"", EntityKindValue(tgt.kind)}
  {
    hide EntityKindValue, RelationKindValue;
    forall tgt | tgt in es && tgt.id == r.target
      ensures Lookup(es, r.target) == Some(tgt)
    {
      UniqueEntity(es, tgt);
    }
  }

  function MatchesFrom(es: seq<Entity>, rels: seq<Relation>, rule: Rule, src: Entity): seq<(string, string)>
  {
    if rels == [] then []
    else
      var r := rels[|rels| - 1];
      MatchesFrom(es, rels[..|rels| - 1], rule, src) + if Accepts(es, rule, src, r) then [(src.id, r.target)] else []
  }

  /** Matched pairs, source entities outermost, both in dictionary order. */
  function Matches(es: seq<Entity>, srcs: seq<Entity>, rels: seq<Relation>, rule: Rule): seq<(string, string)>
  {
    if srcs == [] then []
    else Matches(es, srcs[..|srcs| - 1], rels, rule) + MatchesFrom(es, rels, rule, srcs[|srcs| - 1])
  }

  ghost predicate Matched(es: seq<Entity>, srcs: seq<Entity>, rels: seq<Relation>, rule: Rule, p: (string, string))
  {
    exists src, r :: src in srcs && r in rels && Accepts(es, rule, src, r) && p == (src.id, r.target)
  }

  lemma {:induction false} MatchesFromMembers(es: seq<Entity>, rels: seq<Relation>, rule: Rule, src: Entity,
                                              p: (string, string))
    ensures p in MatchesFrom(es, rels, rule, src) <==>
              exists r :: r in rels && Accepts(es, rule, src, r) && p == (src.id, r.target)
  {
    if rels != [] {
      MatchesFromMembers(es, rels[..|rels| - 1], rule, src, p);
      assert rels == rels[..|rels| - 1] + [rels[|rels| - 1]];
    }
  }

  lemma MatchedNext(es: seq<Entity>, srcs: seq<Entity>, rels: seq<Relation>, rule: Rule, p: (string, string))
    requires srcs != []
    ensures var n := |srcs| - 1;
            Matched(es, srcs, rels, rule, p) <==>
            Matched(es, srcs[..n], rels, rule, p)
            || exists r :: r in rels && Accepts(es, rule, srcs[n], r) && p == (srcs[n].id, r.target)
  {
    hide Accepts;
    var n := |srcs| - 1;
    assert forall s :: s in srcs <==> s in srcs[..n] || s == srcs[n];
  }

  /** The rule matches exactly the pairs its pattern accepts. */
  lemma {:induction false} MatchesMembers(es: seq<Entity>, srcs: seq<Entity>, rels: seq<Relation>, rule: Rule,
                                          p: (string, string))
    ensures p in Matches(es, srcs, rels, rule) <==> Matched(es, srcs, rels, rule, p)
  {
    if srcs != [] {
      var n := |srcs| - 1;
      MatchesMembers(es, srcs[..n], rels, rule, p);
      MatchesFromMembers(es, rels, rule, srcs[n], p);
      hide Accepts, MatchesFrom;
      MatchedNext(es, srcs, rels, rule, p);
    }
  }

  // ---- creating links ----

  /** A similar_to relation already joins the unordered pair. */
  predicate Links(r: Relation, a: string, b: string)
  {
    r.kind == SimilarTo && {r.source, r.target} == {a, b}
  }

  predicate Linked(rels: seq<Relation>, a: string, b: string)
  {
    exists r :: r in rels && Links(r, a, b)
  }

  /** Links have no direction. */
  lemma LinkedEitherWay(rels: seq<Relation>, a: string, b: string)
    ensures Linked(rels, a, b) <==> exists r :: r in rels && r.kind == SimilarTo
                                             && (r.source, r.target) in {(a, b), (b, a)}
  {
    forall r: Relation
      ensures {r.source, r.target} == {a, b} <==> (r.source, r.target) in {(a, b), (b, a)}
    {
      assert r.source in {r.source, r.target} && r.target in {r.source, r.target};
      assert a in {a, b} && b in {a, b};
      if {r.source, r.target} == {a, b} {
        assert r.source in {a, b} && r.target in {a, b} && a in {r.source, r.target} && b in {r.source, r.target};
      }
    }
  }

  function LinkPair(g: Graph, a: string, b: string, uuid: nat -> string): Graph
  {
    if Linked(g.relations, a, b) then g
    else g.(relations := g.relations + [Relation(uuid(g.drawn), a, b, SimilarTo, 1.0, false)], drawn := g.drawn + 1)
  }

  function LinkPairs(g: Graph, pairs: seq<(string, string)>, uuid: nat -> string): Graph
  {
    if pairs == [] then g
    else
      var p := pairs[|pairs| - 1];
      LinkPair(LinkPairs(g, pairs[..|pairs| - 1], uuid), p.0, p.1, uuid)
  }

  // ---- merging matched pairs; `ok` is false once a pair's first entity is gone ----

  datatype Step = Step(g: Graph, ok: bool)

  function MergePairs(g: Graph, pairs: seq<(string, string)>): Step
  {
    if pairs == [] then Step(g, true)
    else
      var s, p := MergePairs(g, pairs[..|pairs| - 1]), pairs[|pairs| - 1];
      if !s.ok || p.0 !in EntityIds(s.g.entities) then Step(s.g, false)
      else Step(MergeAll(s.g, p.0, [p.1]), true)
  }

  // ---- rules, passes and iteration ----

  function ApplyRule(g: Graph, rule: Rule, uuid: nat -> string): Step
  {
    var pairs := Matches(g.entities, g.entities, g.relations, rule);
    match rule.action
    case CreateRelation => Step(LinkPairs(g, pairs, uuid), true)
    case MergeEntities => MergePairs(g, pairs)
    case RaiseAlert => Step(g, true)
  }

  function Pass(g: Graph, rules: seq<Rule>, uuid: nat -> string): Step
  {
    if rules == [] then Step(g, true)
    else
      var s := Pass(g, rules[..|rules| - 1], uuid);
      if s.ok then ApplyRule(s.g, rules[|rules| - 1], uuid) else s
  }

  /** Up to n passes, stopping after one that leaves the number of relations as it was. */
  function Iterate(g: Graph, rules: seq<Rule>, n: nat, uuid: nat -> string): Step
    decreases n
  {
    if n == 0 then Step(g, true)
    else
      var s := Pass(g, rules, uuid);
      if !s.ok || |s.g.relations| == |g.relations| then s else Iterate(s.g, rules, n - 1, uuid)
  }

  /** k passes in a row, as long as none fails. */
  function Passes(g: Graph, rules: seq<Rule>, k: nat, uuid: nat -> string): Step
  {
    if k == 0 then Step(g, true)
    else
      var s := Passes(g, rules, k - 1, uuid);
      if s.ok then Pass(s.g, rules, uuid) else s
  }

  /** The k-th pass is one to stop after: it fails, or leaves the number of relations as it was. */
  ghost predicate Last(g: Graph, rules: seq<Rule>, k: nat, uuid: nat -> string)
    requires k >= 1
  {
    var before, after := Passes(g, rules, k - 1, uuid), Passes(g, rules, k, uuid);
    !after.ok || |after.g.relations| == |before.g.relations|
  }

  lemma {:induction false} PassesFrom(g: Graph, rules: seq<Rule>, k: nat, uuid: nat -> string)
    requires Pass(g, rules, uuid).ok
    ensures Passes(g, rules, k + 1, uuid) == Passes(Pass(g, rules, uuid).g, rules, k, uuid)
  {
    hide Pass;
    assert Passes(g, rules, 0, uuid) == Step(g, true);
    if k > 0 {
      PassesFrom(g, rules, k - 1, uuid);
    }
  }

  /** Merging or not, inference makes passes until the first that fails or adds nothing, but no more
      than allowed. */
  lemma {:induction false} IterateExactly(g: Graph, rules: seq<Rule>, n: nat, uuid: nat -> string) returns (k: nat)
    ensures k <= n && Iterate(g, rules, n, uuid) == Passes(g, rules, k, uuid)
    ensures forall j :: 1 <= j < k ==> !Last(g, rules, j, uuid)
    ensures k < n ==> k >= 1 && Last(g, rules, k, uuid)
    decreases n
  {
    hide Pass;
    k := 0;
    if n > 0 {
      var s := Pass(g, rules, uuid);
      assert Passes(g, rules, 0, uuid) == Step(g, true) && Passes(g, rules, 1, uuid) == s;
      if !s.ok || |s.g.relations| == |g.relations| {
        k := 1;
      } else {
        var m := IterateExactly(s.g, rules, n - 1, uuid);
        k := m + 1;
        PassesFrom(g, rules, m, uuid);
        forall j | 1 <= j <= m
          ensures Last(g, rules, j + 1, uuid) <==> Last(s.g, rules, j, uuid)
        {
          PassesFrom(g, rules, j, uuid);
          PassesFrom(g, rules, j - 1, uuid);
        }
        forall j | 1 <= j < k
          ensures !Last(g, rules, j, uuid)
        {
          if j > 1 {
            assert Last(g, rules, (j - 1) + 1, uuid) <==> Last(s.g, rules, j - 1, uuid);
          }
        }
      }
    }
  }

  ghost predicate NoMerging(rules: seq<Rule>)
  {
    forall rule :: rule in rules ==> rule.action != MergeEntities
  }

  /** Inference without merging only adds similar_to links between known entities. */
  ghost predicate Grown(g: Graph, g': Graph)
  {
    && g'.entities == g.entities && g.relations <= g'.relations
    && forall i :: |g.relations| <= i < |g'.relations| ==> g'.relations[i].kind == SimilarTo
  }

  /** Every pair the rule matches is already linked. */
  ghost predicate Saturated(g: Graph, rule: Rule)
  {
    rule.action == CreateRelation ==>
      forall p :: Matched(g.entities, g.entities, g.relations, rule, p) ==> Linked(g.relations, p.0, p.1)
  }

  lemma GrownTransitive(g: Graph, h: Graph, k: Graph)
    requires Grown(g, h) && Grown(h, k)
    ensures Grown(g, k)
  {
  }

  lemma {:induction false} LinkPairsGrow(g: Graph, pairs: seq<(string, string)>, uuid: nat -> string)
    ensures Grown(g, LinkPairs(g, pairs, uuid))
    ensures forall p :: p in pairs ==> Linked(LinkPairs(g, pairs, uuid).relations, p.0, p.1)
  {
    if pairs != [] {
      var n := |pairs| - 1;
      LinkPairsGrow(g, pairs[..n], uuid);
      var h, g', q := LinkPairs(g, pairs[..n], uuid), LinkPairs(g, pairs, uuid), pairs[n];
      assert g' == LinkPair(h, q.0, q.1, uuid);
      assert pairs == pairs[..n] + [q];
      assert h.relations <= g'.relations;
      if !Linked(h.relations, q.0, q.1) {
        var r := g'.relations[|h.relations|];
        assert r in g'.relations && Links(r, q.0, q.1);
      }
    }
  }

  /** Links persist while relations are only added. */
  lemma LinkedStays(rels: seq<Relation>, rels': seq<Relation>, a: string, b: string)
    requires rels <= rels' && Linked(rels, a, b)
    ensures Linked(rels', a, b)
  {
    var r :| r in rels && Links(r, a, b);
    assert r in rels';
  }

  /** A rule saturated once stays so: a new link is itself the link for the pair it could match. */
  lemma SaturatedStays(g: Graph, g': Graph, rule: Rule)
    requires Grown(g, g') && Saturated(g, rule)
    ensures Saturated(g', rule)
  {
    if rule.action == CreateRelation {
      forall p | Matched(g'.entities, g'.entities, g'.relations, rule, p)
        ensures Linked(g'.relations, p.0, p.1)
      {
        NewMatchLinked(g, g', rule, p);
        if Matched(g.entities, g.entities, g.relations, rule, p) {
          LinkedStays(g.relations, g'.relations, p.0, p.1);
        }
      }
    }
  }

  /** A pair matched after growth was matched before, or is joined by the relation that matches. */
  lemma NewMatchLinked(g: Graph, g': Graph, rule: Rule, p: (string, string))
    requires Grown(g, g') && Matched(g'.entities, g'.entities, g'.relations, rule, p)
    ensures Matched(g.entities, g.entities, g.relations, rule, p) || Linked(g'.relations, p.0, p.1)
  {
    var src, r :| src in g'.entities && r in g'.relations && Accepts(g'.entities, rule, src, r)
        && p == (src.id, r.target);
    if r !in g.relations {
      var i :| 0 <= i < |g'.relations| && g'.relations[i] == r;
      if i < |g.relations| {
        assert g.relations[i] == r;
      }
      assert Links(r, p.0, p.1);
    }
  }

  lemma ApplySaturates(g: Graph, rule: Rule, uuid: nat -> string)
    requires rule.action != MergeEntities
    ensures ApplyRule(g, rule, uuid).ok && Grown(g, ApplyRule(g, rule, uuid).g)
              && Saturated(ApplyRule(g, rule, uuid).g, rule)
  {
    if rule.action == CreateRelation {
      var pairs := Matches(g.entities, g.entities, g.relations, rule);
      var g' := LinkPairs(g, pairs, uuid);
      LinkPairsGrow(g, pairs, uuid);
      forall p | Matched(g'.entities, g'.entities, g'.relations, rule, p)
        ensures Linked(g'.relations, p.0, p.1)
      {
        NewMatchLinked(g, g', rule, p);
        MatchesMembers(g.entities, g.entities, g.relations, rule, p);
      }
    }
  }

  lemma {:induction false} PassSaturates(g: Graph, rules: seq<Rule>, uuid: nat -> string)
    requires NoMerging(rules)
    ensures Pass(g, rules, uuid).ok && Grown(g, Pass(g, rules, uuid).g)
    ensures forall rule :: rule in rules ==> Saturated(Pass(g, rules, uuid).g, rule)
  {
    if rules != [] {
      var n := |rules| - 1;
      PassSaturates(g, rules[..n], uuid);
      var h := Pass(g, rules[..n], uuid).g;
      var g' := ApplyRule(h, rules[n], uuid).g;
      ApplySaturates(h, rules[n], uuid);
      GrownTransitive(g, h, g');
      assert forall rule :: rule in rules <==> rule in rules[..n] || rule == rules[n];
      hide Saturated, Grown, ApplyRule, NoMerging;
      forall rule | rule in rules[..n]
        ensures Saturated(g', rule)
      {
        SaturatedStays(h, g', rule);
      }
    }
  }

  lemma {:induction false} LinkedPairsIdle(g: Graph, pairs: seq<(string, string)>, uuid: nat -> string)
    requires forall p :: p in pairs ==> Linked(g.relations, p.0, p.1)
    ensures LinkPairs(g, pairs, uuid) == g
  {
    if pairs != [] {
      LinkedPairsIdle(g, pairs[..|pairs| - 1], uuid);
    }
  }

  lemma {:induction false} SaturatedPassIdle(g: Graph, rules: seq<Rule>, uuid: nat -> string)
    requires NoMerging(rules) && forall rule :: rule in rules ==> Saturated(g, rule)
    ensures Pass(g, rules, uuid) == Step(g, true)
  {
    if rules != [] {
      var n := |rules| - 1;
      SaturatedPassIdle(g, rules[..n], uuid);
      var rule := rules[n];
      assert rule in rules;
      if rule.action == CreateRelation {
        var pairs := Matches(g.entities, g.entities, g.relations, rule);
        forall p | p in pairs
          ensures Linked(g.relations, p.0, p.1)
        {
          MatchesMembers(g.entities, g.entities, g.relations, rule, p);
        }
        LinkedPairsIdle(g, pairs, uuid);
      }
    }
  }

  /** Without merging, one pass reaches the fixpoint: the outcome is the same for every number of
      iterations, and no further pass would change it. */
  lemma OnePassSuffices(g: Graph, rules: seq<Rule>, n: nat, uuid: nat -> string)
    requires NoMerging(rules) && n >= 1
    ensures Pass(g, rules, uuid).ok && Iterate(g, rules, n, uuid) == Pass(g, rules, uuid)
    ensures Pass(Pass(g, rules, uuid).g, rules, uuid) == Pass(g, rules, uuid)
  {
    var g' := Pass(g, rules, uuid).g;
    PassSaturates(g, rules, uuid);
    SaturatedPassIdle(g', rules, uuid);
    if |g'.relations| != |g.relations| && n >= 2 {
      assert Iterate(g', rules, n - 1, uuid) == Step(g', true);
    }
  }

  // ---- what inference adds ----

  ghost predicate DirectlyRelated(rels: seq<Relation>, a: string, b: string)
  {
    exists r :: r in rels && r.source == a && r.target == b
  }

  /** Every added relation joins a pair that was directly related before and had no link yet. */
  ghost predicate LinksOnce(g: Graph, g': Graph)
  {
    && Grown(g, g')
    && forall i :: |g.relations| <= i < |g'.relations| ==>
         && DirectlyRelated(g.relations, g'.relations[i].source, g'.relations[i].target)
         && !Linked(g'.relations[..i], g'.relations[i].source, g'.relations[i].target)
  }

  lemma {:induction false} LinkPairsOnce(g: Graph, h: Graph, pairs: seq<(string, string)>, uuid: nat -> string)
    requires LinksOnce(g, h) && forall p :: p in pairs ==> DirectlyRelated(g.relations, p.0, p.1)
    ensures LinksOnce(g, LinkPairs(h, pairs, uuid))
  {
    if pairs != [] {
      var n := |pairs| - 1;
      LinkPairsOnce(g, h, pairs[..n], uuid);
      var k, p := LinkPairs(h, pairs[..n], uuid), pairs[n];
      var k' := LinkPair(k, p.0, p.1, uuid);
      assert p in pairs;
      if k' != k {
        assert k'.relations[..|k.relations|] == k.relations;
        assert forall i :: 0 <= i < |k.relations| ==>
            k'.relations[i] == k.relations[i] && k'.relations[..i] == k.relations[..i];
      }
    }
  }

  /** A pair matched while links are being added was directly related from the start. */
  lemma MatchedIsDirect(g: Graph, h: Graph, rule: Rule, p: (string, string))
    requires LinksOnce(g, h) && Matched(h.entities, h.entities, h.relations, rule, p)
    ensures DirectlyRelated(g.relations, p.0, p.1)
  {
    var src, r :| src in h.entities && r in h.relations && Accepts(h.entities, rule, src, r) && p == (src.id, r.target);
    var i :| 0 <= i < |h.relations| && h.relations[i] == r;
    if i < |g.relations| {
      assert g.relations[i] == r;
    }
  }

  /** Inference without merging creates at most one link per unordered pair, none where one was,
      and only between entities already directly related. */
  lemma {:induction false} PassLinksOnce(g: Graph, rules: seq<Rule>, uuid: nat -> string)
    requires NoMerging(rules)
    ensures LinksOnce(g, Pass(g, rules, uuid).g)
  {
    PassSaturates(g, rules, uuid);
    if rules != [] {
      var n := |rules| - 1;
      PassSaturates(g, rules[..n], uuid);
      PassLinksOnce(g, rules[..n], uuid);
      var h, rule := Pass(g, rules[..n], uuid).g, rules[n];
      assert rule in rules;
      if rule.action == CreateRelation {
        var pairs := Matches(h.entities, h.entities, h.relations, rule);
        forall p | p in pairs
          ensures DirectlyRelated(g.relations, p.0, p.1)
        {
          MatchesMembers(h.entities, h.entities, h.relations, rule, p);
          MatchedIsDirect(g, h, rule, p);
        }
        LinkPairsOnce(g, h, pairs, uuid);
      }
    }
  }

  // ---- merging matched pairs ----

  /** A later pair starts at an entity an earlier pair merged away. */
  ghost predicate Chained(pairs: seq<(string, string)>)
  {
    exists i, j :: 0 <= i < j < |pairs| && pairs[i].1 == pairs[j].0 && pairs[i].0 != pairs[i].1
  }

  ghost function Gone(pairs: seq<(string, string)>): set<string>
  {
    set i | 0 <= i < |pairs| && pairs[i].0 != pairs[i].1 :: pairs[i].1
  }

  lemma ChainedAppend(front: seq<(string, string)>, p: (string, string))
    ensures Chained(front + [p]) <==> Chained(front) || p.0 in Gone(front)
    ensures Gone(front + [p]) == Gone(front) + if p.0 != p.1 then {p.1} else {}
  {
    var pairs, n := front + [p], |front|;
    assert forall i :: 0 <= i < n ==> pairs[i] == front[i];
    if Chained(front) {
      var i, j :| 0 <= i < j < |front| && front[i].1 == front[j].0 && front[i].0 != front[i].1;
      assert pairs[i].1 == pairs[j].0 && pairs[i].0 != pairs[i].1;
    }
    if p.0 in Gone(front) {
      var i :| 0 <= i < n && front[i].0 != front[i].1 && front[i].1 == p.0;
      assert pairs[i].1 == pairs[n].0 && pairs[i].0 != pairs[i].1;
    }
    if p.0 != p.1 {
      assert pairs[n].0 != pairs[n].1 && pairs[n].1 in Gone(pairs);
    }
  }

  lemma MergePairStep(g: Graph, p: (string, string))
    requires p.0 in EntityIds(g.entities)
    ensures EntityIds(MergeAll(g, p.0, [p.1]).entities) == EntityIds(g.entities) - if p.0 != p.1 then {p.1} else {}
  {
    MergeAllEffect(g, p.0, [p.1]);
    hide EntityIds, MergeAll;
    assert Merged(g, p.0, [p.1]) == if p.1 != p.0 && p.1 in EntityIds(g.entities) then {p.1} else {};
  }

  lemma {:induction false} MergePairsIds(g: Graph, pairs: seq<(string, string)>)
    requires forall p :: p in pairs ==> p.0 in EntityIds(g.entities) && p.1 in EntityIds(g.entities)
    ensures MergePairs(g, pairs).ok <==> !Chained(pairs)
    ensures MergePairs(g, pairs).ok ==>
              EntityIds(MergePairs(g, pairs).g.entities) == EntityIds(g.entities) - Gone(pairs)
  {
    if pairs != [] {
      var n := |pairs| - 1;
      var front, p := pairs[..n], pairs[n];
      assert pairs == front + [p];
      MergePairsIds(g, front);
      var s := MergePairs(g, front);
      ChainedAppend(front, p);
      assert p in pairs;
      hide EntityIds, MergeAll, Chained, Gone;
      if s.ok && p.0 in EntityIds(s.g.entities) {
        MergePairStep(s.g, p);
      }
    }
  }

  lemma MatchesTwo(es: seq<Entity>, r: Relation, q: Relation, rule: Rule, src: Entity)
    ensures MatchesFrom(es, [r, q], rule, src) ==
            (if Accepts(es, rule, src, r) then [(src.id, r.target)] else [])
            + if Accepts(es, rule, src, q) then [(src.id, q.target)] else []
  {
    hide Accepts;
    assert [r, q][..1] == [r] && [r][..0] == [];
    assert MatchesFrom(es, [r], rule, src) == if Accepts(es, rule, src, r) then [(src.id, r.target)] else [];
  }

  lemma MatchesThree(es: seq<Entity>, a: Entity, b: Entity, c: Entity, rels: seq<Relation>, rule: Rule)
    ensures Matches(es, [a, b, c], rels, rule) ==
            MatchesFrom(es, rels, rule, a) + MatchesFrom(es, rels, rule, b) + MatchesFrom(es, rels, rule, c)
  {
    hide MatchesFrom;
    assert [a, b, c][..2] == [a, b] && [a, b][..1] == [a] && [a][..0] == [];
    assert Matches(es, [a], rels, rule) == MatchesFrom(es, rels, rule, a);
  }

  /** Two relations in a row, under a rule that matches everything, are chained. */
  lemma ChainedReachable(a: Entity, b: Entity, c: Entity, r: Relation, q: Relation, rule: Rule)
    requires a.id != b.id && b.id != c.id && a.id != c.id && r.id != q.id
    requires r.source == a.id && r.target == b.id && q.source == b.id && q.target == c.id
    requires rule.sourceType == "" && rule.relation == "" && rule.targetType == ""
    ensures var g := Graph([a, b, c], [r, q], 0);
            WellFormed(g) && Chained(Matches(g.entities, g.entities, g.relations, rule))
  {
    hide Matches, MatchesFrom;
    var es, rels := [a, b, c], [r, q];
    assert a in es && b in es && c in es;
    assert a.id in EntityIds(es) && b.id in EntityIds(es) && c.id in EntityIds(es);
    MatchesThree(es, a, b, c, rels, rule);
    MatchesTwo(es, r, q, rule, a);
    MatchesTwo(es, r, q, rule, b);
    MatchesTwo(es, r, q, rule, c);
    hide EntityIds;
    var pairs := Matches(es, es, rels, rule);
    assert pairs == [(a.id, b.id), (b.id, c.id)];
    assert pairs[0].1 == pairs[1].0 && pairs[0].0 != pairs[0].1;
  }

  /** A merge rule raises a missing-key error exactly when its matches are chained. */
  lemma MergeRuleRaises(g: Graph, rule: Rule, uuid: nat -> string)
    requires WellFormed(g) && rule.action == MergeEntities
    ensures ApplyRule(g, rule, uuid).ok <==> !Chained(Matches(g.entities, g.entities, g.relations, rule))
  {
    var pairs := Matches(g.entities, g.entities, g.relations, rule);
    forall p | p in pairs
      ensures p.0 in EntityIds(g.entities) && p.1 in EntityIds(g.entities)
    {
      MatchesMembers(g.entities, g.entities, g.relations, rule, p);
    }
    MergePairsIds(g, pairs);
  }

  // ---- well-formedness under inference, merging included ----

  lemma {:induction false} LinkPairsWellFormed(g: Graph, pairs: seq<(string, string)>, uuid: nat -> string)
    requires WellFormed(g) && NewIds(g, uuid)
    requires forall p :: p in pairs ==> p.0 in EntityIds(g.entities) && p.1 in EntityIds(g.entities)
    ensures WellFormed(LinkPairs(g, pairs, uuid)) && NewIds(LinkPairs(g, pairs, uuid), uuid)
    ensures LinkPairs(g, pairs, uuid).entities == g.entities
  {
    if pairs != [] {
      var n := |pairs| - 1;
      LinkPairsWellFormed(g, pairs[..n], uuid);
      var h, p := LinkPairs(g, pairs[..n], uuid), pairs[n];
      assert p in pairs;
      assert forall i :: 0 <= i < |h.relations| ==> h.relations[i] in h.relations;
    }
  }

  lemma {:induction false} MergePairsWellFormed(g: Graph, pairs: seq<(string, string)>, uuid: nat -> string)
    requires WellFormed(g) && NewIds(g, uuid)
    ensures WellFormed(MergePairs(g, pairs).g) && NewIds(MergePairs(g, pairs).g, uuid)
  {
    if pairs != [] {
      var n := |pairs| - 1;
      MergePairsWellFormed(g, pairs[..n], uuid);
      var s, p := MergePairs(g, pairs[..n]), pairs[n];
      if s.ok && p.0 in EntityIds(s.g.entities) {
        MergeAllWellFormed(s.g, p.0, [p.1]);
        MergeAllIds(s.g, p.0, [p.1], uuid);
      }
    }
  }

  /** Every rule, merging or not, failing or not, leaves all relations anchored and all ids distinct. */
  lemma ApplyRuleWellFormed(g: Graph, rule: Rule, uuid: nat -> string)
    requires WellFormed(g) && NewIds(g, uuid)
    ensures WellFormed(ApplyRule(g, rule, uuid).g) && NewIds(ApplyRule(g, rule, uuid).g, uuid)
  {
    var pairs := Matches(g.entities, g.entities, g.relations, rule);
    forall p | p in pairs
      ensures p.0 in EntityIds(g.entities) && p.1 in EntityIds(g.entities)
    {
      MatchesMembers(g.entities, g.entities, g.relations, rule, p);
    }
    match rule.action
    case CreateRelation => LinkPairsWellFormed(g, pairs, uuid);
    case MergeEntities => MergePairsWellFormed(g, pairs, uuid);
    case RaiseAlert =>
  }

  // ---- the order rules are applied in ----

  function InsertRule(rules: seq<Rule>, rule: Rule): seq<Rule>
  {
    if rules == [] || rules[|rules| - 1].priority >= rule.priority then rules + [rule]
    else InsertRule(rules[..|rules| - 1], rule) + [rules[|rules| - 1]]
  }

  /** The enabled rules, highest priority first, in the given order among equals. */
  function ActiveRules(rules: seq<Rule>): seq<Rule>
  {
    if rules == [] then []
    else
      var front, rule := ActiveRules(rules[..|rules| - 1]), rules[|rules| - 1];
      if rule.enabled then InsertRule(front, rule) else front
  }

  lemma {:induction false} InsertRuleMembers(rules: seq<Rule>, rule: Rule)
    ensures forall x :: x in InsertRule(rules, rule) <==> x in rules || x == rule
  {
    if !(rules == [] || rules[|rules| - 1].priority >= rule.priority) {
      InsertRuleMembers(rules[..|rules| - 1], rule);
      assert rules == rules[..|rules| - 1] + [rules[|rules| - 1]];
    }
  }

  lemma {:induction false} ActiveRulesMembers(rules: seq<Rule>)
    ensures forall x :: x in ActiveRules(rules) <==> x in rules && x.enabled
  {
    if rules != [] {
      ActiveRulesMembers(rules[..|rules| - 1]);
      InsertRuleMembers(ActiveRules(rules[..|rules| - 1]), rules[|rules| - 1]);
      assert rules == rules[..|rules| - 1] + [rules[|rules| - 1]];
    }
  }

  /** The rules of one priority, in order. */
  function OfPriority(rules: seq<Rule>, p: int): seq<Rule>
  {
    if rules == [] then []
    else OfPriority(rules[..|rules| - 1], p) + if rules[|rules| - 1].priority == p then [rules[|rules| - 1]] else []
  }

  function Enabled(rules: seq<Rule>): seq<Rule>
  {
    if rules == [] then []
    else Enabled(rules[..|rules| - 1]) + if rules[|rules| - 1].enabled then [rules[|rules| - 1]] else []
  }

  lemma OfPriorityNext(rules: seq<Rule>, rule: Rule, p: int)
    ensures OfPriority(rules + [rule], p) == OfPriority(rules, p) + if rule.priority == p then [rule] else []
  {
    assert (rules + [rule])[..|rules|] == rules;
  }

  lemma {:induction false} InsertRuleStable(rules: seq<Rule>, rule: Rule, p: int)
    ensures OfPriority(InsertRule(rules, rule), p) == OfPriority(rules, p) + if rule.priority == p then [rule] else []
  {
    if rules == [] || rules[|rules| - 1].priority >= rule.priority {
      OfPriorityNext(rules, rule, p);
    } else {
      var n := |rules| - 1;
      InsertRuleStable(rules[..n], rule, p);
      OfPriorityNext(InsertRule(rules[..n], rule), rules[n], p);
    }
  }

  /** Among rules of one priority the enabled ones are applied in the given order, each as often as
      it is given. */
  lemma {:induction false} ActiveRulesStable(rules: seq<Rule>, p: int)
    ensures OfPriority(ActiveRules(rules), p) == OfPriority(Enabled(rules), p)
  {
    if rules != [] {
      var n := |rules| - 1;
      ActiveRulesStable(rules[..n], p);
      InsertRuleStable(ActiveRules(rules[..n]), rules[n], p);
      OfPriorityNext(Enabled(rules[..n]), rules[n], p);
      hide InsertRule, OfPriority;
      assert Enabled(rules[..n]) + [] == Enabled(rules[..n]);
    }
  }

  ghost predicate ByPriority(rules: seq<Rule>)
  {
    forall i, j :: 0 <= i < j < |rules| ==> rules[i].priority >= rules[j].priority
  }

  lemma {:induction false} InsertRuleSorted(rules: seq<Rule>, rule: Rule)
    requires ByPriority(rules)
    ensures ByPriority(InsertRule(rules, rule))
  {
    if !(rules == [] || rules[|rules| - 1].priority >= rule.priority) {
      var n := |rules| - 1;
      InsertRuleSorted(rules[..n], rule);
      InsertRuleMembers(rules[..n], rule);
      var r := InsertRule(rules[..n], rule);
      forall i | 0 <= i < |r|
        ensures r[i].priority >= rules[n].priority
      {
        assert r[i] in r;
        if r[i] in rules[..n] {
          var j :| 0 <= j < n && rules[j] == r[i];
        }
      }
    }
  }

  lemma {:induction false} ActiveRulesSorted(rules: seq<Rule>)
    ensures ByPriority(ActiveRules(rules))
  {
    if rules != [] {
      ActiveRulesSorted(rules[..|rules| - 1]);
      InsertRuleSorted(ActiveRules(rules[..|rules| - 1]), rules[|rules| - 1]);
    }
  }
}
