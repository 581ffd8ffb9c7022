/** The swarm coordinator: membership, bully election and the timeout sweep. Times are in
    milliseconds; each operation runs without interleaving. */
module SwarmCoordinator {
  import opened Common

  datatype Health = Healthy | Suspected | Unhealthy

  datatype Member = Member(node: string, health: Health)

  datatype Topology = LeaderWorker | Mesh

  datatype Swarm = Swarm(topology: Topology, members: map<string, Member>, leader: Option<string>)

  // ---- the order of agent ids ----

  /** Strictly before, in dictionary order. */
  predicate Below(a: string, b: string)
    decreases |a|
  {
    if b == [] then false
    else if a == [] then true
    else a[0] < b[0] || (a[0] == b[0] && Below(a[1..], b[1..]))
  }

  lemma {:induction false} BelowTotal(a: string, b: string)
    ensures a != b ==> Below(a, b) || Below(b, a)
    ensures !(Below(a, b) && Below(b, a))
    decreases |a|
  {
    if a != [] && b != [] {
      BelowTotal(a[1..], b[1..]);
      if a[0] == b[0] && a[1..] == b[1..] {
        assert a == [a[0]] + a[1..] && b == [b[0]] + b[1..];
      }
    }
  }

  lemma {:induction false} BelowTransitive(a: string, b: string, c: string)
    requires Below(a, b) && Below(b, c)
    ensures Below(a, c)
    decreases |a|
  {
    if a != [] && a[0] == b[0] == c[0] {
      BelowTransitive(a[1..], b[1..], c[1..]);
    }
  }

  /** What the order is: a proper prefix comes first, and otherwise the first difference decides. */
  lemma {:induction false} BelowExactly(a: string, b: string)
    ensures Below(a, b) <==>
            || (a <= b && a != b)
            || exists k :: 0 <= k < |a| && k < |b| && a[..k] == b[..k] && a[k] < b[k]
    decreases |a|
  {
    if a != [] && b != [] {
      BelowExactly(a[1..], b[1..]);
      if a[0] == b[0] {
        assert a == [a[0]] + a[1..] && b == [b[0]] + b[1..];
        if k :| 0 <= k < |a[1..]| && k < |b[1..]| && a[1..][..k] == b[1..][..k] && a[1..][k] < b[1..][k] {
          assert a[..k + 1] == [a[0]] + a[1..][..k] && b[..k + 1] == [b[0]] + b[1..][..k];
          assert a[k + 1] < b[k + 1];
        }
        if k :| 0 <= k < |a| && k < |b| && a[..k] == b[..k] && a[k] < b[k] {
          assert a[1..][..k - 1] == a[..k][1..] && b[1..][..k - 1] == b[..k][1..];
          assert a[1..][k - 1] < b[1..][k - 1];
        }
      } else {
        assert a[..0] == b[..0];
      }
    }
  }

  // ---- elections ----

  ghost predicate Candidate(s: Swarm, a: string)
  {
    a in s.members && s.members[a].health == Healthy
  }

  /** The winner of an election: the healthy member with the greatest id, if there is one. */
  ghost predicate Wins(s: Swarm, w: Option<string>)
  {
    match w
    case None => forall a :: !Candidate(s, a)
    case Some(x) => Candidate(s, x) && forall a :: Candidate(s, a) && a != x ==> Below(a, x)
  }

  lemma WinnerUnique(s: Swarm, v: Option<string>, w: Option<string>)
    requires Wins(s, v) && Wins(s, w)
    ensures v == w
  {
    if v.Some? && w.Some? {
      BelowTotal(v.value, w.value);
    }
  }

  method Elect(s: Swarm) returns (w: Option<string>)
    ensures Wins(s, w)
  {
    w := None;
    var todo := s.members.Keys;
    while todo != {}
      invariant todo <= s.members.Keys
      invariant w.None? ==> forall a :: Candidate(s, a) ==> a in todo
      invariant w.Some? ==> Candidate(s, w.value)
      invariant w.Some? ==> forall a :: Candidate(s, a) && a != w.value ==> a in todo || Below(a, w.value)
      decreases todo
    {
      var a :| a in todo;
      todo := todo - {a};
      if s.members[a].health == Healthy {
        if w.None? {
          w := Some(a);
        } else if Below(w.value, a) {
          forall b | Below(b, w.value)
            ensures Below(b, a)
          {
            BelowTransitive(b, w.value, a);
          }
          w := Some(a);
        } else {
          BelowTotal(a, w.value);
        }
      }
    }
  }

  // ---- the invariant and the sweep's judgement ----

  /** A leader is a member that is not unhealthy. */
  ghost predicate Led(s: Swarm)
  {
    s.leader.Some? ==> s.leader.value in s.members && s.members[s.leader.value].health != Unhealthy
  }

  function Judged(h: Health, age: real, suspicion: real, failure: real): Health
  {
    if age >= failure then Unhealthy
    else if age >= suspicion && h == Healthy then Suspected
    else h
  }

  class Coordinator {
    const suspicion: real
    const failure: real
    var swarms: map<string, Swarm>
    var lastBeat: map<string, real>

    function Age(a: string, now: real): real
      reads this`lastBeat
    {
      now - if a in lastBeat then lastBeat[a] else 0.0
    }

    ghost predicate Valid()
      reads this`swarms
    {
      forall id :: id in swarms ==> Led(swarms[id])
    }

    constructor (suspicion: real, failure: real)
      ensures Valid() && swarms == map[] && lastBeat == map[]
      ensures this.suspicion == suspicion && this.failure == failure
    {
      this.suspicion, this.failure := suspicion, failure;
      swarms, lastBeat := map[], map[];
    }

    /** Always a new, empty swarm, also when the id is in use. */
    method CreateSwarm(id: string, topology: Topology)
      requires Valid()
      modifies this`swarms
      ensures Valid() && swarms == old(swarms)[id := Swarm(topology, map[], None)]
    {
      swarms := swarms[id := Swarm(topology, map[], None)];
    }

    method RunElection(id: string)
      requires id in swarms
      requires forall x :: x in swarms && x != id ==> Led(swarms[x])
      modifies this`swarms
      ensures Valid() && id in swarms && Wins(old(swarms[id]), swarms[id].leader)
      ensures swarms == old(swarms)[id := old(swarms[id]).(leader := swarms[id].leader)]
    {
      var w := Elect(swarms[id]);
      swarms := swarms[id := swarms[id].(leader := w)];
    }

    /** A join makes the agent a healthy member; a leaderless leader-worker swarm elects at once. */
    method Join(id: string, agent: string, node: string, now: real)
      requires Valid()
      modifies this
      ensures Valid() && lastBeat == old(lastBeat)[agent := now]
      ensures swarms.Keys == old(swarms.Keys) + {id}
      ensures forall x :: x in old(swarms) && x != id ==> swarms[x] == old(swarms)[x]
      ensures var s := if id in old(swarms) then old(swarms)[id] else Swarm(LeaderWorker, map[], None);
              && swarms[id].topology == s.topology && swarms[id].members == s.members[agent := Member(node, Healthy)]
              && (s.leader.Some? || s.topology == Mesh ==> swarms[id].leader == s.leader)
              && (s.leader.None? && s.topology == LeaderWorker ==>
                  swarms[id].leader.Some? && Wins(swarms[id], swarms[id].leader))
    {
      if id !in swarms {
        CreateSwarm(id, LeaderWorker);
      }
      var s := swarms[id];
      swarms := swarms[id := s.(members := s.members[agent := Member(node, Healthy)])];
      lastBeat := lastBeat[agent := now];
      assert Candidate(swarms[id], agent);
      if s.topology == LeaderWorker && s.leader.None? {
        RunElection(id);
      }
    }

    /** A leaving leader is replaced by election; leaving a swarm one is not in changes nothing. */
    method Leave(id: string, agent: string)
      requires Valid()
      modifies this`swarms
      ensures Valid()
      ensures id !in old(swarms) || agent !in old(swarms)[id].members ==> swarms == old(swarms)
      ensures id in old(swarms) && agent in old(swarms)[id].members ==>
                var s := old(swarms)[id];
                && id in swarms && swarms == old(swarms)[id := swarms[id]]
                && swarms[id].topology == s.topology && swarms[id].members == s.members - {agent}
                && (s.leader != Some(agent) ==> swarms[id].leader == s.leader)
                && (s.leader == Some(agent) ==> Wins(swarms[id], swarms[id].leader))
    {
      if id !in swarms || agent !in swarms[id].members {
        return;
      }
      var s := swarms[id];
      if s.leader == Some(agent) {
        swarms := swarms[id := s.(members := s.members - {agent}, leader := None)];
        RunElection(id);
      } else {
        swarms := swarms[id := s.(members := s.members - {agent})];
      }
    }

    /** A heartbeat heals the agent wherever it is a member on that node, and elects nobody. */
    method Heartbeat(node: string, agent: string, now: real)
      requires Valid()
      modifies this
      ensures Valid() && lastBeat == old(lastBeat)[agent := now] && swarms.Keys == old(swarms.Keys)
      ensures forall id :: id in swarms ==> swarms[id] == Healed(old(swarms)[id], node, agent)
      ensures forall id :: id in swarms ==>
                && swarms[id].leader == old(swarms)[id].leader && swarms[id].topology == old(swarms)[id].topology
                && swarms[id].members.Keys == old(swarms)[id].members.Keys
                && forall a :: a in swarms[id].members ==>
                     && swarms[id].members[a].node == old(swarms)[id].members[a].node
                     && swarms[id].members[a].health ==
                        if a == agent && swarms[id].members[a].node == node then Healthy
                        else old(swarms)[id].members[a].health
    {
      var todo := swarms.Keys;
      while todo != {}
        invariant todo <= swarms.Keys == old(swarms.Keys) && Valid() && lastBeat == old(lastBeat)
        invariant forall id :: id in swarms ==>
                    swarms[id] == if id in todo then old(swarms)[id] else Healed(old(swarms)[id], node, agent)
        decreases todo
      {
        var id :| id in todo;
        todo := todo - {id};
        swarms := swarms[id := Healed(swarms[id], node, agent)];
      }
      lastBeat := lastBeat[agent := now];
    }

    static function Healed(s: Swarm, node: string, agent: string): Swarm
    {
      if agent in s.members && s.members[agent].node == node
      then s.(members := s.members[agent := s.members[agent].(health := Healthy)]) else s
    }

    /** The member as the sweep leaves it. */
    function Swept(a: string, m: Member, now: real): Member
      reads this`lastBeat
    {
      m.(health := Judged(m.health, Age(a, now), suspicion, failure))
    }

    /** What a sweep promises for one swarm, in whatever order it visits the members: health is
        judged by age, a leader in time stays, a leader found after the sweep has a beat younger
        than the failure timeout, a new one was healthy before and has a greater id than whoever is
        healthy afterwards, and a lost leader is left unreplaced only when nobody is healthy. */
    ghost predicate SweptSwarm(s: Swarm, t: Swarm, now: real)
      reads this`lastBeat
    {
      && t.topology == s.topology && t.members.Keys == s.members.Keys
      && (forall a :: a in s.members ==> t.members[a] == Swept(a, s.members[a], now))
      && Led(t)
      && (t.leader.Some? ==> Age(t.leader.value, now) < failure)
      && (s.leader.None? ==> t.leader.None?)
      && (s.leader.Some? && Age(s.leader.value, now) < failure ==> t.leader == s.leader)
      && (s.leader.Some? && t.leader.None? ==> forall a :: !Candidate(t, a))
      && (t.leader.Some? && t.leader != s.leader ==> Outranks(s, t, t.leader.value))
    }

    /** Healthy before, with a greater id than anybody healthy now. */
    static ghost predicate Outranks(s: Swarm, t: Swarm, w: string)
    {
      Candidate(s, w) && forall a :: Candidate(t, a) && a != w ==> Below(a, w)
    }

    /** After a sweep the unhealthy are those who were so or whose last beat is too old, and the
        healthy those who were so and whose last beat is young. */
    lemma SweptHealth(s: Swarm, t: Swarm, now: real, a: string)
      requires SweptSwarm(s, t, now) && a in s.members
      ensures t.members[a].health == Unhealthy <==> s.members[a].health == Unhealthy || Age(a, now) >= failure
      ensures t.members[a].health == Healthy <==>
              s.members[a].health == Healthy && Age(a, now) < suspicion && Age(a, now) < failure
    {
    }

    /** Half-way through a sweep: members in `todo` are as before, the others are judged. */
    ghost predicate Sweeping(s: Swarm, t: Swarm, todo: set<string>, now: real)
      reads this`lastBeat
    {
      && t.topology == s.topology && t.members.Keys == s.members.Keys && todo <= s.members.Keys
      && (forall a :: a in s.members ==>
          t.members[a] == if a in todo then s.members[a] else Swept(a, s.members[a], now))
      && Led(t)
      && (s.leader.None? ==> t.leader.None?)
      && (s.leader.Some? && Age(s.leader.value, now) < failure ==> t.leader == s.leader)
      && (s.leader.Some? && t.leader.None? ==> forall a :: !Candidate(t, a))
      && (t.leader.Some? && t.leader != s.leader ==> Outranks(s, t, t.leader.value))
    }

    /** One member of the sweep, with a new election if it was the leader that timed out. */
    method SweepMember(s: Swarm, t: Swarm, a: string, ghost todo: set<string>, now: real)
      returns (u: Swarm, failed: bool)
      requires a in todo && Sweeping(s, t, todo, now)
      ensures Sweeping(s, u, todo - {a}, now)
      ensures failed <==> Age(a, now) >= failure && s.members[a].health != Unhealthy
    {
      u, failed := t, false;
      var m, age := t.members[a], Age(a, now);
      if age >= failure && m.health != Unhealthy {
        failed := true;
        u := t.(members := t.members[a := m.(health := Unhealthy)]);
        if u.leader == Some(a) {
          u := u.(leader := None);
          var w := Elect(u);
          u := u.(leader := w);
        }
      } else if age >= suspicion && m.health == Healthy {
        u := t.(members := t.members[a := m.(health := Suspected)]);
      }
      assert forall b :: Candidate(u, b) ==> Candidate(t, b);
    }

    method SweepSwarm(id: string, now: real) returns (failed: seq<string>)
      requires Valid() && id in swarms
      modifies this`swarms
      ensures Valid() && id in swarms && swarms == old(swarms)[id := swarms[id]]
      ensures SweptSwarm(old(swarms)[id], swarms[id], now)
      ensures Distinct(failed)
      ensures forall a :: a in failed <==> TimesOut(old(swarms)[id], a, now)
    {
      var s := swarms[id];
      var t, todo := s, s.members.Keys;
      failed := [];
      while todo != {}
        invariant swarms == old(swarms) && Sweeping(s, t, todo, now) && Distinct(failed)
        invariant forall a :: a in failed <==> a !in todo && TimesOut(s, a, now)
        decreases todo
      {
        var a :| a in todo;
        var lost;
        t, lost := SweepMember(s, t, a, todo, now);
        todo := todo - {a};
        if lost {
          failed := failed + [a];
        }
      }
      swarms := swarms[id := t];
    }

    ghost predicate TimesOut(s: Swarm, a: string, now: real)
      reads this`lastBeat
    {
      a in s.members && Age(a, now) >= failure && s.members[a].health != Unhealthy
    }

    /** The sweep over all swarms. */
    method CheckPartitions(now: real) returns (partitioned: seq<string>)
      requires Valid()
      modifies this`swarms
      ensures Valid() && swarms.Keys == old(swarms.Keys)
      ensures forall id :: id in swarms ==> SweptSwarm(old(swarms)[id], swarms[id], now)
      ensures forall a :: a in partitioned <==> exists id :: id in swarms && TimesOut(old(swarms)[id], a, now)
    {
      partitioned := [];
      var todo := swarms.Keys;
      while todo != {}
        invariant todo <= swarms.Keys == old(swarms.Keys) && Valid()
        invariant forall id :: id in swarms ==>
                    if id in todo then swarms[id] == old(swarms)[id] else SweptSwarm(old(swarms)[id], swarms[id], now)
        invariant forall a :: a in partitioned <==>
                    exists id :: id in swarms && id !in todo && TimesOut(old(swarms)[id], a, now)
        decreases todo
      {
        var id :| id in todo;
        var failed := SweepSwarm(id, now);
        todo := todo - {id};
        partitioned := partitioned + failed;
      }
    }
  }
}
