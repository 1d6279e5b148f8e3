/** Quorum, deletion hooks and the endpoints gate over runs of the scaling controllers. */
module ScalingSafety {
  import opened Basics
  import opened ScalingModel

  // ----- quorum across one removal sync -----

  lemma WithoutSets(s: ControlPlane, ids: set<nat>)
    ensures Voters(Without(s, ids)) == Voters(s) - ids
    ensures HealthyVoters(Without(s, ids)) == HealthyVoters(s) - ids
    ensures Unhealthy(Without(s, ids)) == Unhealthy(s) - ids
    ensures HealthyVoters(s) <= Voters(s)
  {
  }

  lemma CardSubset(a: set<nat>, b: set<nat>)
    requires a <= b
    ensures |a| <= |b| && |b - a| == |b| - |a|
  {
  }

  /** Losing members that are unhealthy or do not vote cannot cost the majority. */
  lemma UnhealthyRemovalKeepsMajority(s: ControlPlane, ids: set<nat>)
    requires HealthyMajority(s) && ids * HealthyVoters(s) == {}
    ensures HealthyMajority(Without(s, ids)) && HealthyVoters(Without(s, ids)) == HealthyVoters(s)
  {
    WithoutSets(s, ids);
    assert HealthyVoters(s) - ids == HealthyVoters(s) by {
      forall id | id in HealthyVoters(s) ensures id !in ids {
        assert id !in ids * HealthyVoters(s);
      }
    }
    CardSubset(Voters(s) - ids, Voters(s));
  }

  /** The scale-down stage alone, with every removal call succeeding. */
  lemma ScaleDownKeepsMajority(s: ControlPlane, victim: Option<nat>)
    requires HealthyMajority(s) && ScaleDownStage(s, {}, victim)
    ensures var t := Without(s, if victim.Some? then {victim.value} else {});
            && HealthyMajority(t)
            && (victim.Some? <==> ScaleDownGuard(s))
            && (victim.Some? && victim.value in s.healthy ==> Unhealthy(s) == {} && |Voters(t)| >= s.desired)
  {
    if victim.Some? {
      var v := victim.value;
      WithoutSets(s, {v});
      if v in s.healthy {
        assert Unhealthy(s) == {} by {
          assert DepartingVoters(s) * Unhealthy(s) == {};
        }
        assert HealthyVoters(s) == Voters(s) by {
          forall id | id in Voters(s) ensures id in s.healthy { assert id !in Unhealthy(s); }
        }
        assert |Voters(s) - {v}| == |Voters(s)| - 1;
      } else {
        UnhealthyRemovalKeepsMajority(s, {v});
      }
    } else {
      assert Without(s, {}).members == s.members;
    }
  }

  lemma EarlierStages(s: ControlPlane, fails: set<nat>, r: Removal)
    requires OrphanStage(s, fails, r.orphans) && LearnerStage(Without(s, r.orphans), fails, r.learners)
    requires HealthyMajority(s)
    ensures var s2 := Without(Without(s, r.orphans), r.learners);
            HealthyMajority(s2) && HealthyVoters(s2) == HealthyVoters(s)
  {
    var s1 := Without(s, r.orphans);
    assert forall id :: id in r.learners ==> id in DepartingLearners(s1);
    assert r.orphans * HealthyVoters(s) == {};
    UnhealthyRemovalKeepsMajority(s, r.orphans);
    assert r.learners * HealthyVoters(s1) == {};
    UnhealthyRemovalKeepsMajority(s1, r.learners);
  }

  /** A removal sync whose calls succeed keeps a healthy majority.  At most one healthy
      voter is lost, and only when the earlier stages left no unhealthy member and the
      desired number of voters remains. */
  lemma RemovalKeepsQuorum(s: ControlPlane, r: Removal, t: ControlPlane)
    requires HealthyMajority(s) && RemovalSync(s, {}, r, t)
    ensures HealthyMajority(t)
    ensures HealthyVoters(s) - HealthyVoters(t) == VictimSet(r) * s.healthy
    ensures HealthyVoters(t) != HealthyVoters(s) ==> Unhealthy(t) == {} && |Voters(t)| >= s.desired
  {
    if RemovalGate(s) {
      EarlierStages(s, {}, r);
      LastStage(Without(Without(s, r.orphans), r.learners), r, t);
    }
  }

  lemma LastStage(s: ControlPlane, r: Removal, t: ControlPlane)
    requires HealthyMajority(s) && ScaleDownStage(s, {}, r.victim) && t == Without(s, VictimSet(r))
    ensures HealthyMajority(t)
    ensures HealthyVoters(s) - HealthyVoters(t) == VictimSet(r) * s.healthy
    ensures HealthyVoters(t) != HealthyVoters(s) ==> Unhealthy(t) == {} && |Voters(t)| >= s.desired
  {
    hide ScaleDownStage, ScaleDownGuard, HealthyMajority, Without;
    ScaleDownKeepsMajority(s, r.victim);
    VictimVotes(s, {}, r.victim);
    WithoutSets(s, VictimSet(r));
    VictimHealth(s, r);
  }

  lemma VictimHealth(s: ControlPlane, r: Removal)
    requires r.victim.Some? ==> r.victim.value in Voters(s)
    ensures HealthyVoters(s) - (HealthyVoters(s) - VictimSet(r)) == VictimSet(r) * s.healthy
    ensures HealthyVoters(s) - VictimSet(r) != HealthyVoters(s) ==> r.victim.Some? && r.victim.value in s.healthy
  {
  }

  lemma VictimVotes(s: ControlPlane, fails: set<nat>, victim: Option<nat>)
    requires ScaleDownStage(s, fails, victim)
    ensures victim.Some? ==> victim.value in Voters(s)
  {
  }

  /** The states from which some failing removal call makes the scale-down stage take a
      healthy voter the cluster cannot spare. */
  predicate AtRisk(s: ControlPlane) {
    && ScaleDownGuard(s) && Unhealthy(s) != {}
    && (DepartingVoters(s) * HealthyVoters(s)) != {}
    && 2 * (|HealthyVoters(s)| - 1) <= |Voters(s)| - 1
  }

  lemma SafeVictim(s: ControlPlane, fails: set<nat>, r: Removal)
    requires HealthyMajority(s) && !AtRisk(s) && ScaleDownStage(s, fails, r.victim)
    ensures HealthyMajority(Without(s, VictimSet(r)))
  {
    if r.victim.None? {
      assert Without(s, {}).members == s.members;
    } else if Unhealthy(s) == {} {
      assert ScaleDownStage(s, {}, r.victim);
      ScaleDownKeepsMajority(s, r.victim);
    } else {
      var v := r.victim.value;
      WithoutSets(s, {v});
      assert |Voters(s) - {v}| == |Voters(s)| - 1;
      if v in s.healthy {
        assert v in DepartingVoters(s) * HealthyVoters(s);
        assert |HealthyVoters(s) - {v}| == |HealthyVoters(s)| - 1;
      } else {
        UnhealthyRemovalKeepsMajority(s, {v});
      }
    }
  }

  lemma DepartingWithout(s: ControlPlane, ids: set<nat>)
    ensures DepartingVoters(Without(s, ids)) == DepartingVoters(s) - ids
    ensures DepartingVoters(s) <= Voters(s) && HealthyVoters(s) * Unhealthy(s) == {} &&
            HealthyVoters(s) <= s.members.Keys
  {
    forall id ensures id in DepartingVoters(Without(s, ids)) <==> id in DepartingVoters(s) - ids {
      assert id in s.members && id !in ids ==> (Departing(Without(s, ids), id) <==> Departing(s, id));
    }
  }

  /** Taking members away that are unhealthy or do not vote adds no risk. */
  lemma RiskWithout(s: ControlPlane, ids: set<nat>)
    requires ids * HealthyVoters(s) == {} && AtRisk(Without(s, ids))
    ensures AtRisk(s)
  {
    var t := Without(s, ids);
    WithoutSets(s, ids);
    DepartingWithout(s, ids);
    hide Voters, HealthyVoters, Unhealthy, DepartingVoters;
    CardSubset(Voters(t), Voters(s));
    var v :| v in DepartingVoters(t) * HealthyVoters(t);
    var w :| w in DepartingVoters(t) * Unhealthy(t);
    assert HealthyVoters(t) == HealthyVoters(s) by {
      assert forall id :: id in HealthyVoters(s) ==> id !in ids * HealthyVoters(s);
    }
    assert v in DepartingVoters(s) * HealthyVoters(s) && v !in Unhealthy(s) by {
      assert v !in HealthyVoters(s) * Unhealthy(s);
    }
    assert w in DepartingVoters(s) * Unhealthy(s) && w !in HealthyVoters(s) by {
      assert w !in HealthyVoters(s) * Unhealthy(s);
    }
  }

  /** At risk, failing calls for everyone but one healthy departing voter cost the majority. */
  lemma RiskySync(s: ControlPlane) returns (fails: set<nat>, r: Removal, t: ControlPlane)
    requires HealthyMajority(s) && RemovalGate(s) && AtRisk(s)
    ensures RemovalSync(s, fails, r, t) && !HealthyMajority(t)
  {
    var v :| v in DepartingVoters(s) * HealthyVoters(s);
    fails := s.members.Keys - {v};
    r := ScalingModel.Removal.Removal({}, {}, Some(v));
    t := Without(s, {v});
    assert Without(s, {}).members == s.members;
    StagesFail(s, v);
    LosingOne(s, v);
  }

  /** When every call but the one for `v` fails, the earlier stages do nothing and `v` is
      what the last one takes. */
  lemma StagesFail(s: ControlPlane, v: nat)
    requires ScaleDownGuard(s) && v in DepartingVoters(s) * HealthyVoters(s)
    ensures var fails := s.members.Keys - {v};
            OrphanStage(s, fails, {}) && LearnerStage(s, fails, {}) && ScaleDownStage(s, fails, Some(v))
  {
    NotOrphaned(s, v);
    assert DepartingLearners(s) - (s.members.Keys - {v}) == {};
  }

  lemma LosingOne(s: ControlPlane, v: nat)
    requires v in HealthyVoters(s) && 2 * (|HealthyVoters(s)| - 1) <= |Voters(s)| - 1
    ensures !HealthyMajority(Without(s, {v}))
  {
    WithoutSets(s, {v});
    assert |HealthyVoters(s) - {v}| == |HealthyVoters(s)| - 1;
    assert |Voters(s) - {v}| == |Voters(s)| - 1;
  }

  lemma NotOrphaned(s: ControlPlane, id: nat)
    requires Departing(s, id)
    ensures !Orphan(s, id)
  {
  }

  /** A removal sync keeps the majority whatever removal calls fail exactly when its gate
      is shut or the state is not at risk. */
  lemma FailingRemovalIsExact(s: ControlPlane)
    requires HealthyMajority(s)
    ensures (forall fails, r, t | RemovalSync(s, fails, r, t) :: HealthyMajority(t)) <==> !(RemovalGate(s) && AtRisk(s))
  {
    if RemovalGate(s) && AtRisk(s) {
      var fails, r, t := RiskySync(s);
    } else {
      forall fails, r, t | RemovalSync(s, fails, r, t) ensures HealthyMajority(t) {
        if RemovalGate(s) {
          SafeSync(s, fails, r, t);
        }
      }
    }
  }

  lemma StagesSpareHealthyVoters(s: ControlPlane, fails: set<nat>, r: Removal)
    requires OrphanStage(s, fails, r.orphans) && LearnerStage(Without(s, r.orphans), fails, r.learners)
    ensures r.orphans * HealthyVoters(s) == {} && r.learners * HealthyVoters(Without(s, r.orphans)) == {}
  {
    assert forall id :: id in r.learners ==> id in DepartingLearners(Without(s, r.orphans));
  }

  lemma SafeSync(s: ControlPlane, fails: set<nat>, r: Removal, t: ControlPlane)
    requires HealthyMajority(s) && RemovalGate(s) && !AtRisk(s) && RemovalSync(s, fails, r, t)
    ensures HealthyMajority(t)
  {
    var s2 := Without(Without(s, r.orphans), r.learners);
    hide AtRisk, HealthyMajority, ScaleDownStage, OrphanStage, LearnerStage;
    EarlierStages(s, fails, r);
    if AtRisk(s2) {
      StagesSpareHealthyVoters(s, fails, r);
      RiskWithout(Without(s, r.orphans), r.learners);
      RiskWithout(s, r.orphans);
    }
    SafeVictim(s2, fails, r);
  }

  /** Five voters on machines of their own, two of them unhealthy; a healthy one's machine
      and an unhealthy one's are departing. */
  const RISKY := ControlPlane(
    map id | id in {1, 2, 3, 4, 5} :: Member(id, false),
    {1, 2, 3},
    map m | m in {1, 2, 3, 4, 5} :: Machine([m], [ETCD_HOOK], m in {1, 4}, 0, Some(m)),
    map n | n in {1, 2, 3, 4, 5} :: Node(n, false, false),
    map id | id in {1, 2, 3, 4, 5} :: id,
    3, true)

  predicate LikeRisky(s: ControlPlane) {
    && s.members.Keys == s.machines.Keys == s.endpoints.Keys == {1, 2, 3, 4, 5} && s.healthy == {1, 2, 3}
    && (forall id :: id in s.members ==> s.members[id] == Member(id, false) && s.endpoints[id] == id)
    && (forall m :: m in s.machines ==> s.machines[m] == Machine([m], [ETCD_HOOK], m in {1, 4}, 0, Some(m)))
    && s.desired == 3 && s.stable
  }

  /** Every member `id` sits at address `id`, on the hooked machine `id`. */
  predicate OwnMachines(s: ControlPlane) {
    && s.members.Keys == s.machines.Keys == s.endpoints.Keys
    && (forall id :: id in s.members ==> s.members[id].ip == id && !s.members[id].learner)
    && (forall id :: id in s.endpoints ==> s.endpoints[id] == id)
    && (forall m :: m in s.machines ==> s.machines[m].ips == [m] && s.machines[m].preDrain == [ETCD_HOOK])
  }

  lemma OwnMachinesConsistent(s: ControlPlane)
    requires OwnMachines(s)
    ensures WellFormed(s) && HookInv(s) && forall id :: !Orphan(s, id)
  {
    OwnMachinesHooked(s);
    forall id ensures !Orphan(s, id) {
      if id in s.members {
        assert s.members[id].ip in s.machines[id].ips;
      }
    }
    hide Orphan, HookInv;
    assert MachinesUnique(s);
  }

  lemma OwnMachinesHooked(s: ControlPlane)
    requires OwnMachines(s)
    ensures HookInv(s)
  {
  }

  lemma OwnMachinesGate(s: ControlPlane)
    requires OwnMachines(s)
    ensures VotingIPs(s) == s.endpoints.Values
  {
    forall ip ensures ip in VotingIPs(s) <==> ip in s.members {
      assert ip in s.members ==> s.members[ip].ip == ip;
    }
    forall ip ensures ip in s.endpoints.Values <==> ip in s.members {
      assert ip in s.endpoints ==> s.endpoints[ip] == ip;
    }
  }

  lemma RiskyConsistent(s: ControlPlane)
    requires LikeRisky(s)
    ensures WellFormed(s) && HookInv(s) && RemovalGate(s)
    ensures forall id :: !Orphan(s, id)
  {
    assert OwnMachines(s);
    hide OwnMachines, WellFormed, HookInv, Orphan, VotingIPs;
    OwnMachinesConsistent(s);
    OwnMachinesGate(s);
  }

  lemma RiskySets(s: ControlPlane)
    requires LikeRisky(s)
    ensures Voters(s) == {1, 2, 3, 4, 5} && HealthyVoters(s) == {1, 2, 3} && Unhealthy(s) == {4, 5}
    ensures DepartingVoters(s) == {1, 4} && DepartingLearners(s) == {}
  {
    assert OnDeparting(s.machines[1], s.members[1].ip) && OnDeparting(s.machines[4], s.members[4].ip);
  }

  lemma RiskyGuard(s: ControlPlane)
    requires LikeRisky(s)
    ensures HealthyMajority(s) && ScaleDownGuard(s)
  {
    hide Voters, HealthyVoters, Unhealthy, DepartingVoters;
    RiskySets(s);
    assert 4 in {1, 4} * {4, 5} && 1 in s.members.Keys && 1 !in {4, 5};
  }

  lemma RiskyStages(s: ControlPlane)
    requires LikeRisky(s)
    ensures OrphanStage(s, {4}, {}) && LearnerStage(s, {4}, {}) && ScaleDownStage(s, {4}, Some(1))
  {
    hide Voters, HealthyVoters, Unhealthy, DepartingVoters, DepartingLearners;
    hide RemovalGate, Orphan, WellFormed, HookInv, ScaleDownGuard, HealthyMajority;
    RiskyConsistent(s);
    RiskySets(s);
    RiskyGuard(s);
  }

  lemma WithoutNone(s: ControlPlane)
    ensures Without(s, {}) == s
  {
    assert Without(s, {}).members == s.members;
  }

  lemma RiskySyncs(s: ControlPlane)
    requires LikeRisky(s)
    ensures HealthyMajority(s) && !HealthyMajority(Without(s, {1}))
    ensures RemovalSync(s, {4}, ScalingModel.Removal.Removal({}, {}, Some(1)), Without(s, {1}))
  {
    hide LikeRisky, RemovalGate, OrphanStage, LearnerStage, ScaleDownStage, HealthyMajority, WellFormed;
    hide HookInv, Orphan, Without, ScaleDownGuard, Voters, HealthyVoters, Unhealthy, DepartingVoters, DepartingLearners;
    RiskyConsistent(s);
    RiskySets(s);
    RiskyGuard(s);
    RiskyStages(s);
    WithoutNone(s);
    assert 1 in HealthyVoters(s) && |HealthyVoters(s)| == 3 && |Voters(s)| == 5;
    LosingOne(s, 1);
  }

  /** No member of that state lacks a machine, its machines are hooked and the gate is open. */
  lemma RiskyIsConsistent()
    ensures WellFormed(RISKY) && HookInv(RISKY) && RemovalGate(RISKY)
    ensures forall id :: !Orphan(RISKY, id)
  {
    assert LikeRisky(RISKY);
    hide RISKY, LikeRisky;
    RiskyConsistent(RISKY);
  }

  /** The risk is real: in one removal sync the removal of the unhealthy member 4 fails,
      the healthy member 1 goes, and the majority with it. */
  lemma RiskIsReal() returns (r: Removal, t: ControlPlane)
    ensures HealthyMajority(RISKY) && RemovalSync(RISKY, {4}, r, t) && !HealthyMajority(t)
  {
    assert LikeRisky(RISKY);
    hide RISKY, LikeRisky;
    RiskySyncs(RISKY);
    r, t := ScalingModel.Removal.Removal({}, {}, Some(1)), Without(RISKY, {1});
  }

  // ----- runs -----

  datatype Event =
    | Removal(fails: set<nat>, r: ScalingModel.Removal)
    | Membership(ready: set<nat>, newId: nat, addFails: bool, joining: Option<nat>)
    | Hooks(fails: set<nat>)
    | Endpoints
    | DeleteMachine(m: nat)
    | DrainMachine(m: nat)
    | NewMachine(m: nat, machine: Machine)
    | Surroundings(healthy: set<nat>, nodes: map<nat, Node>, desired: int, stable: bool)

  predicate Next(s: ControlPlane, e: Event, t: ControlPlane) {
    match e
    case Removal(fails, r) => RemovalSync(s, fails, r, t)
    case Membership(ready, newId, addFails, joining) =>
      newId !in s.members && MemberSync(s, ready, newId, addFails, joining, t) && WellFormed(t)
    case Hooks(fails) => HookSync(s, fails, t)
    case Endpoints => t == EndpointsSync(s)
    // a user asks for a machine to be deleted; it is drained once no hook blocks it
    case DeleteMachine(m) => m in s.machines && t == s.(machines := s.machines[m := s.machines[m].(deleting := true)])
    case DrainMachine(m) =>
      m in s.machines && s.machines[m].deleting && s.machines[m].preDrain == [] && t == s.(machines := s.machines - {m})
    // a machine arrives with addresses nobody uses
    case NewMachine(m, machine) =>
      && m !in s.machines && t == s.(machines := s.machines[m := machine])
      && (forall n, ip :: n in s.machines && ip in s.machines[n].ips ==> ip !in machine.ips)
      && (forall ip :: ip in machine.ips ==> ip !in MemberIPs(s) && ip !in s.endpoints.Values)
    case Surroundings(healthy, nodes, desired, stable) =>
      t == s.(healthy := healthy, nodes := nodes, desired := desired, stable := stable)
  }

  predicate IsRun(states: seq<ControlPlane>, events: seq<Event>) {
    |states| == |events| + 1 && forall k :: 0 <= k < |events| ==> Next(states[k], events[k], states[k + 1])
  }

  lemma MemberSyncAddresses(s: ControlPlane, e: Event, t: ControlPlane)
    requires e.Membership? && Next(s, e, t)
    ensures forall id :: id in t.members ==>
              (id in s.members && t.members[id].ip == s.members[id].ip) ||
              (exists m :: m in s.machines && Hosts(s.machines[m], t.members[id].ip))
    ensures t == s.(members := t.members)
  {
  }

  lemma NextWellFormed(s: ControlPlane, e: Event, t: ControlPlane)
    requires WellFormed(s) && Next(s, e, t)
    ensures WellFormed(t)
  {
    match e
    case NewMachine(m, machine) =>
      forall n, ip | n in s.machines && ip in s.machines[n].ips ensures ip !in machine.ips { }
      forall id | id in s.members ensures s.members[id].ip !in machine.ips { assert s.members[id].ip in MemberIPs(s); }
    case Hooks(fails) =>
      forall n | n in t.machines ensures t.machines[n].ips == s.machines[n].ips { }
    case _ =>
  }

  // ----- deletion hooks -----

  /** A machine that hosts a member carries the etcd hook. */
  predicate HookInv(s: ControlPlane) {
    forall m, id :: m in s.machines && id in s.members && s.members[id].ip in s.machines[m].ips ==>
      HasHook(s.machines[m])
  }

  lemma {:induction false} ForeignKeeps(hooks: seq<Hook>)
    ensures ETCD_HOOK !in Foreign(hooks)
    ensures Foreign(Foreign(hooks)) == Foreign(hooks)
    ensures Foreign(hooks + [ETCD_HOOK]) == Foreign(hooks)
  {
    assert (hooks + [ETCD_HOOK])[..|hooks|] == hooks;
    if hooks != [] {
      var init := hooks[..|hooks| - 1];
      ForeignKeeps(init);
      if hooks[|hooks| - 1].name != HOOK_NAME {
        assert Foreign(hooks)[..|Foreign(hooks)| - 1] == Foreign(init);
      }
    }
  }

  /** Hooks of other owners are kept, in order, whatever a hook sync does. */
  lemma HookSyncKeepsForeign(s: ControlPlane, fails: set<nat>, t: ControlPlane)
    requires HookSync(s, fails, t)
    ensures forall m :: m in s.machines ==> Foreign(t.machines[m].preDrain) == Foreign(s.machines[m].preDrain)
  {
    forall m | m in s.machines ensures Foreign(t.machines[m].preDrain) == Foreign(s.machines[m].preDrain) {
      ForeignKeeps(s.machines[m].preDrain);
      ForeignKeeps(Foreign(s.machines[m].preDrain));
    }
  }

  lemma MembershipHookInv(s: ControlPlane, e: Event, t: ControlPlane)
    requires WellFormed(s) && HookInv(s) && e.Membership? && Next(s, e, t)
    ensures HookInv(t)
  {
    MemberSyncAddresses(s, e, t);
    hide MemberSync;
    forall m, id | m in t.machines && id in t.members && t.members[id].ip in t.machines[m].ips
      ensures HasHook(t.machines[m])
    {
      if !(id in s.members && t.members[id].ip == s.members[id].ip) {
        var n :| n in s.machines && Hosts(s.machines[n], t.members[id].ip);
      }
    }
  }

  lemma HooksHookInv(s: ControlPlane, fails: set<nat>, t: ControlPlane)
    requires HookInv(s) && HookSync(s, fails, t)
    ensures HookInv(t)
  {
  }

  lemma NextHookInv(s: ControlPlane, e: Event, t: ControlPlane)
    requires WellFormed(s) && HookInv(s) && Next(s, e, t)
    ensures HookInv(t)
  {
    match e
    case Membership(_, _, _, _) => MembershipHookInv(s, e, t);
    case Hooks(fails) => HooksHookInv(s, fails, t);
    case NewMachine(_, machine) =>
      forall id | id in s.members ensures s.members[id].ip !in machine.ips { assert s.members[id].ip in MemberIPs(s); }
    case _ =>
  }

  lemma {:induction false} RunHookInv(states: seq<ControlPlane>, events: seq<Event>, k: nat)
    requires IsRun(states, events) && k <= |events|
    requires WellFormed(states[0]) && HookInv(states[0])
    ensures WellFormed(states[k]) && HookInv(states[k])
  {
    if k > 0 {
      RunHookInv(states, events, k - 1);
      NextWellFormed(states[k - 1], events[k - 1], states[k]);
      NextHookInv(states[k - 1], events[k - 1], states[k]);
    }
  }

  /** Whatever the interleaving, a machine is drained only when it hosts no member. */
  lemma NeverDrainedWhileMember(states: seq<ControlPlane>, events: seq<Event>, k: nat)
    requires IsRun(states, events) && k < |events|
    requires WellFormed(states[0]) && HookInv(states[0])
    requires events[k].DrainMachine?
    ensures forall id :: id in states[k].members ==>
              events[k].m in states[k].machines && states[k].members[id].ip !in states[k].machines[events[k].m].ips
  {
    RunHookInv(states, events, k);
    assert Next(states[k], events[k], states[k + 1]);
  }

  // ----- the endpoints gate -----

  /** `x` is still in the configmap but no member has it or can get it. */
  predicate Retired(s: ControlPlane, x: IP) {
    && x in s.endpoints.Values && x !in MemberIPs(s)
    && forall m :: m in s.machines && x in s.machines[m].ips ==> s.machines[m].deleting
  }

  lemma VictimRetired(s: ControlPlane, e: Event, t: ControlPlane)
    requires WellFormed(s) && e.Removal? && Next(s, e, t) && e.r.victim.Some?
    ensures e.r.victim.value in s.members && Retired(t, s.members[e.r.victim.value].ip)
  {
    var s2 := Without(Without(s, e.r.orphans), e.r.learners);
    var v := e.r.victim.value;
    assert v in DepartingVoters(s2);
    var x := s.members[v].ip;
    assert x in VotingIPs(s);
    var m :| m in s.machines && OnDeparting(s.machines[m], x);
    assert v !in t.members;
    forall id | id in t.members ensures t.members[id].ip != x { assert id in s.members && id != v; }
  }

  lemma NextRetired(s: ControlPlane, e: Event, t: ControlPlane, x: IP)
    requires WellFormed(s) && Next(s, e, t) && !e.Endpoints? && Retired(s, x)
    ensures Retired(t, x)
  {
  }

  lemma RetiredClosesGate(s: ControlPlane, x: IP)
    requires Retired(s, x)
    ensures !RemovalGate(s)
  {
  }

  lemma VictimNeedsGate(s: ControlPlane, e: Event, t: ControlPlane)
    requires e.Removal? && Next(s, e, t) && e.r.victim.Some?
    ensures RemovalGate(s)
  {
  }

  lemma {:induction false} RunRetired(states: seq<ControlPlane>, events: seq<Event>, i: nat, k: nat, x: IP)
    requires IsRun(states, events) && i <= k <= |events|
    requires WellFormed(states[0]) && HookInv(states[0])
    requires Retired(states[i], x) && forall l :: i <= l < k ==> !events[l].Endpoints?
    ensures Retired(states[k], x)
    decreases k - i
  {
    if i < k {
      RunRetired(states, events, i, k - 1, x);
      RunHookInv(states, events, k - 1);
      NextRetired(states[k - 1], events[k - 1], states[k], x);
    }
  }

  /** Two removal syncs that each take a voter out by scaling down have a rewrite of the
      endpoints configmap between them. */
  lemma EndpointsRewrittenBetweenScaleDowns(states: seq<ControlPlane>, events: seq<Event>, i: nat, j: nat)
    requires IsRun(states, events) && i < j < |events|
    requires WellFormed(states[0]) && HookInv(states[0])
    requires events[i].Removal? && events[i].r.victim.Some?
    requires events[j].Removal? && events[j].r.victim.Some?
    ensures exists l :: i < l < j && events[l].Endpoints?
  {
    if forall l :: i < l < j ==> !events[l].Endpoints? {
      RunHookInv(states, events, i);
      VictimRetired(states[i], events[i], states[i + 1]);
      var x := states[i].members[events[i].r.victim.value].ip;
      VictimNeedsGate(states[j], events[j], states[j + 1]);
      RunRetired(states, events, i + 1, j, x);
      RetiredClosesGate(states[j], x);
      assert false;
    }
  }
}
