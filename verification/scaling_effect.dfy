/** What one sync of each scaling controller does, said in terms of the stored resources
    alone. */
module ScalingEffect {
  import opened Basics
  import opened ScalingModel

  const DELETION_HOOK := Hook("EtcdQuorumOperator", "clusteroperator/etcd")

  // ----- the removal controller -----

  /** The machine has the address and the hook, and is being deleted or not. */
  predicate HookedAt(m: Machine, ip: IP, deleting: bool) {
    m.deleting == deleting && DELETION_HOOK in m.preDrain && ip in m.ips
  }

  /** Some machine with the address is being deleted and still hooked. */
  predicate Leaving(s: ControlPlane, ip: IP) {
    exists m :: m in s.machines && HookedAt(s.machines[m], ip, true)
  }

  /** Revisions roll out, or the configmap lists other addresses than the voters'. */
  predicate Shut(s: ControlPlane) {
    !s.stable || s.endpoints.Values != set id | id in s.members && !s.members[id].learner :: s.members[id].ip
  }

  /** The configmap lists the address, and neither a machine nor a node has it. */
  predicate Abandoned(s: ControlPlane, ip: IP) {
    && (exists k :: k in s.endpoints && s.endpoints[k] == ip)
    && (forall m :: m in s.machines ==> ip !in s.machines[m].ips)
    && (forall n :: n in s.nodes ==> s.nodes[n].ip != ip)
  }

  lemma LeavingIsDeparting(s: ControlPlane, id: nat)
    ensures id in DepartingVoters(s) <==> id in s.members && !s.members[id].learner && Leaving(s, s.members[id].ip)
    ensures id in DepartingLearners(s) <==> id in s.members && s.members[id].learner && Leaving(s, s.members[id].ip)
    ensures Orphan(s, id) <==> id in s.members && Abandoned(s, s.members[id].ip)
  {
    if id in s.members {
      var ip := s.members[id].ip;
      if m :| m in s.machines && OnDeparting(s.machines[m], ip) {
        assert Leaving(s, ip);
      }
      if m :| m in s.machines && HookedAt(s.machines[m], ip, true) {
        assert OnDeparting(s.machines[m], ip);
      }
    }
  }

  /** A voter is removed exactly when one is leaving, at least the desired number of voters
      and a quorum of that number in health are there, and either all members are healthy and
      the voters more than desired, or an unhealthy voter is leaving; an unhealthy one first. */
  ghost predicate ScaledDown(s: ControlPlane, victim: Option<nat>) {
    var voters := set id | id in s.members && !s.members[id].learner;
    var healthy := set id | id in s.members && !s.members[id].learner && id in s.healthy;
    var leaving := set id | id in s.members && !s.members[id].learner && Leaving(s, s.members[id].ip);
    && (victim.Some? <==>
          && s.desired > 0 && leaving != {} && |voters| >= s.desired && |healthy| >= s.desired / 2 + 1
          && if forall id :: id in s.members ==> id in s.healthy then |voters| > s.desired
             else exists id :: id in leaving && id !in s.healthy)
    && (victim.Some? ==>
          && victim.value in leaving
          && (victim.value in s.healthy ==> forall id :: id in leaving ==> id in s.healthy))
  }

  /** Without failing calls the scale-down stage does exactly that. */
  lemma ScaleDownIsExact(s: ControlPlane, victim: Option<nat>)
    requires ScaleDownStage(s, {}, victim)
    ensures ScaledDown(s, victim)
  {
    forall id
      ensures id in DepartingVoters(s) <==> id in s.members && !s.members[id].learner && Leaving(s, s.members[id].ip)
    {
      LeavingIsDeparting(s, id);
    }
    hide Leaving;
    assert (set id | id in s.members && !s.members[id].learner && Leaving(s, s.members[id].ip)) == DepartingVoters(s);
    assert (set id | id in s.members && !s.members[id].learner) == Voters(s);
    assert (set id | id in s.members && !s.members[id].learner && id in s.healthy) == HealthyVoters(s);
    GuardInNumbers(s);
    if victim.Some? {
      assert victim.value in DepartingVoters(s) - {};
      forall id | id in DepartingVoters(s) && id !in s.healthy ensures victim.value !in s.healthy {
        assert id in DepartingVoters(s) * Unhealthy(s);
      }
    }
    hide DepartingVoters, Unhealthy, ScaleDownGuard, Voters, HealthyVoters;
  }

  lemma GuardInNumbers(s: ControlPlane)
    ensures ScaleDownGuard(s) <==>
              && s.desired > 0 && DepartingVoters(s) != {} && |Voters(s)| >= s.desired
              && |HealthyVoters(s)| >= s.desired / 2 + 1
              && if forall id :: id in s.members ==> id in s.healthy then |Voters(s)| > s.desired
                 else exists id :: id in DepartingVoters(s) && id !in s.healthy
  {
    var d := DepartingVoters(s);
    if |HealthyVoters(s)| > 0 {
      var x :| x in HealthyVoters(s);
      assert x in s.members.Keys && x !in Unhealthy(s);
    }
    if forall id :: id in s.members ==> id in s.healthy {
      assert Unhealthy(s) == {} && HealthyVoters(s) == Voters(s);
    } else {
      var y :| y in s.members && y !in s.healthy;
      assert y in Unhealthy(s);
      if z :| z in d && z !in s.healthy {
        assert z in d * Unhealthy(s) && z in Voters(s) && z !in HealthyVoters(s);
      } else {
        assert d * Unhealthy(s) == {};
      }
    }
  }

  /** A removal sync whose calls succeed does nothing while revisions roll out or the
      configmap differs from the voters.  Otherwise, abandoned members that are unhealthy
      go, all of them unless one is healthy; leaving learners go; and at most one leaving
      voter goes, exactly as scaling down what is left demands.  Nobody else goes. */
  lemma RemovalDoes(s: ControlPlane, r: Removal, t: ControlPlane)
    requires RemovalSync(s, {}, r, t)
    ensures Shut(s) ==> t == s
    ensures !Shut(s) ==>
              var voter := if r.victim.Some? then {r.victim.value} else {};
              && t == s.(members := s.members - r.orphans - r.learners - voter)
              && (forall id :: id in r.orphans ==>
                   id in s.members && Abandoned(s, s.members[id].ip) && id !in s.healthy)
              && ((forall id :: id in s.members && Abandoned(s, s.members[id].ip) ==> id !in s.healthy) ==>
                    forall id :: id in s.members && Abandoned(s, s.members[id].ip) ==> id in r.orphans)
              && (forall id :: id in r.learners <==>
                   id in s.members && s.members[id].learner && Leaving(s, s.members[id].ip))
              && ScaledDown(s.(members := s.members - r.orphans - r.learners), r.victim)
  {
    hide Abandoned, Leaving, ScaledDown, ScaleDownStage, OrphanStage, LearnerStage;
    if RemovalGate(s) {
      StagesDo(s, r);
      ScaleDownIsExact(Without(Without(s, r.orphans), r.learners), r.victim);
    }
  }

  lemma StagesDo(s: ControlPlane, r: Removal)
    requires OrphanStage(s, {}, r.orphans) && LearnerStage(Without(s, r.orphans), {}, r.learners)
    ensures forall id :: id in r.orphans ==> id in s.members && Abandoned(s, s.members[id].ip) && id !in s.healthy
    ensures (forall id :: id in s.members && Abandoned(s, s.members[id].ip) ==> id !in s.healthy) ==>
              forall id :: id in s.members && Abandoned(s, s.members[id].ip) ==> id in r.orphans
    ensures forall id :: id in r.learners <==> id in s.members && s.members[id].learner && Leaving(s, s.members[id].ip)
  {
    LearnersWithout(s, r.orphans);
    forall id
      ensures id in DepartingLearners(s) <==> id in s.members && s.members[id].learner && Leaving(s, s.members[id].ip)
      ensures Orphan(s, id) <==> id in s.members && Abandoned(s, s.members[id].ip)
    {
      LeavingIsDeparting(s, id);
    }
    forall id | id in DepartingLearners(s) ensures !Orphan(s, id) { }
    hide Abandoned, Leaving, DepartingLearners, Orphan;
  }

  lemma LearnersWithout(s: ControlPlane, ids: set<nat>)
    ensures DepartingLearners(Without(s, ids)) == DepartingLearners(s) - ids
  {
    forall id ensures id in DepartingLearners(Without(s, ids)) <==> id in DepartingLearners(s) - ids {
      assert id in s.members && id !in ids ==> (Departing(Without(s, ids), id) <==> Departing(s, id));
    }
  }

  // ----- the deletion hook controller -----

  /** After a hook sync every machine not being deleted, unless its update failed, has the
      hook: one that had it is as before, another got it as its last and only entry of the
      name.  A machine being deleted that hosts a member or lacks the hook is as before, and
      one that hosts none has no entry of the name left, unless its own release or an
      earlier one failed. */
  lemma HookSyncDoes(before: map<nat, Machine>, ips: set<IP>, fails: set<nat>, after: map<nat, Machine>, m: nat)
    requires HooksUpdated(before, ips, fails, after) && m in before
    ensures m in after && after[m] == before[m].(preDrain := after[m].preDrain)
    ensures m in fails || (!before[m].deleting && DELETION_HOOK in before[m].preDrain) ==> after[m] == before[m]
    ensures m !in fails && !before[m].deleting && DELETION_HOOK !in before[m].preDrain ==>
              var hooks := after[m].preDrain;
              && hooks != [] && hooks[|hooks| - 1] == DELETION_HOOK
              && forall k :: 0 <= k < |hooks| - 1 ==> hooks[k].name != "EtcdQuorumOperator"
    ensures before[m].deleting &&
            (DELETION_HOOK !in before[m].preDrain || exists ip :: ip in before[m].ips && ip in ips) ==>
              after[m] == before[m]
    ensures before[m].deleting && DELETION_HOOK in before[m].preDrain &&
            (forall ip :: ip in before[m].ips ==> ip !in ips) ==>
              || (forall h :: h in after[m].preDrain ==> h.name != "EtcdQuorumOperator")
              || (after[m] == before[m] &&
                  exists f :: && f in fails && f in before && before[f].deleting && DELETION_HOOK in before[f].preDrain
                              && forall ip :: ip in before[f].ips ==> ip !in ips)
  {
    NoEntryLeft(before[m].preDrain);
    if !HasPartialHook(before[m]) && !HasHook(before[m]) {
      forall h | h in before[m].preDrain ensures h.name != "EtcdQuorumOperator" {
        assert h != DELETION_HOOK;
      }
    }
  }

  lemma {:induction false} NoEntryLeft(hooks: seq<Hook>)
    ensures forall h :: h in Foreign(hooks) <==> h in hooks && h.name != "EtcdQuorumOperator"
  {
    if hooks != [] {
      NoEntryLeft(hooks[..|hooks| - 1]);
      assert hooks == hooks[..|hooks| - 1] + [hooks[|hooks| - 1]];
    }
  }

  // ----- the member controller -----

  /** Some machine with the address is hooked and not being deleted. */
  predicate Staying(s: ControlPlane, ip: IP) {
    exists m :: m in s.machines && HookedAt(s.machines[m], ip, false)
  }

  lemma StayingHosts(s: ControlPlane, ip: IP)
    ensures Staying(s, ip) <==> exists m :: m in s.machines && Hosts(s.machines[m], ip)
  {
    if m :| m in s.machines && Hosts(s.machines[m], ip) {
      assert Staying(s, ip);
    }
    if m :| m in s.machines && HookedAt(s.machines[m], ip, false) {
      assert Hosts(s.machines[m], ip);
    }
  }

  /** The node may join: it stays, its etcd waits, and no member has its address. */
  predicate MayJoin(s: ControlPlane, n: nat) {
    && n in s.nodes && !s.nodes[n].deleting && s.nodes[n].etcdWaiting && Staying(s, s.nodes[n].ip)
    && forall id :: id in s.members ==> s.members[id].ip != s.nodes[n].ip
  }

  lemma JoinableMayJoin(s: ControlPlane)
    ensures forall n :: Joinable(s, n) <==> MayJoin(s, n)
  {
    forall n | n in s.nodes ensures Joinable(s, n) <==> MayJoin(s, n) {
      StayingHosts(s, s.nodes[n].ip);
    }
  }

  /** Some node has an address that no voter has. */
  ghost predicate RoomForVoters(s: ControlPlane) {
    exists n :: n in s.nodes && forall v :: v in s.members && !s.members[v].learner ==> s.members[v].ip != s.nodes[n].ip
  }

  lemma RoomIsExact(s: ControlPlane)
    ensures RoomForVoters(s) <==> SomeNodeDoesNotVote(s)
  {
    forall n | n in s.nodes
      ensures s.nodes[n].ip !in VotingIPs(s) <==>
              forall v :: v in s.members && !s.members[v].learner ==> s.members[v].ip != s.nodes[n].ip
    {
    }
  }

  /** Exactly the ready learners on staying machines become voters, given room. */
  ghost predicate Promoted(s: ControlPlane, ready: set<nat>, t: ControlPlane) {
    && t == s.(members := t.members) && t.members.Keys == s.members.Keys
    && forall id :: id in s.members ==>
         && t.members[id].ip == s.members[id].ip
         && (t.members[id].learner <==>
               s.members[id].learner && !(id in ready && Staying(s, s.members[id].ip) && RoomForVoters(s)))
  }

  lemma PromoteDoes(s: ControlPlane, ready: set<nat>)
    ensures Promoted(s, ready, Promote(s, if SomeNodeDoesNotVote(s) then Ready(s, ready) else {}))
  {
    RoomIsExact(s);
    forall id | id in s.members ensures Promotable(s, id) <==> s.members[id].learner && Staying(s, s.members[id].ip) {
      StayingHosts(s, s.members[id].ip);
    }
    hide Staying, Promotable, SomeNodeDoesNotVote, RoomForVoters;
  }

  /** A member sync does nothing while a member is unhealthy.  Otherwise a node that may
      join is added as a learner if there is one and the call succeeds; then the learners
      are promoted.  Nobody else changes. */
  lemma MemberSyncDoes(s: ControlPlane, ready: set<nat>, newId: nat, addFails: bool, joining: Option<nat>,
                       t: ControlPlane)
    requires MemberSync(s, ready, newId, addFails, joining, t) && newId !in s.members
    ensures (exists id :: id in s.members && id !in s.healthy) ==> t == s
    ensures (forall id :: id in s.members ==> id in s.healthy) ==>
              && (joining.Some? <==> exists n :: n in s.nodes && MayJoin(s, n))
              && (joining.Some? ==> MayJoin(s, joining.value))
              && if joining.Some? && !addFails
                 then Promoted(s.(members := s.members[newId := Member(s.nodes[joining.value].ip, true)]), ready, t)
                 else Promoted(s, ready, t)
  {
    JoinableMayJoin(s);
    assert forall id :: id in s.members && id !in s.healthy ==> id in Unhealthy(s);
    hide Joinable, MayJoin, Promoted, Promote, SomeNodeDoesNotVote, Ready;
    PromoteDoes(s, ready);
    if joining.Some? && joining.value in s.nodes {
      PromoteDoes(Add(s, newId, s.nodes[joining.value].ip), ready);
    }
    assert forall n :: Joinable(s, n) ==> n in s.nodes by {
      JoinableIsNode(s);
    }
  }

  lemma JoinableIsNode(s: ControlPlane)
    ensures forall n :: Joinable(s, n) ==> n in s.nodes
  {
  }
}
