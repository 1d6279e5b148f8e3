/** The four scaling controllers as ordered code over the stored resources.  Lists come
    back from the API in any order; RPC and update failures are inputs. */
module ScalingControllers {
  import opened Basics
  import opened ScalingModel

  /** The machine carries the hook and hosts a voter. */
  predicate VotingMachine(s: ControlPlane, m: nat) {
    m in s.machines && HasHook(s.machines[m]) && exists ip :: ip in s.machines[m].ips && ip in VotingIPs(s)
  }

  /** How many hooked voter machines share a failure domain. */
  function DomainCount(s: ControlPlane, d: int): nat {
    |set m | m in s.machines && VotingMachine(s, m) && s.machines[m].domain == d|
  }

  lemma WithoutWellFormed(s: ControlPlane, ids: set<nat>)
    requires WellFormed(s)
    ensures WellFormed(Without(s, ids))
  {
  }

  lemma NotJoinable(s: ControlPlane, n: nat, machine: Option<nat>)
    requires WellFormed(s) && n in s.nodes
    requires machine.Some? ==> machine.value in s.machines && s.nodes[n].ip in s.machines[machine.value].ips
    requires machine.None? ==> forall m :: m in s.machines ==> s.nodes[n].ip !in s.machines[m].ips
    requires machine.Some? ==> s.machines[machine.value].deleting || !HasHook(s.machines[machine.value])
    ensures !Joinable(s, n)
  {
  }

  lemma PromotableByIndex(s: ControlPlane, index: map<IP, nat>, id: nat)
    requires MachinesUnique(s) && id in s.members
    requires forall ip :: ip in index ==>
               index[ip] in s.machines && HasHook(s.machines[index[ip]]) && ip in s.machines[index[ip]].ips
    requires forall m, ip :: m in s.machines && HasHook(s.machines[m]) && ip in s.machines[m].ips ==> ip in index
    ensures Promotable(s, id) <==>
              s.members[id].learner && s.members[id].ip in index && !s.machines[index[s.members[id].ip]].deleting
  {
  }

  lemma PromoteNone(s: ControlPlane)
    ensures Promote(s, {}) == s
  {
  }

  lemma PromoteOne(s: ControlPlane, ids: set<nat>, id: nat)
    requires id in s.members && id !in ids
    ensures Promote(s, ids).members.Keys == s.members.Keys && Promote(s, ids).members[id] == s.members[id]
    ensures var t := Promote(s, ids);
            Promote(s, ids + {id}) == t.(members := t.members[id := s.members[id].(learner := false)])
  {
  }

  /** At most one member of the list has an address of the machine. */
  predicate AtMostOne(list: map<nat, Member>, machine: Machine) {
    forall a, b :: a in list && b in list && list[a].ip in machine.ips && list[b].ip in machine.ips ==> a == b
  }

  lemma WellFormedLists(s: ControlPlane, list: map<nat, Member>)
    requires WellFormed(s) && forall id :: id in list ==> id in s.members && list[id] == s.members[id]
    ensures forall m :: m in s.machines ==> AtMostOne(list, s.machines[m])
  {
  }

  lemma NotOrphan(s: ControlPlane, ip: IP)
    requires (exists m :: m in s.machines && ip in s.machines[m].ips) ||
             (exists n :: n in s.nodes && s.nodes[n].ip == ip)
    ensures forall id :: id in s.members && s.members[id].ip == ip ==> !Orphan(s, id)
  {
  }

  lemma IsOrphan(s: ControlPlane, id: nat)
    requires id in s.members && s.members[id].ip in s.endpoints.Values
    requires forall m :: m in s.machines ==> s.members[id].ip !in s.machines[m].ips
    requires forall n :: n in s.nodes ==> s.nodes[n].ip != s.members[id].ip
    ensures Orphan(s, id)
  {
  }

  lemma OrphanListed(s: ControlPlane, id: nat)
    requires Orphan(s, id)
    ensures s.members[id].ip in s.endpoints.Values
  {
  }

  lemma SameAddress(s: ControlPlane, a: nat, b: nat)
    requires WellFormed(s) && a in s.members && b in s.members && s.members[a].ip == s.members[b].ip
    ensures a == b
  {
  }

  /** Every departing learner's machine is among the machines found by address. */
  lemma LearnersCovered(s: ControlPlane, index: map<IP, nat>, pending: seq<nat>)
    requires WellFormed(s)
    requires forall ip :: ip in index ==> index[ip] in s.machines && ip in s.machines[index[ip]].ips
    requires forall m, ip :: m in s.machines && HasHook(s.machines[m]) && ip in s.machines[m].ips ==> ip in index
    requires forall ip :: ip in index && ip !in VotingIPs(s) && s.machines[index[ip]].deleting ==> index[ip] in pending
    ensures forall id :: id in DepartingLearners(s) ==>
              exists j :: && 0 <= j < |pending| && pending[j] in s.machines
                          && s.members[id].ip in s.machines[pending[j]].ips
  {
    forall id | id in DepartingLearners(s)
      ensures exists j :: && 0 <= j < |pending| && pending[j] in s.machines
                          && s.members[id].ip in s.machines[pending[j]].ips
    {
      var ip := s.members[id].ip;
      var m :| m in s.machines && OnDeparting(s.machines[m], ip);
      assert ip in index && index[ip] == m;
      assert ip !in VotingIPs(s);
      var j :| 0 <= j < |pending| && pending[j] == m;
    }
  }

  predicate NoDup(ms: seq<nat>) {
    forall i, j :: 0 <= i < j < |ms| ==> ms[i] != ms[j]
  }

  predicate Descending(machines: map<nat, Machine>, count: map<int, nat>, ms: seq<nat>) {
    forall i, j :: 0 <= i < j < |ms| ==> KeyOf(machines, count, ms[i]) >= KeyOf(machines, count, ms[j])
  }

  lemma NoneToSort(machines: map<nat, Machine>, count: map<int, nat>)
    ensures Descending(machines, count, [])
  {
  }

  lemma InsertKeepsOrder(machines: map<nat, Machine>, count: map<int, nat>, ms: seq<nat>, m: nat, at: nat)
    requires Descending(machines, count, ms) && at <= |ms|
    requires at > 0 ==> KeyOf(machines, count, ms[at - 1]) >= KeyOf(machines, count, m)
    requires forall j :: at <= j < |ms| ==> KeyOf(machines, count, ms[j]) < KeyOf(machines, count, m)
    ensures Descending(machines, count, ms[..at] + [m] + ms[at..])
  {
  }

  predicate OneAddressEach(index: map<IP, nat>, voting: set<IP>) {
    forall a, b :: a in index && b in index && a in voting && b in voting && index[a] == index[b] ==> a == b
  }

  function Occurrences(machines: map<nat, Machine>, ms: seq<nat>, d: int): nat {
    if ms == [] then 0
    else
      var m := ms[|ms| - 1];
      Occurrences(machines, ms[..|ms| - 1], d) + if m in machines && machines[m].domain == d then 1 else 0
  }

  /** The voter left through a failure domain no departing machine's domain outnumbers. */
  predicate PreferredDomain(s: ControlPlane, id: nat) {
    id in s.members &&
    exists m :: m in s.machines && OnDeparting(s.machines[m], s.members[id].ip) &&
      forall n :: n in s.machines && VotingMachine(s, n) && s.machines[n].deleting ==>
        DomainCount(s, s.machines[n].domain) <= DomainCount(s, s.machines[m].domain)
  }

  function InDomain(machines: map<nat, Machine>, ms: seq<nat>, d: int): set<nat> {
    set m | m in ms && m in machines && machines[m].domain == d
  }

  lemma {:induction false} OccurrencesCount(machines: map<nat, Machine>, ms: seq<nat>, d: int)
    requires NoDup(ms)
    ensures Occurrences(machines, ms, d) == |InDomain(machines, ms, d)|
  {
    if ms == [] {
      assert InDomain(machines, ms, d) == {};
    } else {
      var init, m := ms[..|ms| - 1], ms[|ms| - 1];
      OccurrencesCount(machines, init, d);
      assert ms == init + [m] && m !in init;
      if m in machines && machines[m].domain == d {
        assert InDomain(machines, ms, d) == InDomain(machines, init, d) + {m};
      } else {
        assert InDomain(machines, ms, d) == InDomain(machines, init, d);
      }
    }
  }

  function KeyOf(machines: map<nat, Machine>, count: map<int, nat>, m: nat): nat {
    if m in machines && machines[m].domain in count then count[machines[m].domain] else 0
  }

  predicate PendingMachine(s: ControlPlane, m: nat) {
    VotingMachine(s, m) && s.machines[m].deleting
  }

  ghost predicate UnhealthyMachine(s: ControlPlane, m: nat) {
    exists id :: On(s, m, id) && id !in s.healthy
  }

  /** The machines found at voting addresses are the hooked voter machines, each once. */
  lemma VotingMachinesAre(s: ControlPlane, index: map<IP, nat>, ms: seq<nat>)
    requires WellFormed(s)
    requires forall ip :: ip in index ==>
               index[ip] in s.machines && HasHook(s.machines[index[ip]]) && ip in s.machines[index[ip]].ips
    requires forall m, ip :: m in s.machines && HasHook(s.machines[m]) && ip in s.machines[m].ips ==> ip in index
    requires forall m :: m in ms <==> exists ip :: ip in index && index[ip] == m && ip in VotingIPs(s)
    ensures forall m :: m in ms <==> VotingMachine(s, m)
    ensures OneAddressEach(index, VotingIPs(s))
  {
  }

  /** Every departing voter sits on a machine pending deletion. */
  lemma DepartingOnPending(s: ControlPlane, pending: seq<nat>)
    requires forall m :: m in pending <==> PendingMachine(s, m)
    ensures forall id :: id in DepartingVoters(s) ==> exists m :: m in pending && On(s, m, id)
    ensures DepartingVoters(s) <= Voters(s)
  {
    forall id | id in DepartingVoters(s) ensures exists m :: m in pending && On(s, m, id) {
      var m :| m in s.machines && OnDeparting(s.machines[m], s.members[id].ip);
      assert s.members[id].ip in VotingIPs(s);
      assert VotingMachine(s, m) && On(s, m, id);
    }
  }

  /** A machine pending deletion hosts a departing voter. */
  lemma PendingHostsDeparting(s: ControlPlane, m: nat) returns (id: nat)
    requires PendingMachine(s, m)
    ensures id in DepartingVoters(s) && id in Voters(s) && On(s, m, id)
  {
    var ip :| ip in s.machines[m].ips && ip in VotingIPs(s);
    id :| id in s.members && !s.members[id].learner && s.members[id].ip == ip;
    assert OnDeparting(s.machines[m], ip);
  }

  lemma PendingExist(s: ControlPlane, pending: seq<nat>)
    requires forall m :: m in pending <==> PendingMachine(s, m)
    ensures forall m :: m in pending ==> m in s.machines
  {
  }

  lemma PendingIffDeparting(s: ControlPlane, pending: seq<nat>)
    requires forall m :: m in pending <==> PendingMachine(s, m)
    ensures pending == [] <==> DepartingVoters(s) == {}
  {
    hide PendingMachine, DepartingVoters;
    DepartingOnPending(s, pending);
    if pending != [] {
      assert pending[0] in pending;
      var id := PendingHostsDeparting(s, pending[0]);
    }
  }

  lemma OneMember(s: ControlPlane, m: nat, a: nat, b: nat)
    requires WellFormed(s) && On(s, m, a) && On(s, m, b)
    ensures a == b
  {
  }

  /** A machine hosts one member, so the machines put first host exactly the unhealthy
      departing voters. */
  lemma FirstHostUnhealthy(s: ControlPlane, pending: seq<nat>, first: seq<nat>)
    requires WellFormed(s)
    requires forall m :: m in pending <==> PendingMachine(s, m)
    requires forall m :: m in first <==> m in pending && UnhealthyMachine(s, m)
    ensures forall m, id :: m in first && On(s, m, id) ==> id !in s.healthy
    ensures forall id :: id in DepartingVoters(s) * Unhealthy(s) ==> exists m :: m in first && On(s, m, id)
    ensures first == [] <==> DepartingVoters(s) * Unhealthy(s) == {}
  {
    hide WellFormed, PendingMachine, DepartingVoters;
    DepartingOnPending(s, pending);
    forall m, id | m in first && On(s, m, id) ensures id !in s.healthy {
      var u :| On(s, m, u) && u !in s.healthy;
      OneMember(s, m, id, u);
    }
    forall id | id in DepartingVoters(s) * Unhealthy(s) ensures exists m :: m in first && On(s, m, id) {
      var m :| m in pending && On(s, m, id);
      assert m in first;
    }
    if first != [] {
      assert first[0] in first;
      var id := PendingHostsDeparting(s, first[0]);
      assert id in DepartingVoters(s) * Unhealthy(s);
    }
  }

  lemma FirstAre(s: ControlPlane, pendingIndex: map<IP, nat>, pending: seq<nat>, first: seq<nat>)
    requires WellFormed(s)
    requires forall m :: m in pending ==> m in s.machines
    requires forall ip :: ip in pendingIndex ==> pendingIndex[ip] in pending && ip in s.machines[pendingIndex[ip]].ips
    requires forall m, ip :: m in pending && ip in s.machines[m].ips ==> ip in pendingIndex
    requires forall m :: m in first <==>
               exists id :: && id in s.members && id !in s.healthy && s.members[id].ip in pendingIndex
                            && pendingIndex[s.members[id].ip] == m
    ensures forall m :: m in first <==> m in pending && UnhealthyMachine(s, m)
  {
  }

  /** Every voter on one of the first `at` machines resisted removal. */
  ghost predicate Tried(s: ControlPlane, all: seq<nat>, at: nat, fails: set<nat>) {
    at <= |all| && forall j, id :: 0 <= j < at && id in Voters(s) && On(s, all[j], id) ==> id in fails
  }

  lemma AllTried(s: ControlPlane, fails: set<nat>, first: seq<nat>, pending: seq<nat>)
    requires forall m :: m in pending <==> PendingMachine(s, m)
    requires Tried(s, first + pending, |first + pending|, fails)
    ensures DepartingVoters(s) <= fails
  {
    hide PendingMachine, DepartingVoters;
    DepartingOnPending(s, pending);
    forall id | id in DepartingVoters(s) ensures id in fails {
      var m :| m in pending && On(s, m, id);
      var j :| 0 <= j < |pending| && pending[j] == m;
      assert (first + pending)[|first| + j] == m && id in Voters(s);
    }
  }

  lemma VictimChosen(s: ControlPlane, fails: set<nat>, first: seq<nat>, pending: seq<nat>, v: nat, at: nat)
    requires WellFormed(s)
    requires forall m :: m in pending <==> PendingMachine(s, m)
    requires forall m :: m in first <==> m in pending && UnhealthyMachine(s, m)
    requires Tried(s, first + pending, at, fails) && at < |first + pending|
    requires v in Voters(s) && v !in fails && On(s, (first + pending)[at], v)
    ensures v in DepartingVoters(s) && (v in s.healthy ==> DepartingVoters(s) * Unhealthy(s) <= fails)
  {
    hide WellFormed;
    var all := first + pending;
    FirstHostUnhealthy(s, pending, first);
    var m := all[at];
    assert m in pending by { assert at < |first| ==> all[at] in first; }
    assert OnDeparting(s.machines[m], s.members[v].ip);
    if v in s.healthy {
      assert at < |first| ==> m in first;
      forall id | id in DepartingVoters(s) * Unhealthy(s) ensures id in fails {
        var n :| n in first && On(s, n, id);
        var j :| 0 <= j < |first| && first[j] == n;
        assert all[j] == n && id in Voters(s);
      }
    }
  }

  lemma NoUnhealthyMachine(s: ControlPlane)
    requires Unhealthy(s) == {}
    ensures forall m :: !UnhealthyMachine(s, m)
  {
    forall m, id | On(s, m, id) ensures id in s.healthy {
      assert id !in Unhealthy(s);
    }
  }

  /** Without failures the very first machine tried loses its voter. */
  lemma FirstVictim(s: ControlPlane, first: seq<nat>, pending: seq<nat>, at: nat)
    requires Unhealthy(s) == {} && pending != []
    requires forall m :: m in pending <==> PendingMachine(s, m)
    requires forall m :: m in first <==> m in pending && UnhealthyMachine(s, m)
    requires Tried(s, first + pending, at, {})
    ensures first == [] && at == 0
  {
    hide PendingMachine, DepartingVoters;
    assert first == [] by {
      var x := if |first| > 0 then first[0] else 0;
      assert |first| > 0 ==> x in first;
      NoUnhealthyMachine(s);
    }
    if at > 0 {
      assert pending[0] in pending && (first + pending)[0] == pending[0];
      var id := PendingHostsDeparting(s, pending[0]);
      assert false;
    }
  }

  /** When nothing failed the first machine in the sorted order loses its voter. */
  lemma PreferredFirst(s: ControlPlane, count: map<int, nat>, voting: seq<nat>, pending: seq<nat>, v: nat)
    requires NoDup(voting) && (forall m :: m in voting <==> VotingMachine(s, m))
    requires forall d :: (if d in count then count[d] else 0) == Occurrences(s.machines, voting, d)
    requires pending != [] && forall m :: m in pending <==> PendingMachine(s, m)
    requires forall j :: 0 < j < |pending| ==>
               KeyOf(s.machines, count, pending[0]) >= KeyOf(s.machines, count, pending[j])
    requires On(s, pending[0], v)
    ensures PreferredDomain(s, v)
  {
    forall d ensures Occurrences(s.machines, voting, d) == DomainCount(s, d) {
      OccurrencesCount(s.machines, voting, d);
      assert InDomain(s.machines, voting, d) ==
             (set m | m in s.machines && VotingMachine(s, m) && s.machines[m].domain == d);
    }
    assert pending[0] in pending && OnDeparting(s.machines[pending[0]], s.members[v].ip);
    forall n | n in s.machines && VotingMachine(s, n) && s.machines[n].deleting
      ensures DomainCount(s, s.machines[n].domain) <= DomainCount(s, s.machines[pending[0]].domain)
    {
      assert n in pending;
      var j :| 0 <= j < |pending| && pending[j] == n;
    }
  }

  class Operator {
    var members: map<nat, Member>
    var healthy: set<nat>
    var machines: map<nat, Machine>
    var nodes: map<nat, Node>
    var endpoints: map<nat, IP>
    var desired: int
    var stable: bool

    function View(): ControlPlane
      reads this
    {
      ControlPlane(members, healthy, machines, nodes, endpoints, desired, stable)
    }

    // ----- scans -----

    method VotingMemberIPListSet() returns (ips: set<IP>)
      ensures ips == VotingIPs(View())
    {
      ips := {};
      var rest := members.Keys;
      while rest != {}
        invariant rest <= members.Keys
        invariant ips == set id | id in members.Keys - rest && !members[id].learner :: members[id].ip
      {
        var id :| id in rest;
        rest := rest - {id};
        if !members[id].learner {
          ips := ips + {members[id].ip};
        }
      }
    }

    method MachinesWithHook() returns (names: set<nat>)
      ensures names == set m | m in machines && HasHook(machines[m])
    {
      names := {};
      var rest := machines.Keys;
      while rest != {}
        invariant rest <= machines.Keys
        invariant names == set m | m in machines.Keys - rest && HasHook(machines[m])
      {
        var m :| m in rest;
        rest := rest - {m};
        if HasHook(machines[m]) {
          names := names + {m};
        }
      }
    }

    method IndexMachinesByNodeInternalIP(names: set<nat>) returns (index: map<IP, nat>)
      requires names <= machines.Keys
      ensures forall ip :: ip in index ==> index[ip] in names && ip in machines[index[ip]].ips
      ensures forall m, ip :: m in names && ip in machines[m].ips ==> ip in index
    {
      index := map[];
      var rest := names;
      while rest != {}
        invariant rest <= names
        invariant forall ip :: ip in index ==> index[ip] in names && ip in machines[index[ip]].ips
        invariant forall m, ip :: m in names - rest && ip in machines[m].ips ==> ip in index
      {
        var m :| m in rest;
        rest := rest - {m};
        var ips := machines[m].ips;
        for k := 0 to |ips|
          invariant forall ip :: ip in index ==> index[ip] in names && ip in machines[index[ip]].ips
          invariant forall n, ip :: n in names - rest - {m} && ip in machines[n].ips ==> ip in index
          invariant forall ip :: ip in ips[..k] ==> ip in index
        {
          index := index[ips[k] := m];
          assert ips[..k + 1] == ips[..k] + [ips[k]];
        }
        assert ips[..|ips|] == ips;
      }
    }

    method GetNodeForMember(ip: IP) returns (r: Option<nat>)
      ensures r.Some? ==> r.value in nodes && nodes[r.value].ip == ip
      ensures r.None? ==> forall n :: n in nodes ==> nodes[n].ip != ip
    {
      var rest := nodes.Keys;
      while rest != {}
        invariant rest <= nodes.Keys
        invariant forall n :: n in nodes.Keys - rest ==> nodes[n].ip != ip
      {
        var n :| n in rest;
        rest := rest - {n};
        if nodes[n].ip == ip {
          return Some(n);
        }
      }
      return None;
    }

    method FindMachineByNodeInternalIP(ip: IP) returns (r: Option<nat>)
      ensures r.Some? ==> r.value in machines && ip in machines[r.value].ips
      ensures r.None? ==> forall m :: m in machines ==> ip !in machines[m].ips
    {
      var rest := machines.Keys;
      while rest != {}
        invariant rest <= machines.Keys
        invariant forall m :: m in machines.Keys - rest ==> ip !in machines[m].ips
      {
        var m :| m in rest;
        rest := rest - {m};
        if ip in machines[m].ips {
          return Some(m);
        }
      }
      return None;
    }

    /** The machine refers to the node; without one no machine does. */
    predicate References(r: Option<nat>, node: Option<nat>)
      reads this
    {
      if r.Some? then r.value in machines && machines[r.value].nodeRef == node
      else forall m :: m in machines ==> machines[m].nodeRef != node
    }

    /** By the node's reference while the node exists, by address once it is gone. */
    method GetMachineForMember(ip: IP) returns (r: Option<nat>)
      ensures r.Some? ==> r.value in machines
      ensures if exists n :: n in nodes && nodes[n].ip == ip then
                exists n :: n in nodes && nodes[n].ip == ip && References(r, Some(n))
              else if r.Some? then ip in machines[r.value].ips
              else forall m :: m in machines ==> ip !in machines[m].ips
    {
      var node := GetNodeForMember(ip);
      if node.None? {
        r := FindMachineByNodeInternalIP(ip);
        return;
      }
      var rest := machines.Keys;
      while rest != {}
        invariant rest <= machines.Keys && forall m :: m in machines.Keys - rest ==> machines[m].nodeRef != node
      {
        var m :| m in rest;
        rest := rest - {m};
        if machines[m].nodeRef == node {
          return Some(m);
        }
      }
      return None;
    }

    // ----- the removal controller -----

    /** Removes the member of the list that has one of the machine's addresses. */
    method AttemptToRemoveMemberFor(list: map<nat, Member>, machine: Machine, fails: set<nat>)
          returns (removed: Option<nat>)
      modifies this`members
      ensures removed.Some? ==>
                && removed.value in list && list[removed.value].ip in machine.ips
                && removed.value in old(members) && removed.value !in fails
      ensures removed.None? ==>
                || (forall id :: id in list ==> list[id].ip !in machine.ips)
                || (exists id :: id in list && list[id].ip in machine.ips && (id !in members || id in fails))
      ensures removed.None? && AtMostOne(list, machine) ==>
                forall id :: id in list && list[id].ip in machine.ips ==> id !in members || id in fails
      ensures members == if removed.Some? then old(members) - {removed.value} else old(members)
    {
      var rest := list.Keys;
      while rest != {}
        invariant rest <= list.Keys
        invariant members == old(members)
        invariant forall id :: id in list.Keys - rest ==> list[id].ip !in machine.ips
      {
        var id :| id in rest;
        rest := rest - {id};
        if list[id].ip in machine.ips {
          if id in fails || id !in members {
            return None;
          }
          members := members - {id};
          return Some(id);
        }
      }
      return None;
    }

    method RemoveMemberWithoutMachine(fails: set<nat>) returns (ghost gone: set<nat>)
      requires WellFormed(View())
      modifies this`members
      ensures OrphanStage(old(View()), fails, gone) && View() == Without(old(View()), gone)
    {
      hide WellFormed, Orphan;
      ghost var s := View();
      ghost var seen: set<IP> := {};
      gone := {};
      var rest := endpoints.Keys;
      while rest != {}
        invariant rest <= endpoints.Keys
        invariant View() == s.(members := s.members - gone)
        invariant forall id :: id in gone ==> Orphan(s, id) && id !in s.healthy && id !in fails
        invariant forall k :: k in endpoints.Keys - rest ==> endpoints[k] in seen
        invariant forall id :: id in s.members && Orphan(s, id) && s.members[id].ip in seen ==> id in gone
      {
        var key :| key in rest;
        rest := rest - {key};
        var ip := endpoints[key];
        seen := seen + {ip};
        var machine := GetMachineForMember(ip);
        var node := GetNodeForMember(ip);
        if machine.Some? || node.Some? {
          NotOrphan(s, ip);
          continue;
        }
        var id := FindMember(ip);
        if id.Some? {
          IsOrphan(s, id.value);
          forall other | other in s.members && s.members[other].ip == ip ensures other == id.value {
            SameAddress(s, other, id.value);
          }
          if id.value in healthy || id.value in fails {
            return;
          }
          members := members - {id.value};
          gone := gone + {id.value};
        } else {
          forall other | other in s.members && s.members[other].ip == ip ensures other in gone {
            assert other !in members;
          }
        }
      }
      forall id | id in s.members && Orphan(s, id) ensures id in gone {
        OrphanListed(s, id);
        var k :| k in s.endpoints && s.endpoints[k] == s.members[id].ip;
      }
    }

    method FindMember(ip: IP) returns (r: Option<nat>)
      ensures r.Some? ==> r.value in members && members[r.value].ip == ip
      ensures r.None? ==> forall id :: id in members ==> members[id].ip != ip
    {
      var rest := members.Keys;
      while rest != {}
        invariant rest <= members.Keys
        invariant forall id :: id in members.Keys - rest ==> members[id].ip != ip
      {
        var id :| id in rest;
        rest := rest - {id};
        if members[id].ip == ip {
          return Some(id);
        }
      }
      return None;
    }

    method AttemptToRemoveLearningMember(fails: set<nat>) returns (ghost gone: set<nat>)
      requires WellFormed(View())
      modifies this`members
      ensures LearnerStage(old(View()), fails, gone) && View() == Without(old(View()), gone)
    {
      hide WellFormed, AtMostOne;
      ghost var s := View();
      var pending := LearningPending();
      var learners := map id | id in members && members[id].learner :: members[id];
      WellFormedLists(s, learners);
      gone := RemoveEach(learners, pending, fails);
      forall id | id in gone ensures id in DepartingLearners(s) {
        var j :| 0 <= j < |pending| && learners[id].ip in machines[pending[j]].ips;
        assert pending[j] in pending;
        assert OnDeparting(s.machines[pending[j]], s.members[id].ip);
      }
      assert gone == DepartingLearners(s) - fails;
    }

    /** The hooked machines pending deletion found at addresses that do not vote. */
    method LearningPending() returns (pending: seq<nat>)
      requires WellFormed(View())
      ensures forall m :: m in pending ==> m in machines && HasHook(machines[m]) && machines[m].deleting
      ensures forall id :: id in DepartingLearners(View()) ==>
                exists j :: 0 <= j < |pending| && pending[j] in machines && members[id].ip in machines[pending[j]].ips
    {
      hide WellFormed;
      var voting := VotingMemberIPListSet();
      var hooked := MachinesWithHook();
      var index := IndexMachinesByNodeInternalIP(hooked);
      var learning := MachinesByAddress(index, voting, false);
      pending := FilterMachinesPendingDeletion(learning);
      LearnersCovered(View(), index, pending);
    }

    /** One removal attempt per machine over a fixed list of members. */
    method RemoveEach(list: map<nat, Member>, pending: seq<nat>, fails: set<nat>) returns (ghost gone: set<nat>)
      requires list.Keys <= members.Keys
      requires forall m :: m in pending ==> m in machines && AtMostOne(list, machines[m])
      modifies this`members
      ensures gone ==
              set id | && id in list && id !in fails
                       && exists j :: 0 <= j < |pending| && list[id].ip in machines[pending[j]].ips
      ensures members == old(members) - gone
    {
      gone := {};
      for k := 0 to |pending|
        invariant gone ==
                  set id | && id in list && id !in fails
                       && exists j :: 0 <= j < k && list[id].ip in machines[pending[j]].ips
        invariant members == old(members) - gone
      {
        assert pending[k] in pending;
        var removed := AttemptToRemoveMemberFor(list, machines[pending[k]], fails);
        if removed.Some? {
          gone := gone + {removed.value};
        }
      }
    }

    /** The machines the index gives for voting addresses, or for the others. */
    method MachinesByAddress(index: map<IP, nat>, voting: set<IP>, want: bool) returns (ms: seq<nat>)
      ensures want ==> forall m :: m in ms <==> exists ip :: ip in index && index[ip] == m && ip in voting
      ensures !want ==> forall m :: m in ms <==> exists ip :: ip in index && index[ip] == m && ip !in voting
      ensures want && OneAddressEach(index, voting) ==> NoDup(ms)
    {
      ms := [];
      var rest := index.Keys;
      while rest != {}
        invariant rest <= index.Keys
        invariant forall m :: m in ms <==>
                    exists ip :: ip in index.Keys - rest && index[ip] == m && (ip in voting <==> want)
        invariant want && OneAddressEach(index, voting) ==> NoDup(ms)
      {
        var ip :| ip in rest;
        assert ip in voting && want && OneAddressEach(index, voting) ==> index[ip] !in ms;
        rest := rest - {ip};
        if (ip in voting) == want {
          ms := ms + [index[ip]];
        }
      }
    }

    method FilterMachinesPendingDeletion(ms: seq<nat>) returns (pending: seq<nat>)
      requires forall m :: m in ms ==> m in machines
      ensures forall m :: m in pending <==> m in ms && machines[m].deleting
    {
      pending := [];
      for k := 0 to |ms|
        invariant forall m :: m in pending <==> m in ms[..k] && machines[m].deleting
      {
        assert ms[..k + 1] == ms[..k] + [ms[k]];
        if machines[ms[k]].deleting {
          pending := pending + [ms[k]];
        }
      }
      assert ms[..|ms|] == ms;
    }

    method MachineFailureDomainCountByIndex(ms: seq<nat>) returns (count: map<int, nat>)
      requires forall m :: m in ms ==> m in machines
      ensures forall d :: (if d in count then count[d] else 0) == Occurrences(machines, ms, d)
    {
      count := map[];
      for k := 0 to |ms|
        invariant forall d :: (if d in count then count[d] else 0) == Occurrences(machines, ms[..k], d)
      {
        assert ms[..k + 1][..k] == ms[..k];
        var d := machines[ms[k]].domain;
        count := count[d := (if d in count then count[d] else 0) + 1];
      }
      assert ms[..|ms|] == ms;
    }

    /** Largest failure domain first. */
    method SortByFailureDomain(ms: seq<nat>, count: map<int, nat>) returns (sorted: seq<nat>)
      ensures multiset(sorted) == multiset(ms) && Descending(machines, count, sorted)
      ensures forall m :: m in sorted <==> m in ms
    {
      hide Descending;
      sorted := [];
      assert Descending(machines, count, sorted) by { NoneToSort(machines, count); }
      for k := 0 to |ms|
        invariant multiset(sorted) == multiset(ms[..k]) && Descending(machines, count, sorted)
      {
        assert ms[..k + 1] == ms[..k] + [ms[k]];
        sorted := Insert(sorted, ms[k], count);
      }
      assert ms[..|ms|] == ms;
      assert forall m :: m in sorted <==> m in multiset(sorted);
    }

    method Insert(ms: seq<nat>, m: nat, count: map<int, nat>) returns (r: seq<nat>)
      requires Descending(machines, count, ms)
      ensures multiset(r) == multiset(ms) + multiset{m} && Descending(machines, count, r)
    {
      hide Descending, KeyOf;
      var at := Position(ms, m, count);
      assert ms == ms[..at] + ms[at..];
      r := ms[..at] + [m] + ms[at..];
      InsertKeepsOrder(machines, count, ms, m, at);
    }

    /** Before all machines of smaller failure domains at the end. */
    method Position(ms: seq<nat>, m: nat, count: map<int, nat>) returns (at: nat)
      ensures at <= |ms| && (at > 0 ==> KeyOf(machines, count, ms[at - 1]) >= KeyOf(machines, count, m))
      ensures forall j :: at <= j < |ms| ==> KeyOf(machines, count, ms[j]) < KeyOf(machines, count, m)
    {
      at := |ms|;
      while at > 0 && KeyOf(machines, count, ms[at - 1]) < KeyOf(machines, count, m)
        invariant 0 <= at <= |ms|
        invariant forall j :: at <= j < |ms| ==> KeyOf(machines, count, ms[j]) < KeyOf(machines, count, m)
      {
        at := at - 1;
      }
    }

    /** Tries the machines in order until a removal succeeds. */
    method RemoveFirst(list: map<nat, Member>, candidates: seq<nat>, fails: set<nat>)
          returns (victim: Option<nat>, ghost at: nat)
      requires list.Keys <= members.Keys
      requires forall m :: m in candidates ==> m in machines && AtMostOne(list, machines[m])
      modifies this`members
      ensures at <= |candidates|
      ensures forall j, id :: 0 <= j < at && id in list && list[id].ip in machines[candidates[j]].ips ==> id in fails
      ensures victim.None? ==> at == |candidates| && members == old(members)
      ensures victim.Some? ==>
                && at < |candidates| && victim.value in list && victim.value !in fails
                && list[victim.value].ip in machines[candidates[at]].ips && members == old(members) - {victim.value}
    {
      for k := 0 to |candidates|
        invariant members == old(members)
        invariant forall j, id :: 0 <= j < k && id in list && list[id].ip in machines[candidates[j]].ips ==> id in fails
      {
        assert candidates[k] in candidates;
        victim := AttemptToRemoveMemberFor(list, machines[candidates[k]], fails);
        if victim.Some? {
          return victim, k;
        }
      }
      return None, |candidates|;
    }

    /** The departing machines that host an unhealthy member. */
    method UnhealthyPending(pendingIndex: map<IP, nat>) returns (ms: seq<nat>)
      ensures forall m :: m in ms <==>
                exists id :: && id in members && id !in healthy && members[id].ip in pendingIndex
                             && pendingIndex[members[id].ip] == m
    {
      ms := [];
      var rest := members.Keys - healthy;
      while rest != {}
        invariant rest <= members.Keys - healthy
        invariant forall m :: m in ms <==>
                    exists id :: && id in members.Keys - healthy - rest && members[id].ip in pendingIndex
                                 && pendingIndex[members[id].ip] == m
      {
        var id :| id in rest;
        rest := rest - {id};
        if members[id].ip in pendingIndex {
          ms := ms + [pendingIndex[members[id].ip]];
        }
      }
    }

    method AttemptToScaleDown(fails: set<nat>) returns (victim: Option<nat>)
      requires WellFormed(View())
      modifies this`members
      ensures ScaleDownStage(old(View()), fails, victim)
      ensures View() == Without(old(View()), if victim.Some? then {victim.value} else {})
      ensures fails == {} && Unhealthy(old(View())) == {} && victim.Some? ==>
                PreferredDomain(old(View()), victim.value)
    {
      hide WellFormed, AtMostOne, ScaleDownGuard, Descending, NoDup, DepartingVoters, Unhealthy;
      hide PendingMachine, UnhealthyMachine, VotingMachine, PreferredDomain, Occurrences, KeyOf;
      ghost var s := View();
      victim := None;
      var go, first, pending, count, voting := ScaleDownCandidates();
      if !go {
        return;
      }
      var live := map id | id in members && !members[id].learner :: members[id];
      WellFormedLists(s, live);
      ghost var at;
      victim, at := RemoveFirst(live, first + pending, fails);
      assert Tried(s, first + pending, at, fails);
      if victim.Some? {
        VictimChosen(s, fails, first, pending, victim.value, at);
        if fails == {} && Unhealthy(s) == {} {
          FirstVictim(s, first, pending, at);
          PreferredFirst(s, count, voting, pending, victim.value);
        }
      } else {
        AllTried(s, fails, first, pending);
      }
    }

    /** The checks before a voter is removed, and the machines to try: first those that
        host an unhealthy member, then all, by failure domain. */
    method ScaleDownCandidates()
          returns (go: bool, first: seq<nat>, pending: seq<nat>, ghost count: map<int, nat>, ghost voting: seq<nat>)
      requires WellFormed(View())
      ensures go <==> ScaleDownGuard(View())
      ensures forall m :: m in pending ==> m in machines
      ensures go ==>
                && pending != [] && (forall m :: m in pending <==> PendingMachine(View(), m))
                && (forall m :: m in first <==> m in pending && UnhealthyMachine(View(), m))
                && NoDup(voting) && (forall m :: m in voting <==> VotingMachine(View(), m))
                && (forall d :: (if d in count then count[d] else 0) == Occurrences(machines, voting, d))
                && (forall j :: 0 < j < |pending| ==>
                     KeyOf(machines, count, pending[0]) >= KeyOf(machines, count, pending[j]))
    {
      hide WellFormed, NoDup, DepartingVoters;
      hide PendingMachine, UnhealthyMachine, VotingMachine, Occurrences, KeyOf;
      go, first, pending, count, voting := false, [], [], map[], [];
      var votingIPs := VotingMemberIPListSet();
      var live := set id | id in members && !members[id].learner;
      var healthyVoting := set id | id in live && id in healthy;
      var unhealthy := members.Keys - healthy;
      assert live == Voters(View()) && healthyVoting == HealthyVoters(View()) && unhealthy == Unhealthy(View());
      if desired == 0 || |live| < desired {
        return;
      }
      pending, count, voting := SortedPending(votingIPs);
      PendingIffDeparting(View(), pending);
      if |pending| == 0 || unhealthy == members.Keys {
        return;
      }
      var minTolerableQuorum := MinimumTolerableQuorum(desired);
      if minTolerableQuorum.Err? || |healthyVoting| < minTolerableQuorum.value {
        return;
      }
      first := UnhealthyFirst(pending);
      if unhealthy != {} && |first| == 0 {
        return;
      }
      go := !(live == healthyVoting && |healthyVoting| <= desired);
    }

    method UnhealthyFirst(pending: seq<nat>) returns (first: seq<nat>)
      requires WellFormed(View())
      requires forall m :: m in pending <==> PendingMachine(View(), m)
      ensures forall m :: m in first <==> m in pending && UnhealthyMachine(View(), m)
      ensures first == [] <==> DepartingVoters(View()) * Unhealthy(View()) == {}
    {
      hide WellFormed, DepartingVoters, UnhealthyMachine, VotingMachine;
      assert forall m :: m in pending ==> PendingMachine(View(), m);
      PendingExist(View(), pending);
      hide PendingMachine;
      assert (set m | m in pending) <= machines.Keys;
      var pendingIndex := IndexMachinesByNodeInternalIP(set m | m in pending);
      first := UnhealthyPending(pendingIndex);
      FirstAre(View(), pendingIndex, pending, first);
      FirstHostUnhealthy(View(), pending, first);
    }

    /** The machines pending deletion that host a voter, largest failure domain first. */
    method SortedPending(votingIPs: set<IP>) returns (pending: seq<nat>, count: map<int, nat>, ghost voting: seq<nat>)
      requires WellFormed(View()) && votingIPs == VotingIPs(View())
      ensures forall m :: m in pending <==> PendingMachine(View(), m)
      ensures forall m :: m in pending ==> m in machines
      ensures NoDup(voting) && (forall m :: m in voting <==> VotingMachine(View(), m))
      ensures forall d :: (if d in count then count[d] else 0) == Occurrences(machines, voting, d)
      ensures forall j :: 0 < j < |pending| ==> KeyOf(machines, count, pending[0]) >= KeyOf(machines, count, pending[j])
    {
      hide WellFormed, VotingMachine;
      var hooked := MachinesWithHook();
      var index := IndexMachinesByNodeInternalIP(hooked);
      var votingMachines := MachinesByAddress(index, votingIPs, true);
      VotingMachinesAre(View(), index, votingMachines);
      assert forall m :: m in votingMachines ==> m in machines;
      count := MachineFailureDomainCountByIndex(votingMachines);
      pending := FilterMachinesPendingDeletion(votingMachines);
      pending := SortByFailureDomain(pending, count);
      voting := votingMachines;
    }

    /** The three removal stages behind their gates. */
    method RemovalSync(fails: set<nat>) returns (ghost r: Removal)
      requires WellFormed(View())
      modifies this`members
      ensures ScalingModel.RemovalSync(old(View()), fails, r, View())
    {
      hide WellFormed, OrphanStage, LearnerStage, ScaleDownStage;
      ghost var s := View();
      r := Removal({}, {}, None);
      if !stable {
        return;
      }
      var live := VotingMemberIPListSet();
      var configured := ConfigMapMemberIPs();
      if live != configured {
        return;
      }
      ghost var orphans := RemoveMemberWithoutMachine(fails);
      WithoutWellFormed(s, orphans);
      ghost var s1 := View();
      ghost var learners := AttemptToRemoveLearningMember(fails);
      WithoutWellFormed(s1, learners);
      var victim := AttemptToScaleDown(fails);
      r := Removal(orphans, learners, victim);
    }

    method ConfigMapMemberIPs() returns (ips: set<IP>)
      ensures ips == endpoints.Values
    {
      ips := {};
      var rest := endpoints.Keys;
      while rest != {}
        invariant rest <= endpoints.Keys
        invariant forall k :: k in endpoints.Keys - rest ==> endpoints[k] in ips
        invariant ips <= endpoints.Values
      {
        var k :| k in rest;
        rest := rest - {k};
        ips := ips + {endpoints[k]};
      }
      forall ip | ip in endpoints.Values ensures ip in ips {
        var k :| k in endpoints && endpoints[k] == ip;
      }
    }

    // ----- the member controller -----

    method GetEtcdPeerToAdd() returns (r: Option<nat>)
      requires WellFormed(View())
      ensures if r.Some? then Joinable(View(), r.value) else forall n :: n in nodes ==> !Joinable(View(), n)
    {
      hide WellFormed;
      var memberIPs := set id | id in members :: members[id].ip;
      assert memberIPs == MemberIPs(View());
      var rest := nodes.Keys;
      while rest != {}
        invariant rest <= nodes.Keys
        invariant forall n :: n in nodes.Keys - rest ==> !Joinable(View(), n)
      {
        var n :| n in rest;
        rest := rest - {n};
        var node := nodes[n];
        if node.deleting || node.ip in memberIPs {
          continue;
        }
        var machine := FindMachineByNodeInternalIP(node.ip);
        if machine.None? || machines[machine.value].deleting || !HasHook(machines[machine.value]) {
          NotJoinable(View(), n, machine);
          continue;
        }
        if node.etcdWaiting {
          assert Hosts(machines[machine.value], node.ip);
          return Some(n);
        }
      }
      return None;
    }

    method EnsureEtcdLearnerPromotion(ready: set<nat>)
      requires MachinesUnique(View())
      modifies this`members
      ensures var s := old(View());
              View() == Promote(s, if SomeNodeDoesNotVote(s) then Ready(s, ready) else {})
    {
      hide MachinesUnique, Promotable, Promote;
      ghost var s := View();
      PromoteNone(s);
      var voting := VotingMemberIPListSet();
      var some := exists n :: n in nodes && nodes[n].ip !in voting;
      if !some {
        return;
      }
      var hooked := MachinesWithHook();
      var index := IndexMachinesByNodeInternalIP(hooked);
      ghost var promoted: set<nat> := {};
      var rest := members.Keys;
      while rest != {}
        invariant rest <= s.members.Keys && members.Keys == s.members.Keys
        invariant promoted == set id | id in s.members.Keys - rest && Promotable(s, id) && id in ready
        invariant View() == Promote(s, promoted)
      {
        var id :| id in rest;
        rest := rest - {id};
        PromoteOne(s, promoted, id);
        var promote := members[id].learner && members[id].ip in index && !machines[index[members[id].ip]].deleting;
        PromotableByIndex(s, index, id);
        if promote && id in ready {
          members := members[id := members[id].(learner := false)];
          promoted := promoted + {id};
        }
      }
      assert promoted == set id | id in s.members && Promotable(s, id) && id in ready;
    }

    method MemberSync(ready: set<nat>, newId: nat, addFails: bool) returns (joining: Option<nat>)
      requires WellFormed(View()) && newId !in members
      modifies this`members
      ensures ScalingModel.MemberSync(old(View()), ready, newId, addFails, joining, View())
    {
      ghost var s := View();
      var unhealthy := members.Keys - healthy;
      assert unhealthy == Unhealthy(s);
      if unhealthy != {} {
        return None;
      }
      joining := GetEtcdPeerToAdd();
      if joining.Some? && !addFails {
        members := members[newId := Member(nodes[joining.value].ip, true)];
      }
      EnsureEtcdLearnerPromotion(ready);
    }
  }
}
