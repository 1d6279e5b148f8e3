/** The deletion hook controller, which rewrites the PreDrain hooks of machines, and the
    endpoints controller, which rewrites the configmap the removal controller waits for. */
module ScalingHooks {
  import opened Basics
  import opened ScalingModel

  class HookController {
    var members: map<nat, Member>
    var machines: map<nat, Machine>

    method WithoutHook(hooks: seq<Hook>) returns (rest: seq<Hook>)
      ensures rest == Foreign(hooks)
    {
      rest := [];
      for k := 0 to |hooks|
        invariant rest == Foreign(hooks[..k])
      {
        assert hooks[..k + 1][..k] == hooks[..k];
        if hooks[k].name != HOOK_NAME {
          rest := rest + [hooks[k]];
        }
      }
      assert hooks[..|hooks|] == hooks;
    }

    method HasMachineDeletionHook(m: Machine) returns (complete: bool, partial: bool)
      ensures complete == HasHook(m) && partial == HasPartialHook(m)
    {
      complete, partial := false, false;
      for k := 0 to |m.preDrain|
        invariant complete == (ETCD_HOOK in m.preDrain[..k])
        invariant partial == exists h :: h in m.preDrain[..k] && h.name == HOOK_NAME && h.owner != HOOK_OWNER
      {
        assert m.preDrain[..k + 1] == m.preDrain[..k] + [m.preDrain[k]];
        if m.preDrain[k].name == HOOK_NAME {
          if m.preDrain[k].owner == HOOK_OWNER {
            complete := true;
          } else {
            partial := true;
          }
        }
      }
      assert m.preDrain[..|m.preDrain|] == m.preDrain;
    }

    /** Every machine not being deleted gets the hook; failed updates do not stop the loop. */
    method AddDeletionHookToMasterMachines(fails: set<nat>)
      modifies this`machines
      ensures machines.Keys == old(machines).Keys
      ensures forall m :: m in machines ==>
                machines[m] == if m in fails then old(machines)[m] else Hooked(old(machines)[m])
      ensures forall m :: m in machines && m !in fails && !machines[m].deleting ==>
                Hook("EtcdQuorumOperator", "clusteroperator/etcd") in machines[m].preDrain
    {
      var rest := machines.Keys;
      while rest != {}
        invariant machines.Keys == old(machines).Keys && rest <= machines.Keys
        invariant forall m :: m in rest ==> machines[m] == old(machines)[m]
        invariant forall m :: m in machines && m !in rest ==>
                    machines[m] == if m in fails then old(machines)[m] else Hooked(old(machines)[m])
      {
        var m :| m in rest;
        rest := rest - {m};
        var machine := machines[m];
        var complete, partial := HasMachineDeletionHook(machine);
        if machine.deleting || complete {
          continue;
        }
        var hooks := machine.preDrain;
        if partial {
          hooks := WithoutHook(hooks);
        }
        hooks := hooks + [ETCD_HOOK];
        if m !in fails {
          machines := machines[m := machine.(preDrain := hooks)];
        }
      }
    }

    method CurrentMemberIPs() returns (ips: set<IP>)
      ensures ips == set id | id in members :: members[id].ip
    {
      ips := {};
      var rest := members.Keys;
      while rest != {}
        invariant rest <= members.Keys
        invariant ips == set id | id in members.Keys - rest :: members[id].ip
      {
        var id :| id in rest;
        rest := rest - {id};
        ips := ips + {members[id].ip};
      }
    }

    method HostsMember(machine: Machine, memberIPs: set<IP>) returns (skip: bool)
      ensures skip <==> exists ip :: ip in machine.ips && ip in memberIPs
    {
      for k := 0 to |machine.ips|
        invariant forall ip :: ip in machine.ips[..k] ==> ip !in memberIPs
      {
        assert machine.ips[..k + 1] == machine.ips[..k] + [machine.ips[k]];
        if machine.ips[k] in memberIPs {
          return true;
        }
      }
      assert machine.ips[..|machine.ips|] == machine.ips;
      return false;
    }

    /** A machine pending deletion that hosts no member loses the hook.  The first update
        that fails ends the loop; `failed` is that machine. */
    method AttemptToDeleteMachineDeletionHook(fails: set<nat>) returns (failed: Option<nat>)
      modifies this`machines
      ensures var ips := set id | id in members :: members[id].ip;
              && machines.Keys == old(machines).Keys
              && (failed.Some? ==>
                   failed.value in fails && failed.value in machines && Releasable(old(machines)[failed.value], ips))
              && (forall m :: m in machines ==>
                    machines[m] == old(machines)[m] || (m !in fails && machines[m] == Released(old(machines)[m], ips)))
              && (failed.None? ==> forall m :: m in machines ==> machines[m] == Released(old(machines)[m], ips))
    {
      failed := None;
      var memberIPs := CurrentMemberIPs();
      var rest := machines.Keys;
      while rest != {}
        invariant machines.Keys == old(machines).Keys && rest <= machines.Keys
        invariant forall m :: m in rest ==> machines[m] == old(machines)[m]
        invariant forall m :: m in machines && m !in rest ==> machines[m] == Released(old(machines)[m], memberIPs)
        invariant forall m :: m in machines && machines[m] != old(machines)[m] ==> m !in fails
      {
        var m :| m in rest;
        rest := rest - {m};
        var machine := machines[m];
        var complete, _ := HasMachineDeletionHook(machine);
        if !complete || !machine.deleting {
          continue;
        }
        var skip := HostsMember(machine, memberIPs);
        if skip {
          continue;
        }
        if m in fails {
          return Some(m);
        }
        var hooks := WithoutHook(machine.preDrain);
        machines := machines[m := machine.(preDrain := hooks)];
      }
    }

    method Sync(fails: set<nat>)
      modifies this`machines
      ensures HooksUpdated(old(machines), set id | id in members :: members[id].ip, fails, machines)
    {
      hide Releasable, HasHook, HasPartialHook;
      AddDeletionHookToMasterMachines(fails);
      ghost var hooked := machines;
      var failed := AttemptToDeleteMachineDeletionHook(fails);
      HooksThenRelease(old(machines), hooked, set id | id in members :: members[id].ip, fails, failed, machines);
    }
  }

  lemma HooksThenRelease(before: map<nat, Machine>, hooked: map<nat, Machine>, ips: set<IP>, fails: set<nat>,
                         failed: Option<nat>, after: map<nat, Machine>)
    requires hooked.Keys == before.Keys == after.Keys
    requires forall m :: m in before ==> hooked[m] == if m in fails then before[m] else Hooked(before[m])
    requires failed.Some? ==> failed.value in fails && failed.value in before && Releasable(hooked[failed.value], ips)
    requires forall m :: m in before ==> after[m] == hooked[m] || (m !in fails && after[m] == Released(hooked[m], ips))
    requires failed.None? ==> forall m :: m in before ==> after[m] == Released(hooked[m], ips)
    ensures HooksUpdated(before, ips, fails, after)
  {
  }

  class EndpointsController {
    var members: map<nat, Member>
    var endpoints: map<nat, IP>

    /** The configmap lists exactly the voters, or stays as it is when there are none or the
        update fails. */
    method SyncConfigMap(applyFails: bool) returns (r: Result<map<nat, IP>>)
      modifies this`endpoints
      ensures r.Err? <==> applyFails || forall id :: id in members ==> members[id].learner
      ensures r.Err? ==> endpoints == old(endpoints)
      ensures r.Ok? ==> r.value == endpoints == map id | id in members && !members[id].learner :: members[id].ip
      ensures r.Ok? ==>
                forall s: ControlPlane :: s.members == members && s.endpoints == old(endpoints) ==>
                  EndpointsSync(s) == s.(endpoints := endpoints)
    {
      var endpointAddresses: map<nat, IP> := map[];
      var rest := members.Keys;
      while rest != {}
        invariant rest <= members.Keys
        invariant endpointAddresses == map id | id in members.Keys - rest && !members[id].learner :: members[id].ip
      {
        var id :| id in rest;
        rest := rest - {id};
        if !members[id].learner {
          endpointAddresses := endpointAddresses[id := members[id].ip];
        }
      }
      assert endpointAddresses == map id | id in members && !members[id].learner :: members[id].ip;
      if endpointAddresses == map[] {
        forall id | id in members ensures members[id].learner {
          assert id !in endpointAddresses;
        }
        return Err;
      }
      if applyFails {
        return Err;
      }
      ghost var id :| id in endpointAddresses;
      endpoints := endpointAddresses;
      assert id in members && !members[id].learner;
      r := Ok(endpoints);
      forall s: ControlPlane | s.members == members && s.endpoints == old(endpoints)
        ensures EndpointsSync(s) == s.(endpoints := endpoints)
      {
        assert Voters(s) == endpointAddresses.Keys;
      }
    }
  }
}
