/** The defragmentation controller as ordered code over its own fields. */
module DefragController {
  import opened Basics
  import opened DefragModel
  import opened DefragSafety

  lemma {:induction false} GatherStops(members: seq<Member>, k: nat, isNewCycle: bool, targets: seq<nat>)
    requires k <= |members| && !Gather(members[..k], isNewCycle, targets).ok
    ensures Gather(members, isNewCycle, targets) == Gather(members[..k], isNewCycle, targets)
    decreases |members| - k
  {
    if k < |members| {
      assert members[..k + 1][..k] == members[..k];
      GatherStops(members, k + 1, isNewCycle, targets);
    } else {
      assert members[..k] == members;
    }
  }

  lemma BeforeTotal(statuses: map<nat, Status>, a: nat, b: nat)
    requires a in statuses && b in statuses
    ensures Before(statuses, a, b) || Before(statuses, b, a)
  {
  }

  lemma LessTransitive(a: Fragmentation, b: Fragmentation, c: Fragmentation)
    requires !Less(a, b) && !Less(b, c)
    ensures !Less(a, c)
  {
  }

  lemma InsertOrdered(statuses: map<nat, Status>, sorted: seq<nat>, at: nat, id: nat)
    requires Ordered(statuses, sorted) && at <= |sorted|
    requires at > 0 ==> Before(statuses, sorted[at - 1], id)
    requires forall j :: at <= j < |sorted| ==> Before(statuses, id, sorted[j])
    ensures Ordered(statuses, sorted[..at] + [id] + sorted[at..])
  {
  }

  /** Followers, least fragmented first. */
  predicate LeastFirst(statuses: map<nat, Status>, order: seq<nat>) {
    && (forall k :: 0 <= k < |order| ==> order[k] in statuses)
    && forall i, j :: 0 <= i < j < |order| ==>
         !Less(FragmentationOf(statuses[order[j]]), FragmentationOf(statuses[order[i]]))
  }

  class DefragController {
    var defragTargets: seq<nat>
    var numDefragFailures: nat
    var degraded: bool

    function View(): Defrag
      reads this
    {
      Defrag(defragTargets, numDefragFailures, degraded)
    }

    method Sync(i: Input) returns (a: Action)
      modifies this
      ensures DefragModel.Sync(old(View()), i, View(), a)
    {
      if i.enabled.Err? {
        return Error;
      }
      if !i.enabled.value {
        return Nothing;
      }
      a := RunDefrag(i);
    }

    method RunDefrag(i: Input) returns (a: Action)
      modifies this
      ensures DefragModel.RunDefrag(old(View()), i, View(), a)
    {
      if i.healthy.Err? || !i.healthy.value || i.members.Err? {
        return Error;
      }
      var isNewCycle := |defragTargets| == 0;
      var statusMembers, ok := Statuses(i.members.value, isNewCycle);
      if !ok {
        return Error;
      }
      if isNewCycle {
        Collected(i.members.value);
      } else {
        DropTargets(statusMembers);
      }
      if |defragTargets| == 0 {
        return Nothing;
      }
      ghost var kept := defragTargets;
      defragTargets := SortTargets(statusMembers, defragTargets);
      a := Defragment(i, statusMembers);
    }

    /** Asks every started voter for its status; the first failure ends the sync. */
    method Statuses(members: seq<Member>, isNewCycle: bool) returns (statusMembers: map<nat, Status>, ok: bool)
      modifies this`defragTargets
      ensures Gather(members, isNewCycle, old(defragTargets)) == Gathered(statusMembers, defragTargets, ok)
    {
      statusMembers := map[];
      for k := 0 to |members|
        invariant Gather(members[..k], isNewCycle, old(defragTargets)) == Gathered(statusMembers, defragTargets, true)
      {
        assert members[..k + 1][..k] == members[..k];
        var member := members[k];
        if member.learner || !member.started {
          continue;
        }
        if member.status.Err? {
          GatherStops(members, k + 1, isNewCycle, old(defragTargets));
          return statusMembers, false;
        }
        statusMembers := statusMembers[member.id := member.status.value];
        if isNewCycle && Fragmented(member.status.value) {
          defragTargets := defragTargets + [member.id];
        }
      }
      assert members[..|members|] == members;
      return statusMembers, true;
    }

    method DropTargets(statusMembers: map<nat, Status>)
      modifies this`defragTargets
      ensures defragTargets == Kept(old(defragTargets), statusMembers)
      ensures forall id :: id in defragTargets ==> id in statusMembers
    {
      var targets := defragTargets;
      defragTargets := [];
      for k := 0 to |targets|
        invariant defragTargets == Kept(targets[..k], statusMembers)
        invariant forall id :: id in defragTargets ==> id in statusMembers
      {
        assert targets[..k + 1][..k] == targets[..k];
        if targets[k] in statusMembers && Fragmented(statusMembers[targets[k]]) {
          defragTargets := defragTargets + [targets[k]];
        }
      }
      assert targets[..|targets|] == targets;
    }

    method SortTargets(statusMembers: map<nat, Status>, targets: seq<nat>) returns (sorted: seq<nat>)
      requires forall id :: id in targets ==> id in statusMembers
      ensures multiset(sorted) == multiset(targets) && Ordered(statusMembers, sorted)
    {
      sorted := [];
      for k := 0 to |targets|
        invariant multiset(sorted) == multiset(targets[..k]) && Ordered(statusMembers, sorted)
        invariant forall id :: id in sorted ==> id in statusMembers
      {
        assert targets[..k + 1] == targets[..k] + [targets[k]];
        sorted := InsertTarget(statusMembers, sorted, targets[k]);
      }
      assert targets[..|targets|] == targets;
    }

    method InsertTarget(statusMembers: map<nat, Status>, sorted: seq<nat>, id: nat) returns (r: seq<nat>)
      requires Ordered(statusMembers, sorted) && id in statusMembers && forall x :: x in sorted ==> x in statusMembers
      ensures multiset(r) == multiset(sorted) + multiset{id} && Ordered(statusMembers, r)
      ensures forall x :: x in r ==> x in statusMembers
    {
      hide Before, Ordered;
      var at := |sorted|;
      while at > 0 && !Before(statusMembers, sorted[at - 1], id)
        invariant 0 <= at <= |sorted|
        invariant forall j :: at <= j < |sorted| ==> Before(statusMembers, id, sorted[j])
      {
        BeforeTotal(statusMembers, sorted[at - 1], id);
        at := at - 1;
      }
      InsertOrdered(statusMembers, sorted, at, id);
      assert sorted == sorted[..at] + sorted[at..];
      r := sorted[..at] + [id] + sorted[at..];
    }

    /** Moves leadership away or defragments the first target. */
    method Defragment(i: Input, statusMembers: map<nat, Status>) returns (a: Action)
      requires |defragTargets| > 0 && Ordered(statusMembers, defragTargets)
      modifies this
      ensures Attempt(old(View()), statusMembers, i, View(), a)
      ensures OrderOf(View(), a) == old(defragTargets) && Acts(a)
    {
      var target := defragTargets[0];
      assert |defragTargets| > 0;
      if target in statusMembers && statusMembers[target].leader == target && |statusMembers| > 1 {
        var to := MoveLeader(statusMembers, target, i.moveFails);
        if to.Some? {
          return Moved(target, to.value);
        }
      } else {
        OnlyLeader(statusMembers, target, i.moveFails);
      }
      if i.defragFails {
        numDefragFailures := numDefragFailures + 1;
        if numDefragFailures >= MAX_FAILURES && !i.updateFails {
          degraded := true;
        }
        return DefragFailed(target);
      }
      numDefragFailures := 0;
      if !i.updateFails {
        degraded := false;
      }
      defragTargets := defragTargets[1..];
      assert [target] + defragTargets == old(defragTargets);
      return Defragmented(target);
    }

    /** Offers leadership to the other members, least fragmented first. */
    method MoveLeader(statusMembers: map<nat, Status>, target: nat, moveFails: set<nat>) returns (to: Option<nat>)
      ensures to.None? <==> Movable(statusMembers, target, moveFails) == {}
      ensures to.Some? ==> GoodSuccessor(statusMembers, target, moveFails, to.value)
    {
      hide Less, FragmentationOf;
      var followers := SortedFollowers(statusMembers, target);
      for k := 0 to |followers|
        invariant forall j :: 0 <= j < k ==> followers[j] in moveFails
      {
        assert followers[k] in followers;
        if followers[k] !in moveFails {
          forall id | id in Movable(statusMembers, target, moveFails)
            ensures !Less(FragmentationOf(statusMembers[id]), FragmentationOf(statusMembers[followers[k]]))
          {
            assert id in followers;
            var j :| 0 <= j < |followers| && followers[j] == id;
            if j == k {
              NotLess(FragmentationOf(statusMembers[id]));
            }
          }
          assert followers[k] in Movable(statusMembers, target, moveFails);
          return Some(followers[k]);
        }
      }
      forall id | id in statusMembers.Keys - {target} ensures id in moveFails {
        assert id in followers;
      }
      return None;
    }

    method SortedFollowers(statusMembers: map<nat, Status>, target: nat) returns (followers: seq<nat>)
      ensures forall id :: id in followers <==> id in statusMembers && id != target
      ensures LeastFirst(statusMembers, followers)
    {
      followers := [];
      var rest := statusMembers.Keys - {target};
      while rest != {}
        invariant rest <= statusMembers.Keys - {target}
        invariant forall id :: id in followers <==> id in statusMembers.Keys - {target} - rest
        invariant LeastFirst(statusMembers, followers)
      {
        var id :| id in rest;
        rest := rest - {id};
        followers := InsertFollower(statusMembers, followers, id);
      }
    }

    method InsertFollower(statusMembers: map<nat, Status>, sorted: seq<nat>, id: nat) returns (r: seq<nat>)
      requires LeastFirst(statusMembers, sorted) && id in statusMembers
      ensures LeastFirst(statusMembers, r) && forall x :: x in r <==> x in sorted || x == id
    {
      hide Less, FragmentationOf;
      var f := FragmentationOf(statusMembers[id]);
      var at := |sorted|;
      while at > 0 && Less(f, FragmentationOf(statusMembers[sorted[at - 1]]))
        invariant 0 <= at <= |sorted|
        invariant forall j :: at <= j < |sorted| ==> !Less(FragmentationOf(statusMembers[sorted[j]]), f)
      {
        LessAsymmetric(f, FragmentationOf(statusMembers[sorted[at - 1]]));
        at := at - 1;
      }
      forall j | 0 <= j < at ensures !Less(f, FragmentationOf(statusMembers[sorted[j]])) {
        if j < at - 1 {
          LessTransitive(f, FragmentationOf(statusMembers[sorted[at - 1]]), FragmentationOf(statusMembers[sorted[j]]));
        }
      }
      assert sorted == sorted[..at] + sorted[at..];
      r := sorted[..at] + [id] + sorted[at..];
    }
  }

  lemma LessAsymmetric(a: Fragmentation, b: Fragmentation)
    requires Less(a, b)
    ensures !Less(b, a)
  {
  }

  /** A target that does not lead, or has no other member beside it, is not moved from. */
  lemma OnlyLeader(statuses: map<nat, Status>, target: nat, moveFails: set<nat>)
    requires !(IsLeader(statuses, target) && |statuses| > 1)
    ensures !(IsLeader(statuses, target) && Movable(statuses, target, moveFails) != {})
  {
    if IsLeader(statuses, target) {
      assert |statuses.Keys - {target}| == |statuses| - 1;
    }
  }

  predicate TargetsHaveStatus(g: Gathered) {
    forall id :: id in g.targets ==> id in g.statuses
  }

  /** What a new cycle collected has a status. */
  lemma {:induction false} Collected(members: seq<Member>)
    ensures TargetsHaveStatus(Gather(members, true, []))
  {
    if members != [] {
      Collected(members[..|members| - 1]);
    }
  }
}
