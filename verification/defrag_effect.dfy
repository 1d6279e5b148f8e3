/** What one sync of the defragmentation controller does, said in terms of the members'
    statuses and the controller's fields alone. */
module DefragEffect {
  import opened Basics
  import opened DefragModel
  import opened DefragSafety

  // ----- fragmentation -----

  /** Rounding errs by half a hundredth at most. */
  lemma RoundedIsNear(diff: int, total: int)
    requires total > 0
    ensures -total <= 2 * (10000 * diff - RoundedHundredths(diff, total) * total) <= total
  {
    var n, d := 20000 * (if diff >= 0 then diff else -diff) + total, 2 * total;
    var q := n / d;
    assert n == d * q + n % d;
    assert d * q == 2 * (q * total);
    assert RoundedHundredths(diff, total) == if diff >= 0 then q else -q;
    assert (-q) * total == -(q * total);
  }

  /** One database is more fragmented than the other by more than a hundredth of a percent. */
  predicate ClearlyMore(a: Status, b: Status) {
    10000 * (a.dbSize - a.dbSizeInUse) * b.dbSize > (10000 * (b.dbSize - b.dbSizeInUse) + b.dbSize) * a.dbSize
  }

  /** What is clearly more fragmented ranks as more fragmented. */
  lemma ClearlyMoreIsMore(a: Status, b: Status)
    requires a.dbSize > 0 && b.dbSize > 0 && ClearlyMore(a, b)
    ensures Less(FragmentationOf(b), FragmentationOf(a))
  {
    var da, db := a.dbSize - a.dbSizeInUse, b.dbSize - b.dbSizeInUse;
    var ha, hb := RoundedHundredths(da, a.dbSize), RoundedHundredths(db, b.dbSize);
    RoundedIsNear(da, a.dbSize);
    RoundedIsNear(db, b.dbSize);
    Compare(da, a.dbSize, ha, db, b.dbSize, hb);
  }

  lemma Compare(da: int, ta: int, ha: int, db: int, tb: int, hb: int)
    requires ta > 0 && tb > 0
    requires 10000 * da * tb > (10000 * db + tb) * ta
    requires 2 * (10000 * da - ha * ta) <= ta && -tb <= 2 * (10000 * db - hb * tb)
    ensures hb < ha
  {
    assert 2 * 10000 * da * tb <= (2 * (ha * ta) + ta) * tb;
    assert (2 * (hb * tb) - tb) * ta <= 2 * 10000 * db * ta;
    assert 2 * (10000 * db + tb) * ta == 2 * 10000 * db * ta + 2 * tb * ta;
    assert 2 * hb * (ta * tb) < 2 * ha * (ta * tb);
  }

  // ----- the members of a sync -----

  /** Every started voter answers for its status. */
  predicate AllAnswer(members: seq<Member>) {
    forall k :: 0 <= k < |members| && !members[k].learner && members[k].started ==> members[k].status.Ok?
  }

  /** A started voter with that id. */
  predicate Votes(members: seq<Member>, k: int, id: nat) {
    0 <= k < |members| && members[k].id == id && !members[k].learner && members[k].started
  }

  /** A started voter of at least 100 MiB of which 44.995 percent or more are unused. */
  predicate Worn(members: seq<Member>, k: int, id: nat) {
    && Votes(members, k, id) && members[k].status.Ok?
    && var s := members[k].status.value;
       s.dbSize >= 104857600 && 20000 * (s.dbSize - s.dbSizeInUse) >= 8999 * s.dbSize
  }

  lemma WornIsFragmented(members: seq<Member>, k: int, id: nat)
    ensures Worn(members, k, id) <==>
              Votes(members, k, id) && members[k].status.Ok? && Fragmented(members[k].status.value)
  {
    if Votes(members, k, id) && members[k].status.Ok? {
      ThresholdIsExact(members[k].status.value);
    }
  }

  /** A sync asks the started voters until one fails to answer. */
  lemma {:induction false} GatherIsExact(members: seq<Member>, isNewCycle: bool, targets: seq<nat>)
    requires DistinctIds(members)
    ensures var g := Gather(members, isNewCycle, targets);
            && (g.ok <==> AllAnswer(members))
            && (g.ok ==> forall id :: id in g.statuses <==> exists k :: Votes(members, k, id))
            && (g.ok ==> forall k, id :: Votes(members, k, id) ==>
                 id in g.statuses && members[k].status == Ok(g.statuses[id]))
  {
    if members != [] {
      var before, n := members[..|members| - 1], |members| - 1;
      assert DistinctIds(before) by {
        forall i, j | 0 <= i < j < |before| ensures before[i].id != before[j].id {
          assert members[i] == before[i] && members[j] == before[j];
        }
      }
      GatherIsExact(before, isNewCycle, targets);
      forall k, id ensures Votes(members, k, id) <==> Votes(before, k, id) || (k == n && Votes(members, n, id)) {
        assert 0 <= k < n ==> members[k] == before[k];
      }
      forall k | 0 <= k < n ensures members[k].id != members[n].id { }
      assert AllAnswer(members) <==>
               AllAnswer(before) && (!members[n].learner && members[n].started ==> members[n].status.Ok?) by {
        assert forall k :: 0 <= k < n ==> members[k] == before[k];
      }
      var g := Gather(members, isNewCycle, targets);
      if g.ok {
        forall id ensures id in g.statuses <==> exists k :: Votes(members, k, id) {
          if Votes(members, n, id) {
          } else if k :| Votes(before, k, id) {
            assert Votes(members, k, id);
          }
        }
      }
    }
  }

  /** A new cycle collects exactly the worn members. */
  lemma {:induction false} NewCycleCollects(members: seq<Member>)
    requires DistinctIds(members) && AllAnswer(members)
    ensures forall id :: id in Gather(members, true, []).targets <==> exists k :: Worn(members, k, id)
  {
    if members != [] {
      var before, n := members[..|members| - 1], |members| - 1;
      assert forall k :: 0 <= k < n ==> members[k] == before[k];
      assert DistinctIds(before) && AllAnswer(before);
      NewCycleCollects(before);
      GatherIsExact(before, true, []);
      forall id ensures id in Gather(members, true, []).targets <==> exists k :: Worn(members, k, id) {
        WornIsFragmented(members, n, id);
        if k :| Worn(before, k, id) {
          assert Worn(members, k, id);
        }
        if k :| Worn(members, k, id) {
          assert k < n ==> Worn(before, k, id);
        }
      }
    }
  }

  /** The members the cycle still has to defragment. */
  ghost predicate Wanted(s: Defrag, members: seq<Member>, id: nat) {
    (s.targets == [] || id in s.targets) && exists k :: Worn(members, k, id)
  }

  lemma {:induction false} KeptIsExact(targets: seq<nat>, statuses: map<nat, Status>)
    ensures forall id :: id in Kept(targets, statuses) <==> id in targets && id in statuses && Fragmented(statuses[id])
  {
    if targets != [] {
      KeptIsExact(targets[..|targets| - 1], statuses);
      assert targets == targets[..|targets| - 1] + [targets[|targets| - 1]];
    }
  }

  lemma TargetsAreWanted(s: Defrag, i: Input)
    requires i.members.Ok? && DistinctIds(i.members.value) && AllAnswer(i.members.value)
    ensures var g := Gather(i.members.value, s.targets == [], s.targets);
            forall id :: id in Targets(s, g) <==> Wanted(s, i.members.value, id)
  {
    var members := i.members.value;
    var g := Gather(members, s.targets == [], s.targets);
    if s.targets == [] {
      NewCycleCollects(members);
    } else {
      GatherIsExact(members, false, s.targets);
      GatherStatuses(members, false, s.targets);
      KeptIsExact(s.targets, g.statuses);
      forall id ensures id in g.statuses && Fragmented(g.statuses[id]) <==> exists k :: Worn(members, k, id) {
        if k :| Votes(members, k, id) {
          WornIsFragmented(members, k, id);
        }
        if k :| Worn(members, k, id) {
          WornIsFragmented(members, k, id);
        }
      }
    }
  }

  // ----- the sync -----

  /** The status of the started voter claims that it leads. */
  predicate Claims(members: seq<Member>, k: int, id: nat) {
    Votes(members, k, id) && members[k].status.Ok? && members[k].status.value.leader == id
  }

  /** A disabled controller, an unhealthy cluster and failing answers leave counters and
      Degraded alone and defragment nobody. */
  lemma HeldBack(s: Defrag, i: Input, t: Defrag, a: Action)
    requires Sync(s, i, t, a) && Distinct(i)
    requires i.enabled != Ok(true) || i.healthy != Ok(true) || i.members.Err? || !AllAnswer(i.members.value)
    ensures !Acts(a) && t == s.(targets := t.targets)
    ensures i.enabled != Ok(true) || i.healthy != Ok(true) || i.members.Err? ==> t == s
    ensures a == Nothing <==> i.enabled == Ok(false)
  {
    if i.members.Ok? {
      GatherIsExact(i.members.value, s.targets == [], s.targets);
    }
  }

  /** Otherwise the sync acts exactly when some member is wanted, and then on one of them.
      If it claims leadership and another started voter takes it over, it goes there and
      nothing else happens; if not, the target is defragmented, which counts as a failure
      or takes it off the list. */
  lemma SyncDoes(s: Defrag, i: Input, t: Defrag, a: Action)
    requires Sync(s, i, t, a) && i.enabled == Ok(true) && i.healthy == Ok(true) && i.members.Ok?
    requires NoDup(s.targets) && DistinctIds(i.members.value) && AllAnswer(i.members.value)
    ensures var members := i.members.value;
            && (Acts(a) <==> exists id :: Wanted(s, members, id))
            && (!Acts(a) ==> a == Nothing && t == s.(targets := []))
            && (Acts(a) ==>
                  && Wanted(s, members, Target(a))
                  && (forall id :: id in t.targets <==> Wanted(s, members, id) && a != Defragmented(id))
                  && (a.Moved? <==>
                        && (exists k :: Claims(members, k, Target(a)))
                        && exists k, id :: Votes(members, k, id) && id != Target(a) && id !in i.moveFails)
                  && (a.Moved? ==> a.to != a.from && a.to !in i.moveFails && exists k :: Votes(members, k, a.to))
                  && (a.DefragFailed? ==> i.defragFails) && (a.Defragmented? ==> !i.defragFails)
                  && (a.DefragFailed? ==> t.failures == s.failures + 1)
                  && (a.Defragmented? ==> t.failures == 0) && (a.Moved? ==> t.failures == s.failures)
                  && t.degraded == (if a.DefragFailed? then s.degraded || (t.failures >= 3 && !i.updateFails)
                                    else s.degraded && (a.Defragmented? ==> i.updateFails)))
  {
    var members := i.members.value;
    var g := Gather(members, s.targets == [], s.targets);
    hide Gather, Wanted, Claims, Votes, AllAnswer, RunDefrag, Targets;
    GatherIsExact(members, s.targets == [], s.targets);
    TargetsAreWanted(s, i);
    if Acts(a) {
      WhatIsLeft(s, i, t, a);
      MovesExactly(s, i, t, a);
      CounterStep(s, i, t, a);
    } else {
      NoTargets(s, i, t, a);
    }
  }

  lemma WhatIsLeft(s: Defrag, i: Input, t: Defrag, a: Action)
    requires RunDefrag(s, i, t, a) && Acts(a) && NoDup(s.targets) && Distinct(i) && i.members.Ok?
    ensures var targets := Targets(s, Gather(i.members.value, s.targets == [], s.targets));
            Target(a) in targets && forall id :: id in t.targets <==> id in targets && a != Defragmented(id)
  {
    var g := Gather(i.members.value, s.targets == [], s.targets);
    TargetsGood(s, i, g);
    TargetHeads(s, i, t, a);
    SameElements(OrderOf(t, a), Targets(s, g));
    if a.Defragmented? {
      HeadOut(a.id, t.targets);
    }
    hide Gather, Targets, RunDefrag, Attempt;
    assert Target(a) in OrderOf(t, a);
    forall id ensures id in OrderOf(t, a) <==> id in t.targets || a == Defragmented(id) { }
  }

  lemma MovesExactly(s: Defrag, i: Input, t: Defrag, a: Action)
    requires RunDefrag(s, i, t, a) && Acts(a) && i.members.Ok?
    requires DistinctIds(i.members.value) && AllAnswer(i.members.value)
    ensures var members := i.members.value;
            && (a.Moved? <==>
                  && (exists k :: Claims(members, k, Target(a)))
                  && exists k, id :: Votes(members, k, id) && id != Target(a) && id !in i.moveFails)
            && (a.Moved? ==> a.to != a.from && a.to !in i.moveFails && exists k :: Votes(members, k, a.to))
            && (a.DefragFailed? ==> i.defragFails) && (a.Defragmented? ==> !i.defragFails)
  {
    var members, target := i.members.value, Target(a);
    var g := Gather(members, s.targets == [], s.targets);
    GatherIsExact(members, s.targets == [], s.targets);
    TargetHeads(s, i, t, a);
    hide Gather;
    assert IsLeader(g.statuses, target) <==> exists k :: Claims(members, k, target) by {
      if k :| Votes(members, k, target) {
        assert members[k].status == Ok(g.statuses[target]);
        assert IsLeader(g.statuses, target) ==> Claims(members, k, target);
      }
    }
    if k, id :| Votes(members, k, id) && id != target && id !in i.moveFails {
      assert id in Movable(g.statuses, target, i.moveFails);
    }
    if id :| id in Movable(g.statuses, target, i.moveFails) {
      var k :| Votes(members, k, id);
    }
  }

  lemma NoTargets(s: Defrag, i: Input, t: Defrag, a: Action)
    requires RunDefrag(s, i, t, a) && !Acts(a) && i.members.Ok? && i.healthy == Ok(true)
    requires Gather(i.members.value, s.targets == [], s.targets).ok
    ensures Targets(s, Gather(i.members.value, s.targets == [], s.targets)) == [] && a == Nothing &&
            t == s.(targets := [])
  {
  }

  /** The target leads only if all wanted members claim to; it is not clearly less
      fragmented than another that does not claim leadership.  Leadership goes to a member
      not clearly more fragmented than another that would take it. */
  lemma MostFragmentedFirst(s: Defrag, i: Input, t: Defrag, a: Action, x: int, y: int, id: nat)
    requires Sync(s, i, t, a) && i.enabled == Ok(true) && i.healthy == Ok(true) && i.members.Ok? && Acts(a)
    requires NoDup(s.targets) && DistinctIds(i.members.value) && AllAnswer(i.members.value)
    requires Votes(i.members.value, x, Target(a)) && Votes(i.members.value, y, id)
    ensures var members := i.members.value;
            && (Wanted(s, members, id) && !Claims(members, y, id) ==>
                  !Claims(members, x, Target(a)) && !ClearlyMore(members[y].status.value, members[x].status.value))
            && (a.Moved? && id != Target(a) && id !in i.moveFails && members[y].status.value.dbSize > 0 ==>
                  exists z :: && Votes(members, z, a.to)
                              && (members[z].status.value.dbSize > 0 ==>
                                    !ClearlyMore(members[z].status.value, members[y].status.value)))
  {
    var members := i.members.value;
    var g := Gather(members, s.targets == [], s.targets);
    GatherIsExact(members, s.targets == [], s.targets);
    TargetsAreWanted(s, i);
    TargetHeads(s, i, t, a);
    LeaderLast(s, i, t, a);
    SameElements(OrderOf(t, a), Targets(s, g));
    var target := Target(a);
    if Wanted(s, members, id) && !Claims(members, y, id) {
      WantedIsLarge(s, members, y, id);
      WantedIsLarge(s, members, x, target);
      if ClearlyMore(members[y].status.value, members[x].status.value) {
        ClearlyMoreIsMore(members[y].status.value, members[x].status.value);
      }
    }
    if a.Moved? {
      assert a.to in g.statuses;
      var z :| Votes(members, z, a.to);
      if id != target && id !in i.moveFails &&
         members[y].status.value.dbSize > 0 && members[z].status.value.dbSize > 0
      {
        assert id in Movable(g.statuses, target, i.moveFails);
        if ClearlyMore(members[z].status.value, members[y].status.value) {
          ClearlyMoreIsMore(members[z].status.value, members[y].status.value);
        }
      }
    }
  }

  lemma WantedIsLarge(s: Defrag, members: seq<Member>, k: int, id: nat)
    requires Wanted(s, members, id) && Votes(members, k, id) && DistinctIds(members)
    ensures members[k].status.Ok? && members[k].status.value.dbSize > 0
  {
    var j :| Worn(members, j, id);
    assert j == k;
  }
}
