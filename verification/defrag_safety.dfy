/** What the defragmentation controller promises: the leader last, no member twice in a
    cycle, and a Degraded condition that counts failures. */
module DefragSafety {
  import opened Basics
  import opened DefragModel

  predicate NoDup(s: seq<nat>) {
    forall i, j :: 0 <= i < j < |s| ==> s[i] != s[j]
  }

  predicate DistinctIds(members: seq<Member>) {
    forall i, j :: 0 <= i < j < |members| ==> members[i].id != members[j].id
  }

  // ----- fragmentation -----

  /** Rounding lets a member count as fragmented from 44.995 percent on. */
  lemma ThresholdIsExact(s: Status)
    ensures Fragmented(s) <==> s.dbSize >= 104857600 && 20000 * (s.dbSize - s.dbSizeInUse) >= 8999 * s.dbSize
  {
    if s.dbSize > 0 {
      RoundedAtLeast(s.dbSize - s.dbSizeInUse, s.dbSize);
    }
  }

  lemma RoundedAtLeast(diff: int, total: int)
    requires total > 0
    ensures RoundedHundredths(diff, total) >= MAX_FRAGMENTED_HUNDREDTHS <==> 20000 * diff >= 8999 * total
  {
    if diff >= 0 {
      QuotientAtLeast(20000 * diff + total, 2 * total, MAX_FRAGMENTED_HUNDREDTHS);
    } else {
      QuotientAtLeast(20000 * -diff + total, 2 * total, 0);
    }
  }

  lemma QuotientAtLeast(n: int, d: int, q: int)
    requires d > 0
    ensures n / d >= q <==> n >= d * q
  {
    var k := n / d - q;
    assert n == d * (n / d) + n % d;
    assert n - d * q == d * k + n % d;
    Sign(d, k);
  }

  lemma Sign(d: int, k: int)
    requires d > 0
    ensures k >= 0 ==> d * k >= 0
    ensures k <= -1 ==> d * k <= -d
  {
  }

  // ----- leaders -----

  predicate OneLeader(statuses: map<nat, Status>) {
    forall a, b :: a in statuses && b in statuses && IsLeader(statuses, a) && IsLeader(statuses, b) ==> a == b
  }

  /** The member an action concerns. */
  function Target(a: Action): nat {
    match a
    case Moved(from, _) => from
    case DefragFailed(id) => id
    case Defragmented(id) => id
    case _ => 0
  }

  predicate Acts(a: Action) {
    !a.Nothing? && !a.Error?
  }

  function Targets(s: Defrag, g: Gathered): seq<nat> {
    if s.targets == [] then g.targets else Kept(g.targets, g.statuses)
  }

  lemma {:induction false} NoDupCounts(s: seq<nat>)
    ensures NoDup(s) <==> forall x :: multiset(s)[x] <= 1
  {
    if s != [] {
      var rest, x := s[..|s| - 1], s[|s| - 1];
      assert s == rest + [x];
      NoDupCounts(rest);
      assert multiset(s)[x] == multiset(rest)[x] + 1;
      if NoDup(s) {
        assert x !in rest;
        assert x !in multiset(rest);
        assert NoDup(rest);
      } else if forall y :: multiset(s)[y] <= 1 {
        assert forall y :: multiset(rest)[y] <= multiset(s)[y];
        assert x !in multiset(rest);
        assert x !in rest;
      }
    }
  }

  lemma SameElements(a: seq<nat>, b: seq<nat>)
    requires multiset(a) == multiset(b)
    ensures |a| == |b| && (NoDup(a) <==> NoDup(b)) && forall x :: x in a <==> x in b
  {
    NoDupCounts(a);
    NoDupCounts(b);
    assert |multiset(a)| == |a| && |multiset(b)| == |b|;
    forall x ensures x in a <==> x in b {
      assert x in multiset(a) <==> x in multiset(b);
    }
  }

  /** The action's target heads the sorted targets. */
  lemma TargetHeads(s: Defrag, i: Input, t: Defrag, a: Action)
    requires RunDefrag(s, i, t, a) && Acts(a)
    ensures i.members.Ok?
    ensures var g := Gather(i.members.value, s.targets == [], s.targets);
            && multiset(OrderOf(t, a)) == multiset(Targets(s, g)) && Attempt(s, g.statuses, i, t, a)
            && OrderOf(t, a) != [] && OrderOf(t, a)[0] == Target(a)
  {
  }

  lemma LeaderFirst(statuses: map<nat, Status>, order: seq<nat>)
    requires order != [] && Ordered(statuses, order) && NoDup(order)
    ensures OneLeader(statuses) && IsLeader(statuses, order[0]) ==> |order| == 1
  {
    var next := if |order| > 1 then order[1] else 0;
    assert |order| > 1 ==> Before(statuses, order[0], next);
  }

  lemma NotLess(f: Fragmentation)
    ensures !Less(f, f)
  {
  }

  // ----- a cycle -----

  predicate Within(a: seq<nat>, b: seq<nat>) {
    forall x :: x in a ==> x in b
  }

  function VoterIds(members: seq<Member>): set<nat> {
    set m | m in members && Eligible(m) :: m.id
  }

  lemma {:induction false} GatherStatuses(members: seq<Member>, isNewCycle: bool, targets: seq<nat>)
    ensures Gather(members, isNewCycle, targets).statuses.Keys <= VoterIds(members)
    ensures !isNewCycle ==> Gather(members, isNewCycle, targets).targets == targets
  {
    if members != [] {
      var before, m := members[..|members| - 1], members[|members| - 1];
      GatherStatuses(before, isNewCycle, targets);
      assert members == before + [m];
      assert VoterIds(before) <= VoterIds(members);
      assert Eligible(m) ==> m.id in VoterIds(members);
    }
  }

  lemma {:induction false} GatherTargets(members: seq<Member>)
    requires DistinctIds(members)
    ensures var g := Gather(members, true, []);
            NoDup(g.targets) && forall id :: id in g.targets ==> id in g.statuses
  {
    if members != [] {
      var before, m := members[..|members| - 1], members[|members| - 1];
      forall k | 0 <= k < |before| ensures before[k].id != m.id {
        assert members[k] == before[k];
      }
      assert m.id !in VoterIds(before);
      assert DistinctIds(before) by {
        forall i, j | 0 <= i < j < |before| ensures before[i].id != before[j].id {
          assert members[i] == before[i] && members[j] == before[j];
        }
      }
      GatherTargets(before);
      GatherStatuses(before, true, []);
    }
  }

  lemma {:induction false} KeptWithin(targets: seq<nat>, statuses: map<nat, Status>)
    ensures var k := Kept(targets, statuses);
            && Within(k, targets) && |k| <= |targets| && (NoDup(targets) ==> NoDup(k))
            && (forall id :: id in k ==> id in statuses && Fragmented(statuses[id]))
  {
    if targets != [] {
      var before := targets[..|targets| - 1];
      KeptWithin(before, statuses);
      var x := targets[|targets| - 1];
      assert targets == before + [x];
      assert NoDup(targets) ==> NoDup(before) && x !in before;
    }
  }

  predicate Distinct(i: Input) {
    i.members.Ok? ==> DistinctIds(i.members.value)
  }

  predicate StartedVoter(i: Input, id: nat) {
    i.members.Ok? && id in VoterIds(i.members.value)
  }

  /** One sync: the list stays free of duplicates and never gains within a cycle; its head
      is a started voter when it is used; a defragmented member leaves it. */
  lemma SyncTargets(s: Defrag, i: Input, t: Defrag, a: Action)
    requires Sync(s, i, t, a) && NoDup(s.targets) && Distinct(i)
    ensures NoDup(t.targets)
    ensures Acts(a) ==> StartedVoter(i, Target(a)) && NoDup(OrderOf(t, a)) && Target(a) in OrderOf(t, a)
    ensures s.targets != [] ==> Within(OrderOf(t, a), s.targets) && |OrderOf(t, a)| <= |s.targets|
    ensures Within(t.targets, OrderOf(t, a))
  {
    if i.enabled == Ok(true) && i.healthy == Ok(true) && i.members.Ok? {
      var g := Gather(i.members.value, s.targets == [], s.targets);
      TargetsGood(s, i, g);
      if Acts(a) {
        TargetHeads(s, i, t, a);
        hide Gather, Kept, Attempt, RunDefrag, Targets;
        SameElements(OrderOf(t, a), Targets(s, g));
        assert OrderOf(t, a) == if a.Defragmented? then [a.id] + t.targets else t.targets;
        assert a.Defragmented? ==> t.targets == OrderOf(t, a)[1..];
      } else {
        QuietTargets(s, i, t, a);
      }
    }
  }

  lemma TargetsGood(s: Defrag, i: Input, g: Gathered)
    requires NoDup(s.targets) && Distinct(i) && i.members.Ok?
    requires g == Gather(i.members.value, s.targets == [], s.targets)
    ensures NoDup(Targets(s, g)) && NoDup(g.targets)
    ensures forall id :: id in Targets(s, g) ==> StartedVoter(i, id) && id in g.statuses
    ensures s.targets != [] ==>
              Within(Targets(s, g), s.targets) && |Targets(s, g)| <= |s.targets| && g.targets == s.targets
  {
    GatherStatuses(i.members.value, s.targets == [], s.targets);
    GatherTargets(i.members.value);
    hide Gather;
    KeptWithin(s.targets, g.statuses);
  }

  lemma QuietTargets(s: Defrag, i: Input, t: Defrag, a: Action)
    requires RunDefrag(s, i, t, a) && !Acts(a) && i.members.Ok?
    ensures var g := Gather(i.members.value, s.targets == [], s.targets);
            t.targets == s.targets || t.targets == [] || t.targets == g.targets
  {
  }

  /** The members defragmented, in order. */
  function Successes(actions: seq<Action>): seq<nat> {
    if actions == [] then []
    else
      var before, a := Successes(actions[..|actions| - 1]), actions[|actions| - 1];
      if a.Defragmented? then before + [a.id] else before
  }

  /** A run of syncs that stays in the cycle it is in, or begins with its first sync. */
  predicate Cycle(r: Run) {
    && IsRun(r) && |r.inputs| > 0 && NoDup(r.states[0].targets)
    && (forall k :: 0 <= k < |r.inputs| ==> Distinct(r.inputs[k]))
    && (forall k :: 0 < k < |r.inputs| ==> r.states[k].targets != [])
  }

  function Shorter(r: Run): Run
    requires IsRun(r) && |r.inputs| > 0
  {
    var n := |r.inputs| - 1;
    Run(r.states[..n + 1], r.inputs[..n], r.actions[..n])
  }

  /** No member twice, none both done and still to do, and no more than at first. */
  predicate Accounts(first: seq<nat>, done: seq<nat>, left: seq<nat>) {
    && NoDup(done) && NoDup(left) && Within(done, first) && Within(left, first)
    && (forall x :: x in done ==> x !in left)
    && |done| + |left| <= |first|
  }

  lemma AccountsNext(first: seq<nat>, done: seq<nat>, s: Defrag, i: Input, t: Defrag, a: Action)
    requires Accounts(first, done, s.targets) && s.targets != [] && Sync(s, i, t, a) && Distinct(i)
    ensures Accounts(first, if a.Defragmented? then done + [a.id] else done, t.targets)
  {
    hide Sync, Distinct;
    SyncTargets(s, i, t, a);
    if a.Defragmented? {
      HeadOut(a.id, t.targets);
    }
  }

  /** In a cycle no member is defragmented twice, each was on the first sync's list, and
      the successes with what remains are no more than that list. */
  lemma {:induction false} NoMemberTwice(r: Run)
    requires Cycle(r)
    ensures Accounts(OrderOf(r.states[1], r.actions[0]), Successes(r.actions), r.states[|r.inputs|].targets)
    decreases |r.inputs|
  {
    hide Accounts, Sync, Distinct;
    var n := |r.inputs| - 1;
    var s, i, t, a := r.states[n], r.inputs[n], r.states[n + 1], r.actions[n];
    assert Sync(s, i, t, a) && Distinct(i);
    if n == 0 {
      assert r.actions[..0] == [];
      assert Successes(r.actions) == if a.Defragmented? then [a.id] else [];
      FirstAccounts(s, i, t, a);
    } else {
      var p := Shorter(r);
      assert r.actions[..n] == p.actions && p.states[1] == r.states[1] && p.actions[0] == r.actions[0] &&
             p.states[n] == s;
      NoMemberTwice(p);
      AccountsNext(OrderOf(r.states[1], r.actions[0]), Successes(p.actions), s, i, t, a);
    }
  }

  lemma HeadOut(x: nat, rest: seq<nat>)
    requires NoDup([x] + rest)
    ensures x !in rest && NoDup(rest)
  {
    forall k | 0 <= k < |rest| ensures rest[k] != x {
      assert ([x] + rest)[0] == x && ([x] + rest)[k + 1] == rest[k];
    }
    forall i, j | 0 <= i < j < |rest| ensures rest[i] != rest[j] {
      assert ([x] + rest)[i + 1] == rest[i] && ([x] + rest)[j + 1] == rest[j];
    }
  }

  lemma FirstAccounts(s: Defrag, i: Input, t: Defrag, a: Action)
    requires NoDup(s.targets) && Sync(s, i, t, a) && Distinct(i)
    ensures Accounts(OrderOf(t, a), if a.Defragmented? then [a.id] else [], t.targets)
  {
    hide Sync, Distinct;
    SyncTargets(s, i, t, a);
    if a.Defragmented? {
      HeadOut(a.id, t.targets);
    }
  }

  // ----- the leader goes last -----

  /** A member that claims leadership is moved away from or defragmented only when all
      remaining targets claim it, so with one leader at most when it is all that remains;
      otherwise the target is a follower, and a most fragmented one. */
  lemma LeaderLast(s: Defrag, i: Input, t: Defrag, a: Action)
    requires RunDefrag(s, i, t, a) && Acts(a) && NoDup(s.targets) && Distinct(i)
    ensures i.members.Ok?
    ensures var g := Gather(i.members.value, s.targets == [], s.targets);
            && Target(a) in Targets(s, g) && (forall id :: id in Targets(s, g) ==> id in g.statuses)
            && (IsLeader(g.statuses, Target(a)) ==> forall id :: id in Targets(s, g) ==> IsLeader(g.statuses, id))
            && (OneLeader(g.statuses) && IsLeader(g.statuses, Target(a)) ==> Targets(s, g) == [Target(a)])
            && (!IsLeader(g.statuses, Target(a)) ==>
                  forall id :: id in Targets(s, g) && !IsLeader(g.statuses, id) ==>
                    !Less(FragmentationOf(g.statuses[Target(a)]), FragmentationOf(g.statuses[id])))
  {
    TargetHeads(s, i, t, a);
    var g := Gather(i.members.value, s.targets == [], s.targets);
    TargetsGood(s, i, g);
    var order, kept := OrderOf(t, a), Targets(s, g);
    SameElements(order, kept);
    hide Less, FragmentationOf, Gather, Kept;
    LeaderFirst(g.statuses, order);
    if IsLeader(g.statuses, order[0]) {
      forall id | id in kept ensures IsLeader(g.statuses, id) {
        var k :| 0 <= k < |order| && order[k] == id;
        assert k > 0 ==> Before(g.statuses, order[0], order[k]);
      }
      assert kept[0] in kept;
    } else {
      forall id | id in kept && !IsLeader(g.statuses, id)
        ensures !Less(FragmentationOf(g.statuses[Target(a)]), FragmentationOf(g.statuses[id]))
      {
        var k :| 0 <= k < |order| && order[k] == id;
        if k == 0 {
          NotLess(FragmentationOf(g.statuses[id]));
        } else {
          assert Before(g.statuses, order[0], order[k]);
        }
      }
    }
  }

  // ----- the failure counter -----

  /** Failed attempts since the last successful one. */
  function Trailing(actions: seq<Action>): nat {
    if actions == [] then 0
    else
      match actions[|actions| - 1]
      case Defragmented(_) => 0
      case DefragFailed(_) => Trailing(actions[..|actions| - 1]) + 1
      case _ => Trailing(actions[..|actions| - 1])
  }

  /** While status updates succeed, Degraded is true exactly when the last three or more
      attempts all failed, whatever other syncs fall between them. */
  lemma {:induction false} DegradedIsExact(r: Run)
    requires IsRun(r) && r.states[0].failures == 0 && !r.states[0].degraded
    requires forall k :: 0 <= k < |r.inputs| ==> !r.inputs[k].updateFails
    ensures var s := r.states[|r.inputs|];
            s.failures == Trailing(r.actions) && (s.degraded <==> Trailing(r.actions) >= 3)
    decreases |r.inputs|
  {
    if |r.inputs| > 0 {
      var n := |r.inputs| - 1;
      var p := Shorter(r);
      DegradedIsExact(p);
      assert p.states[n] == r.states[n] && r.actions[..n] == p.actions;
      CounterStep(r.states[n], r.inputs[n], r.states[n + 1], r.actions[n]);
    }
  }

  lemma CounterStep(s: Defrag, i: Input, t: Defrag, a: Action)
    requires Sync(s, i, t, a)
    ensures match a
            case Defragmented(_) => t.failures == 0 && t.degraded == (s.degraded && i.updateFails)
            case DefragFailed(_) => t.failures == s.failures + 1 &&
                                    t.degraded == (s.degraded || (t.failures >= MAX_FAILURES && !i.updateFails))
            case _ => t.failures == s.failures && t.degraded == s.degraded
  {
  }
}
