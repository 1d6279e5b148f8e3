/** The path for a new node skips the gate.  This is exactly when a sync on it is safe:
    when no run of everybody else can make a node meet a certificate it does not trust. */
module RotationForced {
  import opened RotationModel
  import opened RotationSafety
  import opened CertSigner

  // ----- what the others can bring about -----

  /** A step of the clock, the revision controller or the nodes. */
  predicate ByOthers(step: Step) {
    step.Tick? || step.CreateRevision? || step.SetTarget? || step.Launch? || step.Report? || step.Abandon? ||
    step.AddNode? || step.RemoveNode?
  }

  predicate OthersOnly(steps: seq<Step>) {
    forall k :: 0 <= k < |steps| ==> ByOthers(steps[k])
  }

  /** Trust now and after whatever the others do next. */
  ghost predicate TrustedFuture(s: Cluster) {
    forall steps :: OthersOnly(steps) && Runnable(s, steps) ==> Trust(Run(s, steps))
  }

  lemma {:induction false} OthersAreAdmissible(s: Cluster, steps: seq<Step>)
    requires OthersOnly(steps) && Runnable(s, steps)
    ensures AdmissibleRun(s, steps)
    decreases |steps|
  {
    if steps != [] {
      assert ByOthers(steps[0]);
      OthersAreAdmissible(Apply(s, steps[0]), steps[1..]);
    }
  }

  lemma InvGivesFuture(s: Cluster)
    requires Inv(s)
    ensures TrustedFuture(s)
  {
    forall steps | OthersOnly(steps) && Runnable(s, steps) ensures Trust(Run(s, steps)) {
      OthersAreAdmissible(s, steps);
      RunInv(s, steps);
      InvTrust(Run(s, steps));
    }
  }

  lemma RunOn(s: Cluster, steps: seq<Step>)
    requires steps != [] && Enabled(s, steps[0]) && Runnable(Apply(s, steps[0]), steps[1..])
    ensures Runnable(s, steps) && Run(s, steps) == Run(Apply(s, steps[0]), steps[1..])
  {
  }

  /** A node joins and installs the latest revision. */
  lemma JoinAndLaunch(s: Cluster) returns (steps: seq<Step>)
    requires s.latest > 0 && s.latest in s.snaps
    ensures OthersOnly(steps) && Runnable(s, steps)
    ensures Run(s, steps) == s.(nodes := s.nodes + [Node(0, 0, s.latest, s.latest, s.snaps[s.latest])])
  {
    var i := |s.nodes|;
    var s1 := Apply(s, AddNode(0));
    var s2 := Apply(s1, SetTarget(i));
    var s3 := Apply(s2, Launch(i, false));
    steps := [AddNode(0), SetTarget(i), Launch(i, false)];
    assert steps[1..] == [SetTarget(i), Launch(i, false)] &&
           [SetTarget(i), Launch(i, false)][1..] == [Launch(i, false)];
    assert [Launch(i, false)][1..] == [] && Runnable(s3, []) && Run(s3, []) == s3;
    RunOn(s2, [Launch(i, false)]);
    RunOn(s1, [SetTarget(i), Launch(i, false)]);
    RunOn(s, steps);
    assert s3.nodes == s.nodes + [Node(0, 0, s.latest, s.latest, s.snaps[s.latest])];
  }

  /** Where some node that runs or can start next does not know the issuer of a live leaf,
      the others can make it meet that leaf. */
  lemma BreakingRun(s: Cluster, l: Leaf) returns (steps: seq<Step>)
    requires s.latest > 0 && s.latest in s.snaps && l in s.written && !Honoured(s, l)
    ensures OthersOnly(steps) && Runnable(s, steps) && !Trust(Run(s, steps))
  {
    var g, c := l.issuer, l.name.Chain();
    if g !in s.snaps[s.latest].Get(c) {
      steps := JoinAndLaunch(s);
      Untrusted(Run(s, steps), l, |s.nodes|);
    } else if g !in s.all.data.Get(c) {
      var t := Apply(s, CreateRevision);
      var rest := JoinAndLaunch(t);
      steps := [CreateRevision] + rest;
      assert steps[1..] == rest;
      RunOn(s, steps);
      Untrusted(Run(s, steps), l, |s.nodes|);
    } else if i :| 0 <= i < |s.nodes| && s.nodes[i].running > 0 && g !in s.nodes[i].trusts.Get(c) {
      steps := [];
      Untrusted(s, l, i);
    } else {
      var i :| 0 <= i < |s.nodes| && Startable(s, s.nodes[i]) && g !in s.snaps[s.nodes[i].target].Get(c);
      steps := [Launch(i, false)];
      assert steps[1..] == [];
      RunOn(s, steps);
      Untrusted(Run(s, steps), l, i);
    }
  }

  lemma Untrusted(s: Cluster, l: Leaf, i: nat)
    requires l in s.written && Live(l, s.now) && i < |s.nodes| && s.nodes[i].running > 0
    requires l.issuer !in s.nodes[i].trusts.Get(l.name.Chain())
    ensures !Trust(s)
  {
  }

  /** Re-signing a leaf leaves everyone safe from then on exactly when every node that
      runs or can start next can verify it; and that is when the invariant survives. */
  lemma ForcedLeafIsExact(s: Cluster, validity: nat)
    requires Inv(s) && s.phase.Leaves? && s.phase.forced && s.phase.done < |s.phase.names|
    ensures var t := Apply(s, EnsureLeaf(true, validity));
            && (Inv(t) <==> Honoured(s, NextLeaf(s, validity)))
            && (TrustedFuture(t) <==> Honoured(s, NextLeaf(s, validity)))
  {
    var t := Apply(s, EnsureLeaf(true, validity));
    EnsureLeafIsExact(s, validity);
    SameKnown(s, t);
    FutureIsHonoured(t, NextLeaf(s, validity));
  }

  lemma FutureIsHonoured(s: Cluster, l: Leaf)
    requires s.latest > 0 && s.latest in s.snaps && l in s.written
    ensures Inv(s) ==> TrustedFuture(s)
    ensures TrustedFuture(s) ==> Honoured(s, l)
  {
    if Inv(s) {
      InvGivesFuture(s);
    }
    if !Honoured(s, l) {
      var steps := BreakingRun(s, l);
    }
  }

  // ----- a whole sync on that path -----

  /** The leaf is re-signed when its turn comes. */
  predicate Due(s: Cluster, input: SyncInput, name: LeafName, bundles: Pair<Bundle>) {
    MustRenew(s, name, bundles) || name in input.resign
  }

  /** Of the leaves the sync gets to, every one it re-signs can be verified by every node
      that runs or can start next.  The controller can read this off before it starts. */
  predicate DueAreHonoured(s: Cluster, input: SyncInput, budget: nat) {
    var names := LeafNames(s.nodes);
    forall k :: 0 <= k < |names| && k < budget && Due(s, input, names[k], s.caBundles) ==>
      Honoured(s, Issue(names[k], s.signers, s.now, input.validity))
  }

  predicate Forced(s: Cluster, input: SyncInput) {
    Running(s, input) && s.phase.Leaves? && s.phase.forced
  }

  function LeafAt(s: Cluster, input: SyncInput, k: nat): Leaf
    requires Forced(s, input) && k < |s.phase.names|
  {
    Issue(s.phase.names[k], s.phase.signers, s.now, input.validity)
  }

  predicate DueAt(s: Cluster, input: SyncInput, k: nat)
    requires Forced(s, input)
  {
    k < |s.phase.names| && Due(s, input, s.phase.names[k], s.phase.bundles)
  }

  /** The leaves a forced sync writes are exactly the due ones it gets to. */
  lemma {:induction false} ForcedWrites(s: Cluster, input: SyncInput, budget: nat)
    requires Forced(s, input)
    ensures var t := Drive(s, input, budget);
            && t == s.(phase := Idle, leafSecrets := t.leafSecrets, written := t.written, allCerts := t.allCerts)
            && s.written <= t.written
            && (forall k :: s.phase.done <= k < s.phase.done + budget && DueAt(s, input, k) ==>
                 LeafAt(s, input, k) in t.written)
            && (forall l :: l in t.written && l !in s.written ==>
                  exists k :: && s.phase.done <= k < s.phase.done + budget
                              && DueAt(s, input, k) && l == LeafAt(s, input, k))
    decreases budget
  {
    var t := Drive(s, input, budget);
    var done, names := s.phase.done, s.phase.names;
    if budget == 0 {
      DriveEnd(s, input, 0);
    } else {
      DriveStep(s, input, budget);
      var u := Apply(s, NextStep(s, input));
      if done == |names| {
        DriveEnd(u, input, budget - 1);
      } else {
        hide Drive;
        ForcedWrites(u, input, budget - 1);
        forall k | done <= k < done + budget && DueAt(s, input, k) ensures LeafAt(s, input, k) in t.written {
          if k > done {
            DueStep(s, input, k);
          }
        }
        forall l | l in t.written && l !in s.written
          ensures exists k :: done <= k < done + budget && DueAt(s, input, k) && l == LeafAt(s, input, k)
        {
          if l in u.written {
            assert DueAt(s, input, done) && l == LeafAt(s, input, done);
          } else {
            var k :| u.phase.done <= k < u.phase.done + (budget - 1) && DueAt(u, input, k) && l == LeafAt(u, input, k);
            DueStep(s, input, k);
            assert l == LeafAt(s, input, k);
          }
        }
      }
    }
  }

  /** What is due stays due until a leaf of the same name is written, and nothing becomes due. */
  lemma DueStep(s: Cluster, input: SyncInput, k: nat)
    requires Forced(s, input) && s.phase.done < k < |s.phase.names|
    ensures var u := Apply(s, NextStep(s, input));
            && Forced(u, input) && LeafAt(u, input, k) == LeafAt(s, input, k)
            && (DueAt(u, input, k) ==> DueAt(s, input, k))
            && (DueAt(s, input, k) ==> DueAt(u, input, k) || LeafAt(s, input, k) in u.written)
  {
  }

  /** A sync cut off anywhere leaves everyone safe from then on, and keeps the invariant,
      exactly when it is gated or the leaves it re-signs for a new node are honoured. */
  lemma SyncIsExact(s: Cluster, input: SyncInput, budget: nat)
    requires Inv(s) && s.phase.Idle? && FreshSigners(input, s.now)
    ensures var t := SyncEffect(s, input, budget);
            && (Inv(t) <==> (HasNodeDiff(s) ==> DueAreHonoured(s, input, budget)))
            && (TrustedFuture(t) <==> (HasNodeDiff(s) ==> DueAreHonoured(s, input, budget)))
  {
    var t := SyncEffect(s, input, budget);
    if !HasNodeDiff(s) {
      GatedSyncInv(s, input, budget);
      InvGivesFuture(t);
    } else {
      ForcedSyncIsExact(s, input, budget);
    }
  }

  lemma ForcedSyncIsExact(s: Cluster, input: SyncInput, budget: nat)
    requires Inv(s) && s.phase.Idle? && FreshSigners(input, s.now) && HasNodeDiff(s)
    ensures var t := SyncEffect(s, input, budget);
            (Inv(t) <==> DueAreHonoured(s, input, budget)) && (TrustedFuture(t) <==> DueAreHonoured(s, input, budget))
  {
    var t := SyncEffect(s, input, budget);
    var u := Apply(s, StartForced);
    ForcedWrites(u, input, budget);
    hide Drive, Known, Honoured, TrustedFuture;
    SameKnown(s, t);
    var names := LeafNames(s.nodes);
    if DueAreHonoured(s, input, budget) {
      forall l | l in t.written ensures l.notAfter <= l.issuer.notAfter && Honoured(t, l) {
        if l !in s.written {
          var k :| 0 <= k < budget && DueAt(u, input, k) && l == LeafAt(u, input, k);
          assert Due(s, input, names[k], s.caBundles);
        }
      }
      InvGivesFuture(t);
    } else {
      var k :| 0 <= k < |names| && k < budget && Due(s, input, names[k], s.caBundles) &&
               !Honoured(s, Issue(names[k], s.signers, s.now, input.validity));
      assert DueAt(u, input, k);
      FutureIsHonoured(t, LeafAt(u, input, k));
    }
  }
}
