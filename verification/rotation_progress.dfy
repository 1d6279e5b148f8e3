/** The gate does not block a rotation: two undisturbed syncs around one rollout move
    every leaf certificate to the new signers. */
module RotationProgress {
  import opened RotationModel
  import opened RotationSafety
  import opened CertSigner
  import opened RotationEffect

  /** The next revision created and installed on every node. */
  function RolledOver(s: Cluster): Cluster {
    var r := s.latest + 1;
    s.(latest := r, snaps := s.snaps[r := s.all.data],
       nodes := seq(|s.nodes|, i requires 0 <= i < |s.nodes| => Installed(s.nodes[i], r, s.all.data)))
  }

  function Installed(n: Node, r: nat, b: Pair<Bundle>): Node {
    Node(n.name, r, 0, r, b)
  }

  lemma {:induction false} RunConcat(s: Cluster, a: seq<Step>, b: seq<Step>)
    requires Runnable(s, a) && Runnable(Run(s, a), b)
    ensures Runnable(s, a + b) && Run(s, a + b) == Run(Run(s, a), b)
    decreases |a|
  {
    if a == [] {
      assert a + b == b;
    } else {
      RunConcat(Apply(s, a[0]), a[1..], b);
      assert (a + b)[1..] == a[1..] + b;
    }
  }

  lemma InstallNode(s: Cluster, i: nat) returns (steps: seq<Step>)
    requires i < |s.nodes| && s.latest in s.snaps && s.snaps[s.latest] == s.all.data
    requires s.nodes[i].current <= s.nodes[i].running < s.latest && s.nodes[i].target < s.latest
    ensures Runnable(s, steps)
    ensures Run(s, steps) == WithNode(s, i, Installed(s.nodes[i], s.latest, s.all.data))
  {
    steps := [SetTarget(i), Launch(i, false), Report(i)];
    var s1 := Apply(s, SetTarget(i));
    var s2 := Apply(s1, Launch(i, false));
    var s3 := Apply(s2, Report(i));
    assert steps[1..] == [Launch(i, false), Report(i)] && steps[1..][1..] == [Report(i)];
    assert Runnable(s3, []) && Run(s3, []) == s3;
    assert Runnable(s2, [Report(i)]) && Run(s2, [Report(i)]) == s3 by { assert [Report(i)][1..] == []; }
    assert Runnable(s1, steps[1..]) && Run(s1, steps[1..]) == s3;
  }

  /** `RolledOver` is a run of the other actors. */
  lemma RolloverIsRun(s: Cluster) returns (steps: seq<Step>)
    requires Inv(s)
    ensures Runnable(s, steps) && Run(s, steps) == RolledOver(s)
  {
    var t := Apply(s, CreateRevision);
    steps := [CreateRevision];
    assert Run(t, []) == t && steps[1..] == [];
    for i := 0 to |s.nodes|
      invariant Runnable(s, steps) && Run(s, steps) == t
      invariant t == s.(latest := s.latest + 1, snaps := s.snaps[s.latest + 1 := s.all.data], nodes := t.nodes)
      invariant |t.nodes| == |s.nodes|
      invariant forall k :: 0 <= k < i ==> t.nodes[k] == Installed(s.nodes[k], s.latest + 1, s.all.data)
      invariant forall k :: i <= k < |s.nodes| ==> t.nodes[k] == s.nodes[k]
    {
      var more := InstallNode(t, i);
      RunConcat(s, steps, more);
      steps, t := steps + more, Run(t, more);
    }
    assert t.nodes == RolledOver(s).nodes;
  }

  /** Every leaf a cluster of these nodes needs is there, live and issued by `signers`. */
  predicate IssuedBy(t: Cluster, nodes: seq<Node>, signers: Pair<Signer>) {
    && Fresh(t, EtcdClient, signers.server) && Fresh(t, MetricsClient, signers.metrics)
    && forall i :: 0 <= i < |nodes| ==>
         && Fresh(t, Peer(nodes[i].name), signers.server) && Fresh(t, Serving(nodes[i].name), signers.server)
         && Fresh(t, ServingMetrics(nodes[i].name), signers.metrics)
  }

  predicate Fresh(t: Cluster, n: LeafName, g: Signer) {
    n in t.leafSecrets && t.leafSecrets[n].issuer == g && t.leafSecrets[n].notAfter > t.now
  }

  /** All leaves are due for renewal. */
  ghost predicate AllDue(nodes: seq<Node>, input: SyncInput) {
    forall n :: n in {EtcdClient, MetricsClient} || OfNode(n, nodes) ==> n in input.resign
  }

  /** Rotation completes: a sync that mints signers, one rollout, and a second sync leave
      every leaf certificate live and issued by the new signer of its hierarchy. */
  lemma RotationCompletes(s: Cluster, first: SyncInput, second: SyncInput, budget: nat)
    requires Inv(s) && s.phase.Idle? && Stable(s) && !HasNodeDiff(s)
    requires FreshSigners(first, s.now) && FreshSigners(second, s.now)
    requires first.due == Pair(true, true) && first.minted.server !in s.all.data.server
    requires second.due == Pair(false, false) && second.validity > 0 && AllDue(s.nodes, second)
    requires budget > 7 + 3 * |s.nodes|
    ensures IssuedBy(SyncEffect(RolledOver(SyncEffect(s, first, budget)), second, budget), s.nodes, first.minted)
  {
    UnsettledIsUnstable(s);
    GatedSyncDoes(s, first, budget);
    assert first.minted.server in NewBundles(s, first).server && first.minted.metrics in NewBundles(s, first).metrics;
    var s1 := SyncEffect(s, first, budget);
    var s2 := RolledOver(s1);
    forall i | 0 <= i < |s2.nodes| ensures Serving(s2.nodes[i].name) in s2.allCerts.value {
      assert Serving(s.nodes[i].name) in s.allCerts.value;
    }
    assert !Unsettled(s2);
    assert NewSigners(s2, second) == s2.signers == first.minted;
    assert NewBundles(s2, second) == s2.caBundles == s2.all.data by {
      assert NewBundles(s2, second).server == s2.caBundles.server &&
             NewBundles(s2, second).metrics == s2.caBundles.metrics;
    }
    GatedSyncDoes(s2, second, budget);
    AllFresh(s2, SyncEffect(s2, second, budget), second, s.nodes);
  }

  lemma AllFresh(s: Cluster, t: Cluster, input: SyncInput, nodes: seq<Node>)
    requires LeavesSynced(s, t, input, s.signers, s.caBundles) && input.validity > 0 && t.now == s.now
    requires s.signers.server.notAfter > s.now && s.signers.metrics.notAfter > s.now
    requires |nodes| == |s.nodes| && (forall i :: 0 <= i < |nodes| ==> nodes[i].name == s.nodes[i].name) &&
             AllDue(nodes, input)
    ensures IssuedBy(t, nodes, s.signers)
  {
    forall i | 0 <= i < |nodes|
      ensures OfNode(Peer(nodes[i].name), nodes) && OfNode(Serving(nodes[i].name), nodes)
      ensures OfNode(ServingMetrics(nodes[i].name), nodes)
    {
    }
  }
}
