/** Where the gate's two assumptions are needed: the tag of the aggregate, exactly, and runs
    that break trust without them. */
module RotationLimits {
  import opened Basics
  import opened RotationModel
  import opened RotationSafety

  /** Writing a changed bundle keeps the gate's meaning exactly when no revision was
      created since the status read that supplies its annotation. */
  lemma TagIsExact(s: Cluster)
    requires Inv(s) && s.phase.BothBundles? && s.phase.bundles != s.all.data
    ensures GateInv(Apply(s, ApplyBundles)) <==> s.phase.cur == s.latest
  {
  }

  const OLD := Signer(1, 100)
  const NEW := Signer(2, 200)
  const OLD_BUNDLES: Pair<Bundle> := Pair({OLD}, {OLD})
  const BOTH_BUNDLES: Pair<Bundle> := Pair({OLD, NEW}, {OLD})

  const OLD_LEAVES: map<LeafName, Leaf> :=
    map n | n in {EtcdClient, MetricsClient, Peer(7), Serving(7), ServingMetrics(7)} :: Leaf(n, OLD, 100)

  /** One node on revision 1, everything signed by `OLD`. */
  const START := Cluster(0, Pair(OLD, OLD), OLD_BUNDLES, AllBundles(OLD_BUNDLES, 0), map[1 := OLD_BUNDLES], 1,
                         [Node(7, 1, 0, 1, OLD_BUNDLES)], OLD_LEAVES, Some(OLD_LEAVES),
                         set n | n in OLD_LEAVES :: OLD_LEAVES[n], Idle)

  /** A run grows by one enabled step. */
  lemma {:induction false} Then(s0: Cluster, steps: seq<Step>, s: Cluster, step: Step)
        returns (longer: seq<Step>, t: Cluster)
    requires Runnable(s0, steps) && Run(s0, steps) == s && Enabled(s, step)
    ensures longer == steps + [step] && t == Apply(s, step)
    ensures Runnable(s0, longer) && Run(s0, longer) == t
    decreases |steps|
  {
    longer, t := steps + [step], Apply(s, step);
    if steps == [] {
      assert longer[1..] == [];
    } else {
      var _, _ := Then(Apply(s0, steps[0]), steps[1..], s, step);
      assert longer[1..] == steps[1..] + [step];
    }
  }

  /** One whole bundle sync of `START`'s cluster while no clock ticks. */
  lemma SyncUpToGate(s0: Cluster, steps: seq<Step>, s: Cluster, r: Option<Signer>)
        returns (longer: seq<Step>, t: Cluster)
    requires Runnable(s0, steps) && Run(s0, steps) == s && s.phase.Started? && s.now == 0
    requires s.signers == Pair(if r.Some? then OLD else NEW, OLD) && (r.Some? ==> r.value == NEW)
    requires s.caBundles == OLD_BUNDLES || s.caBundles == BOTH_BUNDLES
    ensures Runnable(s0, longer) && Run(s0, longer) == t
    ensures t == AfterApplyBundles(s.(signers := Pair(NEW, OLD), caBundles := BOTH_BUNDLES,
                                      phase := BothBundles(s.phase.cur, s.phase.rot, Pair(NEW, OLD), BOTH_BUNDLES)))
  {
    longer, t := Then(s0, steps, s, EnsureSigner(r));
    longer, t := Then(s0, longer, t, EnsureSigner(None));
    longer, t := Then(s0, longer, t, EnsureBundle);
    assert t.caBundles.server == {OLD, NEW};
    longer, t := Then(s0, longer, t, EnsureBundle);
    assert t.caBundles.metrics == {OLD};
    longer, t := Then(s0, longer, t, ApplyBundles);
  }

  /** The node moves to revision 2 as it was snapshotted. */
  lemma InstallTwo(s0: Cluster, steps: seq<Step>, s: Cluster) returns (longer: seq<Step>, t: Cluster)
    requires Runnable(s0, steps) && Run(s0, steps) == s
    requires s.latest == 2 && 2 in s.snaps && s.nodes == START.nodes
    ensures Runnable(s0, longer) && Run(s0, longer) == t
    ensures t == s.(nodes := [Node(7, 2, 0, 2, s.snaps[2])])
  {
    longer, t := Then(s0, steps, s, SetTarget(0));
    longer, t := Then(s0, longer, t, Launch(0, false));
    longer, t := Then(s0, longer, t, Report(0));
  }

  lemma StartInit()
    ensures Init(START) && !HasNodeDiff(START) && Stable(START)
  {
  }

  /** The cluster after the badly tagged write, with revision 2 installed. */
  const TAGGED_LOW := START.(signers := Pair(NEW, OLD), caBundles := BOTH_BUNDLES, all := AllBundles(BOTH_BUNDLES, 1),
                             snaps := map[1 := OLD_BUNDLES, 2 := OLD_BUNDLES], latest := 2,
                             nodes := [Node(7, 2, 0, 2, OLD_BUNDLES)])

  lemma TaggedLowReachable() returns (steps: seq<Step>)
    ensures Runnable(START, steps) && Run(START, steps) == TAGGED_LOW
  {
    StartInit();
    var s := START;
    steps, s := Then(START, [], s, ReadStatus);
    steps, s := Then(START, steps, s, CreateRevision);
    steps, s := SyncUpToGate(START, steps, s, Some(NEW));
    assert NEW in BOTH_BUNDLES.server && NEW !in OLD_BUNDLES.server;
    steps, s := InstallTwo(START, steps, s);
    assert s.snaps == TAGGED_LOW.snaps;
  }

  /** A revision created after the status read but before the tagged bundle write carries
      the old bundle above the annotation.  Once it is installed the gate opens and a
      certificate appears that the node cannot verify. */
  lemma StaleTagBreaksTrust() returns (steps: seq<Step>)
    ensures Runnable(START, steps) && !Trust(Run(START, steps))
    ensures var t := Run(START, steps); t.phase.Leaves? && !t.phase.forced
  {
    var s := TAGGED_LOW;
    steps := TaggedLowReachable();
    assert !NodeInProgress(s.nodes[0], 2);
    steps, s := Then(START, steps, s, ReadStatus);
    steps, s := SyncUpToGate(START, steps, s, None);
    assert s.phase == Leaves(false, 2, Pair(NEW, OLD), BOTH_BUNDLES, LeafNames(s.nodes), 0);
    var name := s.phase.names[0];
    assert name == EtcdClient by {
      assert LeafNames(s.nodes) == LeafNames([]) + [Peer(7), Serving(7), ServingMetrics(7)];
    }
    steps, s := Then(START, steps, s, EnsureLeaf(true, 50));
    var l := Leaf(EtcdClient, NEW, 50);
    assert l in s.written && Live(l, s.now) && s.nodes[0].running > 0 && NEW !in s.nodes[0].trusts.server;
  }

  /** The bundle has grown, with an exact tag, and a second node has joined. */
  const JOINED := START.(signers := Pair(NEW, OLD), caBundles := BOTH_BUNDLES, all := AllBundles(BOTH_BUNDLES, 1),
                         nodes := START.nodes + [Node(8, 0, 0, 0, Pair({}, {}))])

  lemma JoinedReachable() returns (steps: seq<Step>)
    ensures Runnable(START, steps) && Run(START, steps) == JOINED
  {
    StartInit();
    var s := START;
    steps, s := Then(START, [], s, ReadStatus);
    steps, s := SyncUpToGate(START, steps, s, Some(NEW));
    assert NEW in BOTH_BUNDLES.server && NEW !in OLD_BUNDLES.server;
    steps, s := Then(START, steps, s, AddNode(8));
  }

  lemma JoinedNames()
    ensures |LeafNames(JOINED.nodes)| == 8 && LeafNames(JOINED.nodes)[5] == Peer(8)
    ensures LeafNames(JOINED.nodes)[..5] == [EtcdClient, MetricsClient, Peer(7), Serving(7), ServingMetrics(7)]
  {
    assert JOINED.nodes[..1] == START.nodes && START.nodes[..0] == [];
    assert LeafNames(START.nodes) == LeafNames([]) + [Peer(7), Serving(7), ServingMetrics(7)];
    assert LeafNames(JOINED.nodes) == LeafNames(START.nodes) + [Peer(8), Serving(8), ServingMetrics(8)];
  }

  /** While a rotation is under way the path for a new node signs its certificates at
      once with the new signer: every tag is exact in this run, yet the running node is left behind. */
  lemma NodeDifferenceBreaksTrust() returns (steps: seq<Step>)
    ensures Runnable(START, steps) && !Trust(Run(START, steps)) && GateInv(Run(START, steps))
  {
    var s := JOINED;
    steps := JoinedReachable();
    JoinedNames();
    hide LeafNames;
    assert s.nodes[1].name == 8;
    steps, s := Then(START, steps, s, StartForced);
    steps, s := KeepLeaves(START, steps, s);
    steps, s := Then(START, steps, s, EnsureLeaf(true, 50));
    var l := Leaf(Peer(8), NEW, 50);
    assert l in s.written && Live(l, s.now) && s.nodes[0].running > 0 && NEW !in s.nodes[0].trusts.server;
  }

  /** The certificates that exist are left alone. */
  lemma KeepLeaves(s0: Cluster, steps: seq<Step>, s: Cluster) returns (longer: seq<Step>, t: Cluster)
    requires Runnable(s0, steps) && Run(s0, steps) == s && s.now == 0
    requires s.phase.Leaves? && s.phase.done == 0 && |s.phase.names| > 5 && s.phase.bundles == BOTH_BUNDLES
    requires s.leafSecrets == OLD_LEAVES
    requires s.phase.names[..5] == [EtcdClient, MetricsClient, Peer(7), Serving(7), ServingMetrics(7)]
    ensures Runnable(s0, longer) && Run(s0, longer) == t
    ensures t == s.(phase := s.phase.(done := 5))
  {
    longer, t := steps, s;
    for k := 0 to 5
      invariant Runnable(s0, longer) && Run(s0, longer) == t && t == s.(phase := s.phase.(done := k))
    {
      assert s.phase.names[k] == s.phase.names[..5][k] && s.phase.names[k] in OLD_LEAVES;
      longer, t := Then(s0, longer, t, EnsureLeaf(false, 0));
    }
  }
}
