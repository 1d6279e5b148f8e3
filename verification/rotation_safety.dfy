/** The rotation gate keeps every running node able to verify every live certificate. */
module RotationSafety {
  import opened RotationModel

  /** The oldest revision a node can still start, given what it runs or is told to run. */
  function Floor(n: Node, latest: nat): nat {
    if n.current > 0 then n.current
    else if n.running > 0 then n.running
    else if n.target > 0 then n.target
    else latest
  }

  predicate NodesInv(s: Cluster) {
    && s.latest > 0 && s.latest in s.snaps
    && (forall r :: r in s.snaps ==> r <= s.latest)
    && s.all.tag <= s.latest
    && forall i :: 0 <= i < |s.nodes| ==>
         && s.nodes[i].current <= s.nodes[i].running <= s.latest
         && s.nodes[i].target <= s.latest
         && s.all.tag <= Floor(s.nodes[i], s.latest)
  }

  /** What the integer comparison of the gate stands for: every revision above the
      rollout annotation carries the current aggregated bundle. */
  predicate GateInv(s: Cluster) {
    && (forall r :: r in s.snaps && r > s.all.tag ==> s.snaps[r] == s.all.data)
    && (forall i :: 0 <= i < |s.nodes| && s.nodes[i].running > s.all.tag ==> s.nodes[i].trusts == s.all.data)
  }

  /** The CA bundles the aggregate is built from never lag behind it. */
  predicate BundleInv(s: Cluster) {
    forall c: Chain, g :: g in s.all.data.Get(c) && g.notAfter > s.now ==> g in s.caBundles.Get(c)
  }

  /** The issuer of a live leaf is in the aggregate, in every bundle a node runs with
      and in every snapshot a node can start next. */
  predicate LeafInv(s: Cluster) {
    forall l :: l in s.written ==> l.notAfter <= l.issuer.notAfter && Honoured(s, l)
  }

  predicate Honoured(s: Cluster, l: Leaf) {
    Live(l, s.now) ==> Known(s, l.issuer, l.name.Chain())
  }

  /** A node about to start a revision can do so with the snapshot of its target, one that
      is yet to be told with that of the latest, one told of a later revision with the aggregate. */
  predicate Known(s: Cluster, g: Signer, c: Chain) {
    && g in s.all.data.Get(c)
    && s.latest in s.snaps && g in s.snaps[s.latest].Get(c)
    && (forall i :: 0 <= i < |s.nodes| && s.nodes[i].running > 0 ==> g in s.nodes[i].trusts.Get(c))
    && (forall i :: 0 <= i < |s.nodes| && Startable(s, s.nodes[i]) ==> g in s.snaps[s.nodes[i].target].Get(c))
  }

  predicate Startable(s: Cluster, n: Node) {
    n.target > n.running && n.target in s.snaps
  }

  /** Every node, now or later, starts only revisions from `r` on. */
  predicate AllFrom(s: Cluster, r: nat) {
    && r <= s.latest
    && forall i :: 0 <= i < |s.nodes| ==> r <= Floor(s.nodes[i], s.latest)
  }

  /** The signers at hand are in the given bundles, unless they expired meanwhile. */
  predicate Carried(signers: Pair<Signer>, bundles: Pair<Bundle>, now: int) {
    forall c: Chain :: signers.Get(c).notAfter > now ==> signers.Get(c) in bundles.Get(c)
  }

  predicate ReadsInv(s: Cluster, cur: nat, rot: nat) {
    rot == s.all.tag && rot <= cur && AllFrom(s, cur)
  }

  predicate PhaseInv(s: Cluster) {
    match s.phase
    case Idle => true
    case Started(cur, rot) => ReadsInv(s, cur, rot)
    case OneSigner(cur, rot, _) => ReadsInv(s, cur, rot)
    case BothSigners(cur, rot, _) => ReadsInv(s, cur, rot)
    case OneBundle(cur, rot, signers, b) =>
      ReadsInv(s, cur, rot) && b == s.caBundles.server &&
      (signers.server.notAfter > s.now ==> signers.server in b)
    case BothBundles(cur, rot, signers, bundles) =>
      ReadsInv(s, cur, rot) && bundles == s.caBundles && Carried(signers, bundles, s.now)
    case Leaves(forced, cur, signers, _, _, _) =>
      !forced ==> cur > s.all.tag && AllFrom(s, cur) && Carried(signers, s.all.data, s.now)
  }

  predicate Inv(s: Cluster) {
    NodesInv(s) && GateInv(s) && BundleInv(s) && LeafInv(s) && PhaseInv(s)
  }

  /** The two assumptions on a run: no revision is created between the status read and
      a bundle write it tags, and the path that skips the gate for a new node re-signs only
      what every node can verify. */
  predicate Admissible(s: Cluster, step: Step)
    requires Enabled(s, step)
  {
    && (step.ApplyBundles? && s.all.data != s.phase.bundles ==> s.phase.cur == s.latest)
    && (step.EnsureLeaf? && s.phase.forced && step.renew ==> Honoured(s, NextLeaf(s, step.validity)))
  }

  /** The leaf certificate a sync signs next if it re-signs. */
  function NextLeaf(s: Cluster, validity: nat): Leaf
    requires s.phase.Leaves? && s.phase.done < |s.phase.names|
  {
    Issue(s.phase.names[s.phase.done], s.phase.signers, s.now, validity)
  }

  predicate AdmissibleRun(s: Cluster, steps: seq<Step>)
    decreases |steps|
  {
    steps == [] ||
    (Enabled(s, steps[0]) && Admissible(s, steps[0]) && AdmissibleRun(Apply(s, steps[0]), steps[1..]))
  }

  lemma InitInv(s: Cluster)
    requires Init(s)
    ensures Inv(s)
  {
  }

  // ----- one lemma per family of steps -----

  lemma ClockInv(s: Cluster, dt: nat)
    requires Inv(s)
    ensures Inv(Apply(s, Tick(dt)))
  {
  }

  lemma CreateRevisionInv(s: Cluster)
    requires Inv(s)
    ensures Inv(Apply(s, CreateRevision))
  {
    var t := Apply(s, CreateRevision);
    forall i | 0 <= i < |t.nodes| ensures Floor(s.nodes[i], s.latest) <= Floor(t.nodes[i], t.latest) { }
    forall l | l in t.written ensures Honoured(t, l) {
      assert Honoured(s, l);
    }
  }

  /** A node may be replaced by one that starts no older revision and trusts no less. */
  lemma NodeChangeInv(s: Cluster, i: nat, n: Node)
    requires Inv(s) && i < |s.nodes|
    requires n.current <= n.running <= s.latest && n.target <= s.latest && s.nodes[i].running <= n.running
    requires Floor(s.nodes[i], s.latest) <= Floor(n, s.latest)
    requires (n.trusts == s.nodes[i].trusts && n.running == s.nodes[i].running)
      || (n.trusts == s.all.data)
      || (Startable(s, s.nodes[i]) && n.running == s.nodes[i].target && n.trusts == s.snaps[n.running])
    requires n.target > n.running ==> n.target == s.latest || n.target == s.nodes[i].target
    ensures Inv(WithNode(s, i, n))
  {
  }

  lemma NodeStepInv(s: Cluster, step: Step)
    requires Inv(s) && Enabled(s, step)
    requires step.SetTarget? || step.Launch? || step.Report? || step.Abandon?
    ensures Inv(Apply(s, step))
  {
    var n := s.nodes[step.i];
    match step
    case SetTarget(i) => NodeChangeInv(s, i, n.(target := s.latest));
    case Launch(i, live) =>
      NodeChangeInv(s, i, n.(running := n.target, trusts := if live then s.all.data else s.snaps[n.target]));
    case Report(i) => NodeChangeInv(s, i, n.(current := n.running, target := 0));
    case Abandon(i) => NodeChangeInv(s, i, n.(target := 0));
  }

  lemma AddNodeInv(s: Cluster, name: nat)
    requires Inv(s)
    ensures Inv(Apply(s, AddNode(name)))
  {
  }

  lemma RemoveNodeInv(s: Cluster, i: nat)
    requires Inv(s) && i < |s.nodes|
    ensures Inv(Apply(s, RemoveNode(i)))
  {
  }

  /** Steps that leave the aggregate, revisions, nodes and leaves alone. */
  lemma FrameInv(s: Cluster, t: Cluster)
    requires Inv(s) && PhaseInv(t) && BundleInv(t)
    requires t == s.(phase := t.phase, signers := t.signers, allCerts := t.allCerts, caBundles := t.caBundles)
    ensures Inv(t)
  {
  }

  lemma ReadStatusInv(s: Cluster)
    requires Inv(s) && Enabled(s, ReadStatus)
    ensures Inv(Apply(s, ReadStatus))
  {
  }

  lemma EnsureBundleInv(s: Cluster)
    requires Inv(s) && Enabled(s, EnsureBundle)
    ensures Inv(Apply(s, EnsureBundle))
  {
    hide NodesInv, GateInv, LeafInv, Known;
    FrameInv(s, Apply(s, EnsureBundle));
  }

  lemma ApplyBundlesInv(s: Cluster)
    requires Inv(s) && Enabled(s, ApplyBundles) && Admissible(s, ApplyBundles)
    ensures Inv(Apply(s, ApplyBundles))
  {
    var t := Apply(s, ApplyBundles);
    if s.all.data == s.phase.bundles {
      FrameInv(s, t);
    } else {
      forall l | l in t.written ensures Honoured(t, l) {
        assert Honoured(s, l);
        assert Live(l, t.now) ==> l.issuer in s.caBundles.Get(l.name.Chain());
      }
    }
  }

  /** With the bundle rolled out past the annotation, a signer in it is known everywhere. */
  lemma RolledOutIsKnown(s: Cluster, g: Signer, c: Chain)
    requires Inv(s) && s.all.tag < s.latest && AllFrom(s, s.all.tag + 1) && g in s.all.data.Get(c)
    ensures Known(s, g, c)
  {
    forall i | 0 <= i < |s.nodes|
      ensures s.nodes[i].running > 0 ==> s.nodes[i].running > s.all.tag
      ensures Startable(s, s.nodes[i]) ==> s.nodes[i].target > s.all.tag
    {
      assert Floor(s.nodes[i], s.latest) > s.all.tag;
    }
  }

  /** Writing a leaf changes nothing that decides who knows a signer. */
  lemma SameKnown(s: Cluster, t: Cluster)
    requires t == s.(phase := t.phase, leafSecrets := t.leafSecrets, written := t.written, allCerts := t.allCerts)
    ensures forall g, c :: Known(t, g, c) == Known(s, g, c)
    ensures forall l :: Honoured(t, l) == Honoured(s, l)
    ensures Inv(s) && PhaseInv(t) ==>
              (Inv(t) <==> forall l :: l in t.written ==> l.notAfter <= l.issuer.notAfter && Honoured(t, l))
  {
    forall g, c ensures Known(t, g, c) == Known(s, g, c) {
      assert forall n :: Startable(t, n) == Startable(s, n);
    }
    assert NodesInv(s) ==> NodesInv(t);
    assert BundleInv(s) ==> BundleInv(t);
  }

  /** Re-signing a leaf keeps the invariant exactly when the new leaf can be verified by
      every node that runs or can start next. */
  lemma EnsureLeafIsExact(s: Cluster, validity: nat)
    requires Inv(s) && s.phase.Leaves? && s.phase.done < |s.phase.names|
    ensures Inv(Apply(s, EnsureLeaf(true, validity))) <==> Honoured(s, NextLeaf(s, validity))
  {
    var t := Apply(s, EnsureLeaf(true, validity));
    SameKnown(s, t);
    hide Known, Honoured, NodesInv, GateInv, BundleInv;
    assert NextLeaf(s, validity) in t.written;
  }

  lemma EnsureLeafInv(s: Cluster, renew: bool, validity: nat)
    requires Inv(s) && Enabled(s, EnsureLeaf(renew, validity)) && Admissible(s, EnsureLeaf(renew, validity))
    ensures Inv(Apply(s, EnsureLeaf(renew, validity)))
  {
    if renew {
      if !s.phase.forced {
        GatedLeafIsKnown(s, validity);
      }
      EnsureLeafIsExact(s, validity);
    } else {
      FrameInv(s, Apply(s, EnsureLeaf(renew, validity)));
    }
  }

  /** Behind the open gate every node can verify the next leaf. */
  lemma GatedLeafIsKnown(s: Cluster, validity: nat)
    requires Inv(s) && s.phase.Leaves? && s.phase.done < |s.phase.names| && !s.phase.forced
    ensures Honoured(s, NextLeaf(s, validity))
  {
    var l := NextLeaf(s, validity);
    if Live(l, s.now) {
      assert AllFrom(s, s.all.tag + 1);
      RolledOutIsKnown(s, l.issuer, l.name.Chain());
    }
  }

  lemma StepInv(s: Cluster, step: Step)
    requires Inv(s) && Enabled(s, step) && Admissible(s, step)
    ensures Inv(Apply(s, step))
  {
    hide LeafInv, Known, Honoured;
    match step
    case ReadStatus => ReadStatusInv(s);
    case StartForced => FrameInv(s, Apply(s, step));
    case EnsureSigner(_) => FrameInv(s, Apply(s, step));
    case EnsureBundle => EnsureBundleInv(s);
    case ApplyBundles => ApplyBundlesInv(s);
    case EnsureLeaf(renew, validity) => EnsureLeafInv(s, renew, validity);
    case ApplyAllCerts => FrameInv(s, Apply(s, step));
    case Crash => FrameInv(s, Apply(s, step));
    case Tick(dt) => ClockInv(s, dt);
    case CreateRevision => CreateRevisionInv(s);
    case SetTarget(_) => NodeStepInv(s, step);
    case Launch(_, _) => NodeStepInv(s, step);
    case Report(_) => NodeStepInv(s, step);
    case Abandon(_) => NodeStepInv(s, step);
    case AddNode(name) => AddNodeInv(s, name);
    case RemoveNode(i) => RemoveNodeInv(s, i);
  }

  lemma {:induction false} RunInv(s: Cluster, steps: seq<Step>)
    requires Inv(s) && AdmissibleRun(s, steps)
    ensures Runnable(s, steps) && Inv(Run(s, steps))
    decreases |steps|
  {
    if steps != [] {
      StepInv(s, steps[0]);
      RunInv(Apply(s, steps[0]), steps[1..]);
    }
  }

  lemma InvTrust(s: Cluster)
    requires Inv(s)
    ensures Trust(s)
  {
  }

  /** Main theorem: whatever the interleaving of syncs, crashes, revision creation, node
      installs, node arrivals and the clock, no running node meets a live certificate
      whose issuer it does not trust. */
  lemma GateKeepsTrust(s: Cluster, steps: seq<Step>)
    requires Init(s) && AdmissibleRun(s, steps)
    ensures Runnable(s, steps) && Trust(Run(s, steps)) && GateInv(Run(s, steps))
  {
    InitInv(s);
    RunInv(s, steps);
    InvTrust(Run(s, steps));
  }
}
