/** What one whole sync of the signer controller does, said in terms of the stored
    resources alone. */
module RotationEffect {
  import opened Basics
  import opened RotationModel
  import opened CertSigner

  // ----- who signs -----

  /** Every leaf a sync adds, wherever it is cut off, is signed by the signer of its
      hierarchy that is in force at its end. */
  lemma IssuersAreRight(s: Cluster, input: SyncInput, budget: nat)
    requires s.phase.Idle? && FreshSigners(input, s.now)
    ensures var t := SyncEffect(s, input, budget);
            forall l :: l in t.written && l !in s.written ==>
              match l.name
              case EtcdClient => l.issuer == t.signers.server
              case Peer(_) => l.issuer == t.signers.server
              case Serving(_) => l.issuer == t.signers.server
              case MetricsClient => l.issuer == t.signers.metrics
              case ServingMetrics(_) => l.issuer == t.signers.metrics
  {
    if HasNodeDiff(s) {
      DriveIssuers(Apply(s, StartForced), input, budget);
    } else if Stable(s) {
      DriveIssuers(Apply(s, ReadStatus), input, budget);
    }
  }

  /** The signers a running sync holds are the stored ones. */
  predicate HoldsStored(s: Cluster) {
    match s.phase
    case OneSigner(_, _, server) => server == s.signers.server
    case BothSigners(_, _, signers) => signers == s.signers
    case OneBundle(_, _, signers, _) => signers == s.signers
    case BothBundles(_, _, signers, _) => signers == s.signers
    case Leaves(_, _, signers, _, _, _) => signers == s.signers
    case _ => true
  }

  lemma {:induction false} DriveIssuers(s: Cluster, input: SyncInput, budget: nat)
    requires Running(s, input) && HoldsStored(s)
    ensures var t := Drive(s, input, budget);
            && (s.phase.Leaves? ==> t.signers == s.signers)
            && forall l :: l in t.written && l !in s.written ==>
                 var metrics := l.name.MetricsClient? || l.name.ServingMetrics?;
                 l.issuer == if metrics then t.signers.metrics else t.signers.server
    decreases budget
  {
    if !s.phase.Idle? && budget > 0 {
      DriveStep(s, input, budget);
      DriveIssuers(Apply(s, NextStep(s, input)), input, budget - 1);
    }
  }

  // ----- the leaves of a complete sync -----

  /** The leaf is kept while it is there, unexpired, of a trusted issuer and not past its
      refresh time, and otherwise signed by `g`, which it does not outlive. */
  predicate Synced(before: map<LeafName, Leaf>, leaves: map<LeafName, Leaf>, now: int, input: SyncInput, n: LeafName,
                   g: Signer, b: Bundle) {
    && n in leaves
    && leaves[n] ==
       if n in before && now <= before[n].notAfter && before[n].issuer in b && n !in input.resign
       then before[n]
       else Leaf(n, g, if now + input.validity < g.notAfter then now + input.validity else g.notAfter)
  }

  predicate OfNode(n: LeafName, nodes: seq<Node>) {
    exists i :: 0 <= i < |nodes| && n in {Peer(nodes[i].name), Serving(nodes[i].name), ServingMetrics(nodes[i].name)}
  }

  /** The clients' leaves and those of every node are synced, the others left alone, and
      the aggregated secret holds exactly those of the nodes. */
  ghost predicate LeavesSynced(s: Cluster, t: Cluster, input: SyncInput, signers: Pair<Signer>, bundles: Pair<Bundle>) {
    ManySynced(s.leafSecrets, t.leafSecrets, t.allCerts, s.now, s.nodes, input, signers, bundles)
  }

  ghost predicate ManySynced(
      before: map<LeafName, Leaf>, leaves: map<LeafName, Leaf>, all: Option<map<LeafName, Leaf>>, now: int,
      nodes: seq<Node>, input: SyncInput, signers: Pair<Signer>, bundles: Pair<Bundle>)
  {
    && Synced(before, leaves, now, input, EtcdClient, signers.server, bundles.server)
    && Synced(before, leaves, now, input, MetricsClient, signers.metrics, bundles.metrics)
    && (forall i :: 0 <= i < |nodes| ==>
          && Synced(before, leaves, now, input, Peer(nodes[i].name), signers.server, bundles.server)
          && Synced(before, leaves, now, input, Serving(nodes[i].name), signers.server, bundles.server)
          && Synced(before, leaves, now, input, ServingMetrics(nodes[i].name), signers.metrics, bundles.metrics))
    && (forall n: LeafName :: !n.EtcdClient? && !n.MetricsClient? && !OfNode(n, nodes) ==>
          (n in leaves <==> n in before) && (n in before ==> leaves[n] == before[n]))
    && all.Some?
    && (forall n :: n in all.value <==> OfNode(n, nodes))
    && (forall n :: n in all.value ==> n in leaves && all.value[n] == leaves[n])
  }

  lemma {:induction false} NamesOf(nodes: seq<Node>)
    ensures forall n: LeafName :: n in LeafNames(nodes) <==> n.EtcdClient? || n.MetricsClient? || OfNode(n, nodes)
    ensures |LeafNames(nodes)| == 2 + 3 * |nodes|
  {
    if nodes != [] {
      var before, last := nodes[..|nodes| - 1], nodes[|nodes| - 1];
      NamesOf(before);
      assert nodes == before + [last];
      forall n
        ensures OfNode(n, nodes) <==>
                  OfNode(n, before) || n in {Peer(last.name), Serving(last.name), ServingMetrics(last.name)}
      {
        if n in {Peer(last.name), Serving(last.name), ServingMetrics(last.name)} {
          assert nodes[|nodes| - 1] == last;
        }
        if OfNode(n, before) {
          var i :| && 0 <= i < |before|
                   && n in {Peer(before[i].name), Serving(before[i].name), ServingMetrics(before[i].name)};
          assert nodes[i] == before[i];
        }
      }
    }
  }

  /** What the leaf step leaves behind for a name, relative to where the leaf phase began. */
  predicate Handled(s: Cluster, t: Cluster, input: SyncInput, n: LeafName)
    requires s.phase.Leaves?
  {
    && n in t.leafSecrets
    && t.leafSecrets[n] ==
       if MustRenew(s, n, s.phase.bundles) || n in input.resign then Issue(n, s.phase.signers, s.now, input.validity)
       else if n in s.leafSecrets then s.leafSecrets[n] else t.leafSecrets[n]
  }

  predicate Frame(s: Cluster, t: Cluster) {
    t == s.(phase := t.phase, leafSecrets := t.leafSecrets, written := t.written, allCerts := t.allCerts)
  }

  predicate Untouched(s: Cluster, t: Cluster, n: LeafName) {
    (n in t.leafSecrets <==> n in s.leafSecrets) && (n in s.leafSecrets ==> t.leafSecrets[n] == s.leafSecrets[n])
  }

  /** The first `k` names are handled, and nothing else changed. */
  ghost predicate Progress(s: Cluster, t: Cluster, input: SyncInput, k: nat)
    requires s.phase.Leaves? && k <= |s.phase.names|
  {
    && Frame(s, t)
    && (forall n :: n in s.phase.names[..k] ==> Handled(s, t, input, n))
    && (forall n :: n !in s.phase.names[..k] ==> Untouched(s, t, n))
  }

  lemma LeafStep(s0: Cluster, s: Cluster, input: SyncInput)
    requires s0.phase.Leaves? && Running(s, input) && s.phase.Leaves? && s.phase == s0.phase.(done := s.phase.done)
    requires s.phase.done < |s.phase.names| && Progress(s0, s, input, s.phase.done)
    ensures var u := Apply(s, NextStep(s, input));
            u.phase == s.phase.(done := s.phase.done + 1) && Running(u, input) &&
            Progress(s0, u, input, s.phase.done + 1)
  {
    var u, names, k := Apply(s, NextStep(s, input)), s.phase.names, s.phase.done;
    assert names[..k + 1] == names[..k] + [names[k]];
    HandledNow(s0, s, input);
    forall n | n != names[k] ensures Untouched(s, u, n) { }
    hide Handled, MustRenew, Issue;
    forall n | n in names[..k + 1] ensures Handled(s0, u, input, n) {
      if n != names[k] {
        HandledStays(s0, s, u, input, n);
      }
    }
  }

  lemma HandledStays(s0: Cluster, s: Cluster, u: Cluster, input: SyncInput, n: LeafName)
    requires s0.phase.Leaves? && Handled(s0, s, input, n) && Untouched(s, u, n)
    ensures Handled(s0, u, input, n)
  {
  }

  lemma HandledNow(s0: Cluster, s: Cluster, input: SyncInput)
    requires s0.phase.Leaves? && Running(s, input) && s.phase.Leaves? && s.phase == s0.phase.(done := s.phase.done)
    requires s.phase.done < |s.phase.names| && Frame(s0, s)
    requires var n := s.phase.names[s.phase.done]; Handled(s0, s, input, n) || Untouched(s0, s, n)
    ensures Handled(s0, Apply(s, NextStep(s, input)), input, s.phase.names[s.phase.done])
  {
  }

  lemma {:induction false} LeavesDrive(s0: Cluster, s: Cluster, input: SyncInput, budget: nat)
    requires s0.phase.Leaves? && Running(s, input) && s.phase.Leaves? && s.phase == s0.phase.(done := s.phase.done)
    requires budget > |s.phase.names| - s.phase.done && Progress(s0, s, input, s.phase.done)
    ensures var t := Drive(s, input, budget);
            && t.phase.Idle? && Progress(s0, t, input, |s0.phase.names|)
            && t.allCerts == Some(Aggregate(s0.phase.names, t.leafSecrets))
    decreases budget
  {
    hide Drive;
    DriveStep(s, input, budget);
    var u := Apply(s, NextStep(s, input));
    if s.phase.done < |s.phase.names| {
      LeafStep(s0, s, input);
      hide Progress;
      LeavesDrive(s0, u, input, budget - 1);
    } else {
      DriveEnd(u, input, budget - 1);
    }
  }

  lemma HandledIsSynced(s: Cluster, t: Cluster, input: SyncInput, n: LeafName)
    requires s.phase.Leaves? && Handled(s, t, input, n)
    ensures if n.MetricsClient? || n.ServingMetrics?
            then Synced(s.leafSecrets, t.leafSecrets, s.now, input, n, s.phase.signers.metrics, s.phase.bundles.metrics)
            else Synced(s.leafSecrets, t.leafSecrets, s.now, input, n, s.phase.signers.server, s.phase.bundles.server)
  {
  }

  lemma LeafPhase(s: Cluster, input: SyncInput, budget: nat)
    requires Running(s, input) && s.phase.Leaves? && s.phase.done == 0 && s.phase.names == LeafNames(s.nodes)
    requires budget > 2 + 3 * |s.nodes|
    ensures var t := Drive(s, input, budget);
            t.phase.Idle? && Frame(s, t) && LeavesSynced(s, t, input, s.phase.signers, s.phase.bundles)
  {
    hide Drive, LeafNames, Handled, Synced;
    var t, names := Drive(s, input, budget), s.phase.names;
    NamesOf(s.nodes);
    assert names[..0] == [] && names[..|names|] == names;
    LeavesDrive(s, s, input, budget);
    forall n | n in names
      ensures if n.MetricsClient? || n.ServingMetrics?
              then
                Synced(s.leafSecrets, t.leafSecrets, s.now, input, n, s.phase.signers.metrics, s.phase.bundles.metrics)
              else Synced(s.leafSecrets, t.leafSecrets, s.now, input, n, s.phase.signers.server, s.phase.bundles.server)
    {
      HandledIsSynced(s, t, input, n);
    }
    forall i | 0 <= i < |s.nodes|
      ensures Peer(s.nodes[i].name) in names && Serving(s.nodes[i].name) in names &&
              ServingMetrics(s.nodes[i].name) in names
    {
      assert OfNode(Peer(s.nodes[i].name), s.nodes) && OfNode(Serving(s.nodes[i].name), s.nodes);
      assert OfNode(ServingMetrics(s.nodes[i].name), s.nodes);
    }
    InAggregate(s, t, input);
  }

  lemma InAggregate(s: Cluster, t: Cluster, input: SyncInput)
    requires s.phase.Leaves? && (forall n :: n in s.phase.names ==> Handled(s, t, input, n))
    requires forall n: LeafName :: n in s.phase.names <==> n.EtcdClient? || n.MetricsClient? || OfNode(n, s.nodes)
    ensures forall n :: n in Aggregate(s.phase.names, t.leafSecrets) <==> OfNode(n, s.nodes)
  {
  }

  // ----- a whole sync -----

  /** The signers a sync goes on with: minted ones where the old are due or expired. */
  function NewSigners(s: Cluster, input: SyncInput): Pair<Signer> {
    Pair(if input.due.server || s.now > s.signers.server.notAfter then input.minted.server else s.signers.server,
         if input.due.metrics || s.now > s.signers.metrics.notAfter then input.minted.metrics else s.signers.metrics)
  }

  /** The CA bundles with those signers and without expired ones. */
  function NewBundles(s: Cluster, input: SyncInput): Pair<Bundle> {
    var sg := NewSigners(s, input);
    Pair(set g | g in s.caBundles.server + {sg.server} && g.notAfter > s.now,
         set g | g in s.caBundles.metrics + {sg.metrics} && g.notAfter > s.now)
  }

  lemma SignersPart(s: Cluster, input: SyncInput, budget: nat)
    requires s.phase.Started? && FreshSigners(input, s.now) && budget >= 2
    ensures var sg := NewSigners(s, input);
            var t := s.(signers := sg, phase := BothSigners(s.phase.cur, s.phase.rot, sg));
            Running(t, input) && Drive(s, input, budget) == Drive(t, input, budget - 2)
  {
    var s1 := Apply(s, NextStep(s, input));
    var s2 := Apply(s1, NextStep(s1, input));
    hide Drive;
    DriveStep(s, input, budget);
    DriveStep(s1, input, budget - 1);
  }

  lemma BundlesPart(s: Cluster, input: SyncInput, budget: nat)
    requires s.phase.BothSigners? && FreshSigners(input, s.now) && budget >= 3
    ensures var sg := s.phase.signers;
            var b := Pair(set g | g in s.caBundles.server + {sg.server} && g.notAfter > s.now,
                          set g | g in s.caBundles.metrics + {sg.metrics} && g.notAfter > s.now);
            if b.server == {} then
              Drive(s, input, budget) == s.(caBundles := Pair({}, s.caBundles.metrics), phase := Idle)
            else if b.metrics == {} then Drive(s, input, budget) == s.(caBundles := b, phase := Idle)
            else
              var t := s.(caBundles := b, phase := BothBundles(s.phase.cur, s.phase.rot, sg, b));
              Running(t, input) && Drive(s, input, budget) == Drive(AfterApplyBundles(t), input, budget - 3)
  {
    var s1 := Apply(s, EnsureBundle);
    hide Drive;
    DriveStep(s, input, budget);
    if s1.phase.Idle? {
      DriveEnd(s1, input, budget - 1);
    } else {
      var s2 := Apply(s1, EnsureBundle);
      DriveStep(s1, input, budget - 1);
      if s2.phase.Idle? {
        DriveEnd(s2, input, budget - 2);
      } else {
        DriveStep(s2, input, budget - 2);
      }
    }
  }

  /** Some node is not at the latest revision or between revisions, or there is none. */
  predicate Unsettled(s: Cluster) {
    s.nodes == [] ||
    exists i :: && 0 <= i < |s.nodes|
                && (s.nodes[i].current != s.latest ||
                    (s.nodes[i].target > 0 && s.nodes[i].target != s.nodes[i].current))
  }

  lemma UnsettledIsUnstable(s: Cluster)
    ensures Unsettled(s) <==> !Stable(s)
  {
    if i :| 0 <= i < |s.nodes| && NodeInProgress(s.nodes[i], s.latest) {
      assert RolloutInProgress(s.nodes, s.latest);
    }
    forall i | 0 <= i < |s.nodes|
      ensures NodeInProgress(s.nodes[i], s.latest) <==>
              s.nodes[i].current != s.latest || (s.nodes[i].target > 0 && s.nodes[i].target != s.nodes[i].current)
    {
    }
  }

  /** A gated sync.  The signers are renewed when due or expired and join their bundles,
      which expired ones leave; a bundle that got empty ends the sync.  A changed aggregate
      is written with the latest revision as its tag and ends it too, and so does a latest
      revision that is not past the tag; only then come the leaves. */
  lemma GatedSyncDoes(s: Cluster, input: SyncInput, budget: nat)
    requires s.phase.Idle? && FreshSigners(input, s.now) && budget > 7 + 3 * |s.nodes|
    requires s.allCerts.Some? && forall i :: 0 <= i < |s.nodes| ==> Serving(s.nodes[i].name) in s.allCerts.value
    ensures var t, sg, b := SyncEffect(s, input, budget), NewSigners(s, input), NewBundles(s, input);
            if Unsettled(s) then t == s
            else if b.server == {} then t == s.(signers := sg, caBundles := Pair({}, s.caBundles.metrics))
            else if b.metrics == {} then t == s.(signers := sg, caBundles := b)
            else if s.all.data != b then t == s.(signers := sg, caBundles := b, all := AllBundles(b, s.latest))
            else if s.latest <= s.all.tag then t == s.(signers := sg, caBundles := b)
            else
              var u := s.(leafSecrets := t.leafSecrets, written := t.written, allCerts := t.allCerts);
              t == u.(signers := sg, caBundles := b) && LeavesSynced(s, t, input, sg, b)
  {
    hide Drive, LeavesSynced, HasNodeDiff, Stable, SyncEffect, AfterApplyBundles, Unsettled;
    GatedStart(s, input, budget);
    if !Unsettled(s) {
      var sg, b := NewSigners(s, input), NewBundles(s, input);
      var u := s.(phase := Started(s.latest, s.all.tag));
      SignersPart(u, input, budget);
      var v := u.(signers := sg, phase := BothSigners(s.latest, s.all.tag, sg));
      BundlesPart(v, input, budget - 2);
      if b.server != {} && b.metrics != {} {
        var w := v.(caBundles := b, phase := BothBundles(s.latest, s.all.tag, sg, b));
        PastBundles(w, input, budget - 5);
        SameInput(s, w, Drive(AfterApplyBundles(w), input, budget - 5), input, sg, b);
      }
    }
  }

  lemma SameInput(s: Cluster, w: Cluster, t: Cluster, input: SyncInput, signers: Pair<Signer>, bundles: Pair<Bundle>)
    requires s.now == w.now && s.nodes == w.nodes && s.leafSecrets == w.leafSecrets
    ensures LeavesSynced(w, t, input, signers, bundles) <==> LeavesSynced(s, t, input, signers, bundles)
  {
    hide ManySynced;
  }

  lemma GatedStart(s: Cluster, input: SyncInput, budget: nat)
    requires s.phase.Idle? && FreshSigners(input, s.now)
    requires s.allCerts.Some? && forall i :: 0 <= i < |s.nodes| ==> Serving(s.nodes[i].name) in s.allCerts.value
    ensures SyncEffect(s, input, budget) ==
            if Unsettled(s) then s else Drive(s.(phase := Started(s.latest, s.all.tag)), input, budget)
  {
    UnsettledIsUnstable(s);
    hide Drive, Stable;
  }

  lemma PastBundles(s: Cluster, input: SyncInput, budget: nat)
    requires s.phase.BothBundles? && FreshSigners(input, s.now) && budget > 2 + 3 * |s.nodes|
    ensures Running(AfterApplyBundles(s), input)
    ensures var b, t := s.phase.bundles, Drive(AfterApplyBundles(s), input, budget);
            if s.all.data != b then t == s.(all := AllBundles(b, s.phase.cur), phase := Idle)
            else if s.phase.cur <= s.phase.rot then t == s.(phase := Idle)
            else t == s.(leafSecrets := t.leafSecrets, written := t.written, allCerts := t.allCerts, phase := Idle)
                 && LeavesSynced(s, t, input, s.phase.signers, b)
  {
    var w := AfterApplyBundles(s);
    if w.phase.Idle? {
      DriveEnd(w, input, budget);
    } else {
      LeafPhase(w, input, budget);
    }
    hide Drive;
  }

  /** A sync for a node whose certificate is missing, or without the aggregated secret,
      leaves signers and bundles alone and syncs the leaves with the stored ones. */
  lemma ForcedSyncDoes(s: Cluster, input: SyncInput, budget: nat)
    requires s.phase.Idle? && FreshSigners(input, s.now) && budget > 7 + 3 * |s.nodes|
    requires s.allCerts.None? || exists i :: 0 <= i < |s.nodes| && Serving(s.nodes[i].name) !in s.allCerts.value
    ensures var t := SyncEffect(s, input, budget);
            && t == s.(leafSecrets := t.leafSecrets, written := t.written, allCerts := t.allCerts)
            && LeavesSynced(s, t, input, s.signers, s.caBundles)
  {
    var u := Apply(s, StartForced);
    LeafPhase(u, input, budget);
  }
}
