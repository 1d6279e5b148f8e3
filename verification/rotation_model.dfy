/** The certificate rotation protocol as a transition system over values.

    One `Cluster` value holds everything the signer controller and the static pod
    machinery read and write.  Every API call of a sync is a separate step, so that
    revision creation, node installs, the clock and a controller crash can fall
    between any two of them. */
module RotationModel {
  import opened Basics

  /** The two certificate hierarchies: etcd itself and its metrics endpoint. */
  datatype Chain = Server | Metrics

  /** A signing certificate: its identity and the end of its validity. */
  datatype Signer = Signer(id: nat, notAfter: int)

  type Bundle = set<Signer>

  datatype Pair<T> = Pair(server: T, metrics: T) {
    function Get(c: Chain): T {
      if c.Server? then server else metrics
    }
  }

  datatype LeafName = EtcdClient | MetricsClient | Peer(node: nat) | Serving(node: nat) | ServingMetrics(node: nat) {
    function Chain(): Chain {
      if MetricsClient? || ServingMetrics? then Metrics else Server
    }
  }

  datatype Leaf = Leaf(name: LeafName, issuer: Signer, notAfter: int)

  /** The configmap etcd-all-bundles: its data and the revision in its rollout
      annotation (0 when the annotation is absent, as the controller reads it). */
  datatype AllBundles = AllBundles(data: Pair<Bundle>, tag: nat)

  /** A control plane node: the revisions its status reports, the revision its etcd
      pod really runs (0: none) and the trust bundle that pod was started with. */
  datatype Node = Node(name: nat, current: nat, target: nat, running: nat, trusts: Pair<Bundle>)

  /** Where a sync stands, with the values it has read so far. */
  datatype Phase =
    | Idle
    | Started(cur: nat, rot: nat)
    | OneSigner(cur: nat, rot: nat, server: Signer)
    | BothSigners(cur: nat, rot: nat, signers: Pair<Signer>)
    | OneBundle(cur: nat, rot: nat, signers: Pair<Signer>, serverBundle: Bundle)
    | BothBundles(cur: nat, rot: nat, signers: Pair<Signer>, bundles: Pair<Bundle>)
    | Leaves(forced: bool, cur: nat, signers: Pair<Signer>, bundles: Pair<Bundle>, names: seq<LeafName>, done: nat)

  datatype Cluster = Cluster(
    now: int,
    signers: Pair<Signer>,
    caBundles: Pair<Bundle>,
    all: AllBundles,
    snaps: map<nat, Pair<Bundle>>,
    latest: nat,
    nodes: seq<Node>,
    leafSecrets: map<LeafName, Leaf>,
    allCerts: Option<map<LeafName, Leaf>>,   // the aggregated secret, if it exists
    written: set<Leaf>,      // every leaf certificate ever written
    phase: Phase)

  datatype Step =
    // the signer controller
    | ReadStatus
    | StartForced
    | EnsureSigner(renewed: Option<Signer>)
    | EnsureBundle
    | ApplyBundles
    | EnsureLeaf(renew: bool, validity: nat)
    | ApplyAllCerts
    | Crash
    // everybody else
    | Tick(dt: nat)
    | CreateRevision
    | SetTarget(i: nat)
    | Launch(i: nat, fromLive: bool)
    | Report(i: nat)
    | Abandon(i: nat)
    | AddNode(name: nat)
    | RemoveNode(i: nat)

  // ----- what the controller computes -----

  predicate NodeInProgress(n: Node, latest: nat) {
    (n.target > 0 && n.current != n.target) || n.current != latest
  }

  predicate RolloutInProgress(nodes: seq<Node>, latest: nat) {
    exists i :: 0 <= i < |nodes| && NodeInProgress(nodes[i], latest)
  }

  /** CurrentRevision succeeds exactly when some node exists and none is in progress,
      and then yields the latest revision. */
  predicate Stable(s: Cluster) {
    s.nodes != [] && !RolloutInProgress(s.nodes, s.latest)
  }

  /** The aggregated secret is missing, or some node's serving certificate is not in it. */
  predicate HasNodeDiff(s: Cluster) {
    s.allCerts.None? || exists i :: 0 <= i < |s.nodes| && Serving(s.nodes[i].name) !in s.allCerts.value
  }

  function Unexpired(b: Bundle, now: int): Bundle {
    set g | g in b && g.notAfter > now
  }

  function LeafNames(nodes: seq<Node>): seq<LeafName> {
    if nodes == [] then [EtcdClient, MetricsClient]
    else
      var n := nodes[|nodes| - 1].name;
      LeafNames(nodes[..|nodes| - 1]) + [Peer(n), Serving(n), ServingMetrics(n)]
  }

  function Min(a: int, b: int): int {
    if a < b then a else b
  }

  /** The secret that gathers the per-node certificates of a sync. */
  function Aggregate(names: seq<LeafName>, secrets: map<LeafName, Leaf>): map<LeafName, Leaf> {
    map n | n in names && n in secrets && !n.EtcdClient? && !n.MetricsClient? :: secrets[n]
  }

  /** A leaf never outlives its signer. */
  function Issue(name: LeafName, signers: Pair<Signer>, now: int, validity: nat): Leaf {
    var g := signers.Get(name.Chain());
    Leaf(name, g, Min(now + validity, g.notAfter))
  }

  /** The cases in which a leaf certificate is always re-signed. */
  predicate MustRenew(s: Cluster, name: LeafName, bundles: Pair<Bundle>) {
    name !in s.leafSecrets || s.now > s.leafSecrets[name].notAfter ||
    s.leafSecrets[name].issuer !in bundles.Get(name.Chain())
  }

  // ----- steps -----

  predicate Enabled(s: Cluster, step: Step) {
    match step
    case ReadStatus => s.phase.Idle? && !HasNodeDiff(s) && Stable(s)
    case StartForced => s.phase.Idle? && HasNodeDiff(s)
    case EnsureSigner(r) =>
      (s.phase.Started? || s.phase.OneSigner?) &&
      (if r.Some? then r.value.notAfter > s.now
       else s.now <= s.signers.Get(if s.phase.Started? then Server else Metrics).notAfter)
    case EnsureBundle => s.phase.BothSigners? || s.phase.OneBundle?
    case ApplyBundles => s.phase.BothBundles?
    case EnsureLeaf(renew, _) =>
      s.phase.Leaves? && s.phase.done < |s.phase.names| &&
      (MustRenew(s, s.phase.names[s.phase.done], s.phase.bundles) ==> renew)
    case ApplyAllCerts => s.phase.Leaves? && s.phase.done == |s.phase.names|
    case Crash => true
    case Tick(_) => true
    case CreateRevision => true
    case SetTarget(i) => i < |s.nodes| && s.latest > s.nodes[i].target && s.latest > s.nodes[i].current
    case Launch(i, _) => i < |s.nodes| && s.nodes[i].target > s.nodes[i].running && s.nodes[i].target in s.snaps
    case Report(i) => i < |s.nodes|
    case Abandon(i) => i < |s.nodes|
    case AddNode(_) => true
    case RemoveNode(i) => i < |s.nodes|
  }

  function AfterSigner(s: Cluster, r: Option<Signer>): Cluster
    requires s.phase.Started? || s.phase.OneSigner?
  {
    if s.phase.Started? then
      var g := if r.Some? then r.value else s.signers.server;
      s.(signers := s.signers.(server := g), phase := OneSigner(s.phase.cur, s.phase.rot, g))
    else
      var g := if r.Some? then r.value else s.signers.metrics;
      s.(signers := s.signers.(metrics := g), phase := BothSigners(s.phase.cur, s.phase.rot, Pair(s.phase.server, g)))
  }

  /** The signer joins its CA bundle and expired signers leave it.  An empty result is
      written and then reported as an error. */
  function AfterBundle(s: Cluster): Cluster
    requires s.phase.BothSigners? || s.phase.OneBundle?
  {
    if s.phase.BothSigners? then
      var b := Unexpired(s.caBundles.server + {s.phase.signers.server}, s.now);
      s.(caBundles := s.caBundles.(server := b),
         phase := if b == {} then Idle else OneBundle(s.phase.cur, s.phase.rot, s.phase.signers, b))
    else
      var b := Unexpired(s.caBundles.metrics + {s.phase.signers.metrics}, s.now);
      s.(caBundles := s.caBundles.(metrics := b),
         phase := if b == {} then Idle
                  else BothBundles(s.phase.cur, s.phase.rot, s.phase.signers, Pair(s.phase.serverBundle, b)))
  }

  /** A changed bundle is written with the revision read at the start as its tag and
      ends the sync; an unchanged one lets the sync reach the revision gate. */
  function AfterApplyBundles(s: Cluster): Cluster
    requires s.phase.BothBundles?
  {
    if s.all.data != s.phase.bundles then
      s.(all := AllBundles(s.phase.bundles, s.phase.cur), phase := Idle)
    else if s.phase.cur <= s.phase.rot then
      s.(phase := Idle)
    else
      s.(phase := Leaves(false, s.phase.cur, s.phase.signers, s.phase.bundles, LeafNames(s.nodes), 0))
  }

  function AfterLeaf(s: Cluster, renew: bool, validity: nat): Cluster
    requires s.phase.Leaves? && s.phase.done < |s.phase.names|
  {
    var name := s.phase.names[s.phase.done];
    var rest := s.(phase := s.phase.(done := s.phase.done + 1));
    if renew then
      var l := Issue(name, s.phase.signers, s.now, validity);
      rest.(leafSecrets := s.leafSecrets[name := l], written := s.written + {l})
    else
      rest
  }

  function WithNode(s: Cluster, i: nat, n: Node): Cluster
    requires i < |s.nodes|
  {
    s.(nodes := s.nodes[i := n])
  }

  function Apply(s: Cluster, step: Step): Cluster
    requires Enabled(s, step)
  {
    match step
    case ReadStatus => s.(phase := Started(s.latest, s.all.tag))
    case StartForced => s.(phase := Leaves(true, 0, s.signers, s.caBundles, LeafNames(s.nodes), 0))
    case EnsureSigner(r) => AfterSigner(s, r)
    case EnsureBundle => AfterBundle(s)
    case ApplyBundles => AfterApplyBundles(s)
    case EnsureLeaf(renew, validity) => AfterLeaf(s, renew, validity)
    case ApplyAllCerts => s.(allCerts := Some(Aggregate(s.phase.names, s.leafSecrets)), phase := Idle)
    case Crash => s.(phase := Idle)
    case Tick(dt) => s.(now := s.now + dt)
    case CreateRevision => s.(latest := s.latest + 1, snaps := s.snaps[s.latest + 1 := s.all.data])
    case SetTarget(i) => WithNode(s, i, s.nodes[i].(target := s.latest))
    case Launch(i, fromLive) =>
      var n := s.nodes[i];
      WithNode(s, i, n.(running := n.target, trusts := if fromLive then s.all.data else s.snaps[n.target]))
    case Report(i) => WithNode(s, i, s.nodes[i].(current := s.nodes[i].running, target := 0))
    case Abandon(i) => WithNode(s, i, s.nodes[i].(target := 0))
    case AddNode(name) => s.(nodes := s.nodes + [Node(name, 0, 0, 0, Pair({}, {}))])
    case RemoveNode(i) => s.(nodes := s.nodes[..i] + s.nodes[i + 1..])
  }

  predicate Runnable(s: Cluster, steps: seq<Step>)
    decreases |steps|
  {
    steps == [] || (Enabled(s, steps[0]) && Runnable(Apply(s, steps[0]), steps[1..]))
  }

  function Run(s: Cluster, steps: seq<Step>): Cluster
    requires Runnable(s, steps)
    decreases |steps|
  {
    if steps == [] then s else Run(Apply(s, steps[0]), steps[1..])
  }

  // ----- the property -----

  /** The certificate can still be presented to a peer. */
  predicate Live(l: Leaf, now: int) {
    l.notAfter > now
  }

  /** No running node meets a live leaf certificate whose issuer it does not trust. */
  predicate Trust(s: Cluster) {
    forall l, i :: l in s.written && Live(l, s.now) && 0 <= i < |s.nodes| && s.nodes[i].running > 0 ==>
      match l.name
      case EtcdClient => l.issuer in s.nodes[i].trusts.server
      case Peer(_) => l.issuer in s.nodes[i].trusts.server
      case Serving(_) => l.issuer in s.nodes[i].trusts.server
      case MetricsClient => l.issuer in s.nodes[i].trusts.metrics
      case ServingMetrics(_) => l.issuer in s.nodes[i].trusts.metrics
  }

  /** A consistent cluster right after bootstrap: one revision, installed everywhere,
      whose bundle holds the issuer of every leaf. */
  predicate Init(s: Cluster) {
    && s.phase.Idle?
    && s.latest > 0
    && s.all.tag <= s.latest
    && s.snaps == map[s.latest := s.all.data]
    && s.caBundles == s.all.data
    && (forall i :: 0 <= i < |s.nodes| ==>
          s.nodes[i].current == s.latest && s.nodes[i].running == s.latest && s.nodes[i].target == 0 &&
          s.nodes[i].trusts == s.all.data)
    && (forall l :: l in s.written ==> l.issuer in s.all.data.Get(l.name.Chain()) && l.notAfter <= l.issuer.notAfter)
  }
}
