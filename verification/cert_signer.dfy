/** The signer controller itself: one sync as ordered API calls, cut off after any of them. */
module CertSigner {
  import opened Basics
  import opened RotationModel
  import opened RotationSafety

  /** What the world supplies to one sync: whether the signers are due for renewal and
      the key pairs generated if so, the leaves past their refresh time, and the
      configured leaf validity. */
  datatype SyncInput = SyncInput(due: Pair<bool>, minted: Pair<Signer>, resign: set<LeafName>, validity: nat)

  predicate FreshSigners(input: SyncInput, now: int) {
    input.minted.server.notAfter > now && input.minted.metrics.notAfter > now
  }

  function RenewedSigner(s: Cluster, input: SyncInput, c: Chain): Option<Signer> {
    if input.due.Get(c) || s.now > s.signers.Get(c).notAfter then Some(input.minted.Get(c)) else None
  }

  /** The call a running sync makes next. */
  function NextStep(s: Cluster, input: SyncInput): (step: Step)
    requires !s.phase.Idle? && FreshSigners(input, s.now)
    requires s.phase.Leaves? ==> s.phase.done <= |s.phase.names|
    ensures Enabled(s, step) && !Apply(s, step).phase.Idle? ==> Apply(s, step).now == s.now
    ensures Enabled(s, step)
  {
    match s.phase
    case Started(_, _) => EnsureSigner(RenewedSigner(s, input, Server))
    case OneSigner(_, _, _) => EnsureSigner(RenewedSigner(s, input, Metrics))
    case BothSigners(_, _, _) => EnsureBundle
    case OneBundle(_, _, _, _) => EnsureBundle
    case BothBundles(_, _, _, _) => ApplyBundles
    case Leaves(_, _, _, bundles, names, done) =>
      if done < |names| then
        EnsureLeaf(MustRenew(s, names[done], bundles) || names[done] in input.resign, input.validity)
      else
        ApplyAllCerts
  }

  predicate Running(s: Cluster, input: SyncInput) {
    FreshSigners(input, s.now) && (s.phase.Leaves? ==> s.phase.done <= |s.phase.names|)
  }

  /** A sync run to its end, or to the crash after `budget` calls. */
  function Drive(s: Cluster, input: SyncInput, budget: nat): (t: Cluster)
    requires Running(s, input)
    ensures t.phase.Idle? && t.now == s.now && t.snaps == s.snaps && t.latest == s.latest && t.nodes == s.nodes
    decreases budget
  {
    if s.phase.Idle? then s
    else if budget == 0 then Apply(s, Crash)
    else Drive(Apply(s, NextStep(s, input)), input, budget - 1)
  }

  function SyncEffect(s: Cluster, input: SyncInput, budget: nat): (t: Cluster)
    requires s.phase.Idle? && FreshSigners(input, s.now)
    ensures t.phase.Idle? && t.now == s.now && t.snaps == s.snaps && t.latest == s.latest && t.nodes == s.nodes
  {
    if HasNodeDiff(s) then Drive(Apply(s, StartForced), input, budget)
    else if !Stable(s) then s
    else Drive(Apply(s, ReadStatus), input, budget)
  }

  lemma DriveStep(s: Cluster, input: SyncInput, budget: nat)
    requires Running(s, input) && !s.phase.Idle? && budget > 0
    ensures Running(Apply(s, NextStep(s, input)), input)
    ensures Drive(s, input, budget) == Drive(Apply(s, NextStep(s, input)), input, budget - 1)
  {
  }

  lemma DriveEnd(s: Cluster, input: SyncInput, budget: nat)
    requires Running(s, input) && (s.phase.Idle? || budget == 0)
    ensures Drive(s, input, budget) == s.(phase := Idle)
  {
  }

  lemma AggregateNext(names: seq<LeafName>, k: nat, before: map<LeafName, Leaf>, after: map<LeafName, Leaf>)
    requires k < |names| && names[k] in after
    requires forall n :: n in names[..k] ==> n in before
    requires forall n :: n != names[k] ==> (n in after <==> n in before) && (n in before ==> after[n] == before[n])
    ensures Aggregate(names[..k + 1], after) ==
            if names[k].EtcdClient? || names[k].MetricsClient? then Aggregate(names[..k], before)
            else Aggregate(names[..k], before)[names[k] := after[names[k]]]
  {
  }

  /** A gated sync keeps the gate's invariant wherever it is cut off. */
  lemma {:induction false} DriveInv(s: Cluster, input: SyncInput, budget: nat)
    requires Inv(s) && Running(s, input)
    requires !s.phase.Idle? && !s.phase.Leaves? ==> s.phase.cur == s.latest
    requires s.phase.Leaves? ==> !s.phase.forced
    ensures Inv(Drive(s, input, budget)) && Drive(s, input, budget).phase.Idle?
    decreases budget
  {
    if s.phase.Idle? {
    } else if budget == 0 {
      StepInv(s, Crash);
    } else {
      var step := NextStep(s, input);
      StepInv(s, step);
      DriveInv(Apply(s, step), input, budget - 1);
    }
  }

  lemma GatedSyncInv(s: Cluster, input: SyncInput, budget: nat)
    requires Inv(s) && s.phase.Idle? && FreshSigners(input, s.now) && !HasNodeDiff(s)
    ensures Inv(SyncEffect(s, input, budget))
  {
    if Stable(s) {
      StepInv(s, ReadStatus);
      DriveInv(Apply(s, ReadStatus), input, budget);
    }
  }

  /** A sync without interference is one of the runs the safety theorem speaks of. */
  lemma {:induction false} DriveIsRun(s: Cluster, input: SyncInput, budget: nat) returns (steps: seq<Step>)
    requires Running(s, input)
    ensures Runnable(s, steps) && Run(s, steps) == Drive(s, input, budget)
    decreases budget
  {
    if s.phase.Idle? {
      steps := [];
    } else if budget == 0 {
      steps := [Crash];
      assert steps[1..] == [];
    } else {
      var rest := DriveIsRun(Apply(s, NextStep(s, input)), input, budget - 1);
      steps := [NextStep(s, input)] + rest;
      assert steps[1..] == rest;
    }
  }

  /** The object the controller and the API server form together.  The fields are the
      stored resources, the node statuses and the clock. */
  class Controller {
    var now: int
    var signers: Pair<Signer>
    var caBundles: Pair<Bundle>
    var all: AllBundles
    var snaps: map<nat, Pair<Bundle>>
    var latest: nat
    var nodes: seq<Node>
    var leafSecrets: map<LeafName, Leaf>
    var allCerts: Option<map<LeafName, Leaf>>
    ghost var written: set<Leaf>
    ghost var phase: Phase

    constructor (s: Cluster)
      requires s.phase.Idle?
      ensures View() == s
    {
      now, signers, caBundles, all, snaps, latest := s.now, s.signers, s.caBundles, s.all, s.snaps, s.latest;
      nodes, leafSecrets, allCerts, written, phase := s.nodes, s.leafSecrets, s.allCerts, s.written, s.phase;
    }

    ghost function View(): Cluster
      reads this
    {
      Cluster(now, signers, caBundles, all, snaps, latest, nodes, leafSecrets, allCerts, written, phase)
    }

    /** The scan over the node statuses. */
    method RevisionRolloutInProgress() returns (inProgress: bool)
      ensures inProgress == RolloutInProgress(nodes, latest)
    {
      for i := 0 to |nodes|
        invariant !RolloutInProgress(nodes[..i], latest)
      {
        assert nodes[..i + 1] == nodes[..i] + [nodes[i]];
        if (nodes[i].target > 0 && nodes[i].current != nodes[i].target) || nodes[i].current != latest {
          assert NodeInProgress(nodes[i], latest);
          return true;
        }
      }
      assert nodes[..|nodes|] == nodes;
      return false;
    }

    method CurrentRevision() returns (r: Result<nat>)
      ensures r.Ok? <==> Stable(View())
      ensures r.Ok? ==> r.value == latest
    {
      var inProgress := RevisionRolloutInProgress();
      if inProgress || |nodes| == 0 {
        return Err;
      }
      for i := 0 to |nodes| {
        if latest != nodes[i].current {
          assert NodeInProgress(nodes[i], latest);
          return Err;
        }
      }
      return Ok(latest);
    }

    method HasNodeCertDiff() returns (diff: bool)
      ensures diff == HasNodeDiff(View())
    {
      if allCerts.None? {
        return true;
      }
      for i := 0 to |nodes|
        invariant forall k :: 0 <= k < i ==> Serving(nodes[k].name) in allCerts.value
      {
        if Serving(nodes[i].name) !in allCerts.value {
          return true;
        }
      }
      return false;
    }

    method EnsureSigningCertKeyPair(c: Chain, due: bool, minted: Signer) returns (g: Signer)
      requires minted.notAfter > now
      requires if c.Server? then phase.Started? else phase.OneSigner?
      modifies this`signers, this`phase
      ensures var r := if due || now > old(signers).Get(c).notAfter then Some(minted) else None;
              Enabled(old(View()), EnsureSigner(r)) && View() == Apply(old(View()), EnsureSigner(r))
      ensures g == signers.Get(c)
    {
      g := signers.Get(c);
      if due || now > g.notAfter {
        g := minted;
        signers := if c.Server? then signers.(server := g) else signers.(metrics := g);
      }
      phase := if c.Server? then OneSigner(phase.cur, phase.rot, g)
               else BothSigners(phase.cur, phase.rot, Pair(phase.server, g));
    }

    method EnsureConfigMapCABundle(c: Chain, g: Signer) returns (r: Result<Bundle>)
      requires if c.Server? then phase.BothSigners? else phase.OneBundle?
      requires g == phase.signers.Get(c)
      modifies this`caBundles, this`phase
      ensures View() == Apply(old(View()), EnsureBundle)
      ensures r.Err? <==> phase.Idle?
      ensures r.Ok? ==> r.value == caBundles.Get(c)
    {
      var certificates := caBundles.Get(c) + {g};
      var valid := set x | x in certificates && x.notAfter > now;
      caBundles := if c.Server? then caBundles.(server := valid) else caBundles.(metrics := valid);
      r := if valid == {} then Err else Ok(valid);
      phase := if r.Err? then Idle
               else if c.Server? then OneBundle(phase.cur, phase.rot, phase.signers, valid)
               else BothBundles(phase.cur, phase.rot, phase.signers, Pair(phase.serverBundle, valid));
    }

    /** Writes the aggregated bundle if it changed; `rolloutTriggered` says whether. */
    method ApplyBundleConfigMap(bundles: Pair<Bundle>, currentRevision: nat, rotationRevision: nat)
          returns (proceed: bool)
      requires phase.BothBundles? && phase.bundles == bundles && phase.cur == currentRevision &&
               phase.rot == rotationRevision
      modifies this`all, this`phase
      ensures View() == Apply(old(View()), ApplyBundles)
      ensures proceed <==> phase.Leaves?
    {
      var rolloutTriggered := all.data != bundles;
      if rolloutTriggered {
        all := AllBundles(bundles, currentRevision);
      }
      proceed := !rolloutTriggered && !(currentRevision <= rotationRevision);
      phase := if proceed then Leaves(false, currentRevision, phase.signers, bundles, LeafNames(nodes), 0) else Idle;
    }

    method EnsureTargetCertKeyPair(name: LeafName, signerPair: Pair<Signer>, bundles: Pair<Bundle>, due: bool,
                                   validity: nat)
      requires phase.Leaves? && phase.done < |phase.names| && phase.names[phase.done] == name
      requires phase.signers == signerPair && phase.bundles == bundles
      modifies this`leafSecrets, this`written, this`phase
      ensures var step := EnsureLeaf(MustRenew(old(View()), name, bundles) || due, validity);
              Enabled(old(View()), step) && View() == Apply(old(View()), step)
      ensures name in leafSecrets
    {
      var c := name.Chain();
      if due || name !in leafSecrets || now > leafSecrets[name].notAfter ||
         leafSecrets[name].issuer !in bundles.Get(c) {
        var g := signerPair.Get(c);
        var l := Leaf(name, g, if now + validity < g.notAfter then now + validity else g.notAfter);
        leafSecrets := leafSecrets[name := l];
        written := written + {l};
      }
      phase := phase.(done := phase.done + 1);
    }

    /** Client certificates first, then those of every node, then the aggregated secret.
        Returns false when the crash comes first. */
    method SyncLeafCertificates(signerPair: Pair<Signer>, bundles: Pair<Bundle>, names: seq<LeafName>,
                                input: SyncInput, budget: nat)
      requires phase.Leaves? && phase.done == 0 && phase.names == names
      requires phase.signers == signerPair && phase.bundles == bundles
      requires FreshSigners(input, now)
      modifies this`leafSecrets, this`written, this`phase, this`allCerts
      ensures View() == Drive(old(View()), input, budget)
    {
      hide Drive, HasNodeDiff, Stable;
      var certs: map<LeafName, Leaf> := map[];
      assert certs == Aggregate(names[..0], leafSecrets);
      var left := budget;
      for k := 0 to |names|
        invariant phase.Leaves? && phase.done == k && phase.names == names
        invariant phase.signers == signerPair && phase.bundles == bundles
        invariant Running(View(), input)
        invariant Drive(View(), input, left) == Drive(old(View()), input, budget)
        invariant forall n :: n in names[..k] ==> n in leafSecrets
        invariant certs == Aggregate(names[..k], leafSecrets)
      {
        if left == 0 {
          DriveEnd(View(), input, 0);
          phase := Idle;
          return;
        }
        ghost var before := View();
        DriveStep(before, input, left);
        EnsureTargetCertKeyPair(names[k], signerPair, bundles, names[k] in input.resign, input.validity);
        left := left - 1;
        assert View() == Apply(before, NextStep(before, input));
        AggregateNext(names, k, before.leafSecrets, leafSecrets);
        assert names[..k + 1] == names[..k] + [names[k]];
        if !names[k].EtcdClient? && !names[k].MetricsClient? {
          certs := certs[names[k] := leafSecrets[names[k]]];
        }
      }
      assert names[..|names|] == names;
      if left == 0 {
        DriveEnd(View(), input, 0);
        phase := Idle;
        return;
      }
      DriveStep(View(), input, left);
      allCerts := Some(certs);
      phase := Idle;
      DriveEnd(View(), input, left - 1);
    }

    /** One sync after bootstrap with the aggregated bundle present.  `budget` is the
        number of further API calls it gets to make. */
    method Sync(input: SyncInput, budget: nat)
      requires phase.Idle? && FreshSigners(input, now)
      modifies this
      ensures View() == SyncEffect(old(View()), input, budget)
    {
      var diff := HasNodeCertDiff();
      if diff {
        phase := Leaves(true, 0, signers, caBundles, LeafNames(nodes), 0);
        SyncLeafCertificates(signers, caBundles, LeafNames(nodes), input, budget);
        return;
      }
      var current := CurrentRevision();
      if current.Err? {
        return;
      }
      var rotationRevision := all.tag;
      phase := Started(current.value, rotationRevision);
      SyncAllMasterCertificates(current.value, rotationRevision, input, budget);
    }

    method SyncAllMasterCertificates(currentRevision: nat, rotationRevision: nat, input: SyncInput, budget: nat)
      requires phase == Started(currentRevision, rotationRevision) && FreshSigners(input, now)
      modifies this
      ensures View() == Drive(old(View()), input, budget)
    {
      hide Drive, HasNodeDiff, Stable;
      if budget == 0 {
        DriveEnd(View(), input, 0);
        phase := Idle;
        return;
      }
      var server := EnsureSigningCertKeyPair(Server, input.due.server, input.minted.server);
      assert View() == Apply(old(View()), NextStep(old(View()), input));
      DriveStep(old(View()), input, budget);
      if budget == 1 {
        DriveEnd(View(), input, 0);
        phase := Idle;
        return;
      }
      ghost var second := View();
      DriveStep(second, input, budget - 1);
      var metrics := EnsureSigningCertKeyPair(Metrics, input.due.metrics, input.minted.metrics);
      assert View() == Apply(second, NextStep(second, input));
      EnsureBundles(Pair(server, metrics), currentRevision, rotationRevision, input, budget - 2);
    }

    method EnsureBundles(pair: Pair<Signer>, currentRevision: nat, rotationRevision: nat, input: SyncInput, budget: nat)
      requires phase == BothSigners(currentRevision, rotationRevision, pair) && FreshSigners(input, now)
      modifies this
      ensures View() == Drive(old(View()), input, budget)
    {
      hide Drive, HasNodeDiff, Stable;
      if budget == 0 {
        DriveEnd(View(), input, 0);
        phase := Idle;
        return;
      }
      DriveStep(View(), input, budget);
      var serverBundle := EnsureConfigMapCABundle(Server, pair.server);
      if serverBundle.Err? || budget == 1 {
        DriveEnd(View(), input, budget - 1);
        phase := Idle;
        return;
      }
      DriveStep(View(), input, budget - 1);
      var metricsBundle := EnsureConfigMapCABundle(Metrics, pair.metrics);
      if metricsBundle.Err? || budget == 2 {
        DriveEnd(View(), input, budget - 2);
        phase := Idle;
        return;
      }
      DriveStep(View(), input, budget - 2);
      var bundles := Pair(serverBundle.value, metricsBundle.value);
      var proceed := ApplyBundleConfigMap(bundles, currentRevision, rotationRevision);
      if proceed {
        SyncLeafCertificates(pair, bundles, LeafNames(nodes), input, budget - 3);
      } else {
        DriveEnd(View(), input, budget - 3);
      }
    }
  }
}
