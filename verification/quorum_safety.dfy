/** Fault tolerance of the quorum and the decision whether scaling is safe. */
module QuorumSafety {
  import opened Basics
  import opened MemberCache

  function HealthyCount(h: Health): nat {
    |WithHealth(h, true)|
  }

  method IsQuorumFaultTolerant(h: Health) returns (tolerant: bool)
    ensures tolerant <==> h != [] && forall k :: 0 <= k < |h| ==> QuorumWithout(h, k)
  {
    ToleranceIsExact(h);
    var totalMembers := |h|;
    var quorum := MinimumTolerableQuorum(totalMembers);
    if quorum.Err? {
      return false;
    }
    var healthyMembers := CountHealthy(h);
    if totalMembers - quorum.value < 1 {
      return false;
    }
    if healthyMembers - quorum.value < 1 {
      return false;
    }
    return true;
  }

  datatype ToleranceError = InvalidLength | NotTolerant | TooFewHealthy

  /** The variant that says why not; None is success. */
  method IsQuorumFaultTolerantErr(h: Health) returns (error: Option<ToleranceError>)
    ensures error.None? <==> Tolerant(h)
    ensures error == Some(InvalidLength) <==> h == []
    ensures error == Some(NotTolerant) <==> 1 <= |h| <= 2
  {
    var totalMembers := |h|;
    var quorum := MinimumTolerableQuorum(totalMembers);
    if quorum.Err? {
      return Some(InvalidLength);
    }
    var healthyMembers := CountHealthy(h);
    if totalMembers - quorum.value < 1 {
      return Some(NotTolerant);
    }
    if healthyMembers - quorum.value < 1 {
      return Some(TooFewHealthy);
    }
    return None;
  }

  method CountHealthy(h: Health) returns (n: nat)
    ensures n == HealthyCount(h)
  {
    n := 0;
    for k := 0 to |h|
      invariant n == HealthyCount(h[..k])
    {
      assert h[..k + 1][..k] == h[..k];
      if h[k].healthy {
        n := n + 1;
      }
    }
    assert h[..|h|] == h;
  }

  /** The check as both functions make it. */
  predicate Tolerant(h: Health) {
    |h| > 0 && |h| - (|h| / 2 + 1) >= 1 && HealthyCount(h) - (|h| / 2 + 1) >= 1
  }

  function Without(h: Health, k: nat): Health
    requires k < |h|
  {
    h[..k] + h[k + 1..]
  }

  /** The healthy members other than `k` are a quorum of all. */
  predicate QuorumWithout(h: Health, k: nat)
    requires k < |h|
  {
    HealthyCount(Without(h, k)) >= |h| / 2 + 1
  }

  lemma {:induction false} HealthyAppend(a: Health, b: Health)
    ensures HealthyCount(a + b) == HealthyCount(a) + HealthyCount(b)
  {
    if b == [] {
      assert a + b == a;
    } else {
      assert (a + b)[..|a + b| - 1] == a + b[..|b| - 1];
      HealthyAppend(a, b[..|b| - 1]);
    }
  }

  lemma HealthyWithout(h: Health, k: nat)
    requires k < |h|
    ensures HealthyCount(h) == HealthyCount(Without(h, k)) + if h[k].healthy then 1 else 0
  {
    assert h == h[..k] + [h[k]] + h[k + 1..];
    HealthyAppend(h[..k] + [h[k]], h[k + 1..]);
    HealthyAppend(h[..k], [h[k]]);
    HealthyAppend(h[..k], h[k + 1..]);
    assert [h[k]][..0] == [];
  }

  lemma {:induction false} SomeHealthy(h: Health)
    ensures HealthyCount(h) <= |h|
    ensures HealthyCount(h) > 0 ==> exists k :: 0 <= k < |h| && h[k].healthy
  {
    if h != [] {
      SomeHealthy(h[..|h| - 1]);
      if HealthyCount(h[..|h| - 1]) > 0 {
        var k :| 0 <= k < |h| - 1 && h[..|h| - 1][k].healthy;
        assert h[k].healthy;
      }
    }
  }

  /** Fault tolerant means: there are members, and whichever one is lost, the healthy ones
      left are a quorum. */
  lemma ToleranceIsExact(h: Health)
    ensures Tolerant(h) <==> h != [] && forall k :: 0 <= k < |h| ==> QuorumWithout(h, k)
  {
    SomeHealthy(h);
    forall k | 0 <= k < |h| ensures HealthyCount(h) == HealthyCount(Without(h, k)) + if h[k].healthy then 1 else 0 {
      HealthyWithout(h, k);
    }
    if h != [] && forall k :: 0 <= k < |h| ==> QuorumWithout(h, k) {
      assert QuorumWithout(h, 0);
      var k :| 0 <= k < |h| && h[k].healthy;
      assert QuorumWithout(h, k);
    }
  }

  // ----- scaling -----

  datatype Strategy = HA | DelayedHA | TwoNode | DelayedTwoNode | BootstrapInPlace | Unsafe

  datatype Topology = HighlyAvailable | HighlyAvailableArbiter | SingleReplica | DualReplica | OtherTopology

  /** `latest` and the nodes' current revisions. */
  datatype Revisions = Revisions(latest: nat, current: seq<nat>)

  predicate RevisionStable(r: Revisions) {
    r.latest != 0 && forall k :: 0 <= k < |r.current| ==> r.current[k] == r.latest
  }

  method IsRevisionStable(r: Revisions) returns (stable: bool)
    ensures stable <==> RevisionStable(r)
  {
    if r.latest == 0 {
      return false;
    }
    for k := 0 to |r.current|
      invariant forall j :: 0 <= j < k ==> r.current[j] == r.latest
    {
      if r.current[k] != r.latest {
        return false;
      }
    }
    return true;
  }

  function StrategyOf(unsupportedUnsafe: bool, topology: Topology, delayed: bool): Strategy {
    if unsupportedUnsafe || topology.SingleReplica? then Unsafe
    else if topology.DualReplica? then if delayed then DelayedTwoNode else TwoNode
    else if delayed then DelayedHA
    else HA
  }

  /** Whether scaling is considered safe; each answer may also be an error. */
  method CheckSafeToScaleCluster(revisions: Result<Revisions>, strategy: Result<Strategy>, health: Result<Health>)
        returns (safe: bool)
    ensures safe <==> SafeToScale(revisions, strategy, health)
  {
    if revisions.Err? {
      return false;
    }
    var revisionStable := IsRevisionStable(revisions.value);
    if !revisionStable {
      return true;
    }
    if strategy.Err? {
      return false;
    }
    var minimumNodes;
    match strategy.value {
      case Unsafe => return true;
      case HA => minimumNodes := 3;
      case DelayedHA => minimumNodes := 3;
      case TwoNode => minimumNodes := 2;
      case DelayedTwoNode => minimumNodes := 2;
      case BootstrapInPlace => return false;
    }
    if health.Err? {
      return false;
    }
    ToleranceIsExact(health.value);
    SomeHealthy(health.value);
    var healthy := CountHealthy(health.value);
    if healthy < minimumNodes {
      return false;
    }
    var error := IsQuorumFaultTolerantErr(health.value);
    return error.None? || (|health.value| == 2 && (strategy.value.TwoNode? || strategy.value.DelayedTwoNode?));
  }

  /** Safe while a revision rolls out or without a strategy to enforce; otherwise when any
      single member can be lost, where two-node clusters of two healthy members are exempt. */
  predicate SafeToScale(revisions: Result<Revisions>, strategy: Result<Strategy>, health: Result<Health>) {
    revisions.Ok? &&
    (RevisionStable(revisions.value) ==>
       && strategy.Ok?
       && (strategy.value.Unsafe? ||
           (health.Ok? && !strategy.value.BootstrapInPlace? && Survives(strategy.value, health.value))))
  }

  predicate Survives(strategy: Strategy, h: Health) {
    || (h != [] && forall k :: 0 <= k < |h| ==> QuorumWithout(h, k))
    || ((strategy.TwoNode? || strategy.DelayedTwoNode?) && |h| == 2 && HealthyCount(h) == 2)
  }

  lemma TwoHealthy(h: Health)
    requires |h| == 2
    ensures HealthyCount(h) == 2 <==> h[0].healthy && h[1].healthy
  {
    assert h == [] + [h[0]] + [h[1]];
    HealthAppend([], h[0]);
    HealthAppend([] + [h[0]], h[1]);
  }

  /** The decision in the terms of its inputs. */
  lemma SafeIsExact(revisions: Revisions, unsafe: bool, topology: Topology, delayed: bool, h: Health)
    ensures SafeToScale(Ok(revisions), Ok(StrategyOf(unsafe, topology, delayed)), Ok(h)) <==>
              || revisions.latest == 0
              || (exists k :: 0 <= k < |revisions.current| && revisions.current[k] != revisions.latest)
              || unsafe || topology == SingleReplica
              || (h != [] && forall k :: 0 <= k < |h| ==> |WithHealth(h[..k] + h[k + 1..], true)| >= |h| / 2 + 1)
              || (topology == DualReplica && |h| == 2 && h[0].healthy && h[1].healthy)
    ensures forall strategy, health :: !SafeToScale(Err, strategy, health)
    ensures SafeToScale(Ok(revisions), Err, Ok(h)) <==>
              || revisions.latest == 0
              || exists k :: 0 <= k < |revisions.current| && revisions.current[k] != revisions.latest
    ensures SafeToScale(Ok(revisions), Ok(BootstrapInPlace), Ok(h)) <==> SafeToScale(Ok(revisions), Err, Ok(h))
  {
    if |h| == 2 {
      TwoHealthy(h);
    }
    assert RevisionStable(revisions) <==>
             && revisions.latest != 0
             && !exists k :: 0 <= k < |revisions.current| && revisions.current[k] != revisions.latest;
    forall k | 0 <= k < |h| ensures QuorumWithout(h, k) <==> |WithHealth(h[..k] + h[k + 1..], true)| >= |h| / 2 + 1 { }
    assert (forall k :: 0 <= k < |h| ==> QuorumWithout(h, k)) <==>
             forall k :: 0 <= k < |h| ==> |WithHealth(h[..k] + h[k + 1..], true)| >= |h| / 2 + 1;
    hide QuorumWithout, HealthyCount;
  }

  // ----- voters -----

  predicate LearnerFree(h: Health) {
    forall k :: 0 <= k < |h| ==> !h[k].member.learner
  }

  function HealthyVoters(h: Health): nat {
    |Voters(WithHealth(h, true))|
  }

  /** The healthy voters other than `k` are a quorum of the voters. */
  predicate VotersSurvive(h: Health, k: nat)
    requires k < |h|
  {
    HealthyVoters(Without(h, k)) >= |Voters(Members(h))| / 2 + 1
  }

  lemma VotersAppend(ms: seq<Member>, m: Member)
    ensures Voters(ms + [m]) == Voters(ms) + if m.learner then [] else [m]
  {
  }

  lemma HealthAppend(h: Health, c: HealthCheck)
    ensures WithHealth(h + [c], true) == WithHealth(h, true) + if c.healthy then [c.member] else []
    ensures Members(h + [c]) == Members(h) + [c.member]
    ensures Voters(WithHealth(h + [c], true)) ==
            Voters(WithHealth(h, true)) + if c.healthy && !c.member.learner then [c.member] else []
    ensures Voters(Members(h + [c])) == Voters(Members(h)) + if c.member.learner then [] else [c.member]
  {
    assert (h + [c])[..|h|] == h;
    if c.healthy {
      VotersAppend(WithHealth(h, true), c.member);
    } else {
      assert WithHealth(h + [c], true) == WithHealth(h, true);
    }
    VotersAppend(Members(h), c.member);
  }

  lemma {:induction false} NoLearners(h: Health)
    requires LearnerFree(h)
    ensures Voters(Members(h)) == Members(h) && |Members(h)| == |h|
    ensures Voters(WithHealth(h, true)) == WithHealth(h, true)
  {
    if h != [] {
      NoLearners(h[..|h| - 1]);
      assert h == h[..|h| - 1] + [h[|h| - 1]];
      HealthAppend(h[..|h| - 1], h[|h| - 1]);
    }
  }

  /** With stable revisions, a topology that is neither single nor dual, and no learner,
      scaling is safe exactly when the voters keep a healthy quorum after any single loss. */
  lemma SafeMeansQuorum(revisions: Revisions, topology: Topology, delayed: bool, h: Health)
    requires RevisionStable(revisions) && !topology.SingleReplica? && !topology.DualReplica? && LearnerFree(h)
    ensures SafeToScale(Ok(revisions), Ok(StrategyOf(false, topology, delayed)), Ok(h)) <==> VotersSurviveAny(h)
  {
    hide QuorumWithout, VotersSurvive;
    forall k | 0 <= k < |h| ensures QuorumWithout(h, k) <==> VotersSurvive(h, k) {
      LossAmongVoters(h, k);
    }
  }

  lemma LossAmongVoters(h: Health, k: nat)
    requires LearnerFree(h) && k < |h|
    ensures QuorumWithout(h, k) <==> VotersSurvive(h, k)
  {
    NoLearners(h);
    NoLearners(Without(h, k));
  }

  // ----- learners -----

  function Count(h: Health, healthy: bool, learner: bool): nat {
    if h == [] then 0
    else
      var c := h[|h| - 1];
      Count(h[..|h| - 1], healthy, learner) + if c.healthy == healthy && c.member.learner == learner then 1 else 0
  }

  lemma {:induction false} Counted(h: Health)
    ensures |h| == Count(h, true, false) + Count(h, false, false) + Count(h, true, true) + Count(h, false, true)
    ensures HealthyCount(h) == Count(h, true, false) + Count(h, true, true)
    ensures HealthyVoters(h) == Count(h, true, false)
    ensures |Voters(Members(h))| == Count(h, true, false) + Count(h, false, false)
  {
    if h != [] {
      Counted(h[..|h| - 1]);
      assert h == h[..|h| - 1] + [h[|h| - 1]];
      HealthAppend(h[..|h| - 1], h[|h| - 1]);
    }
  }

  lemma {:induction false} CountAppend(a: Health, b: Health, healthy: bool, learner: bool)
    ensures Count(a + b, healthy, learner) == Count(a, healthy, learner) + Count(b, healthy, learner)
  {
    if b == [] {
      assert a + b == a;
    } else {
      assert (a + b)[..|a + b| - 1] == a + b[..|b| - 1];
      CountAppend(a, b[..|b| - 1], healthy, learner);
    }
  }

  lemma VoterLost(h: Health, k: nat)
    requires k < |h|
    ensures HealthyVoters(Without(h, k)) == HealthyVoters(h) - if h[k].healthy && !h[k].member.learner then 1 else 0
  {
    Counted(h);
    Counted(Without(h, k));
    CountAppend(h[..k], h[k + 1..], true, false);
    CountAppend(h[..k] + [h[k]], h[k + 1..], true, false);
    assert h == h[..k] + [h[k]] + h[k + 1..];
    assert (h[..k] + [h[k]])[..k] == h[..k];
  }

  predicate LearnerCounts(h: Health, healthy: nat, unhealthy: nat) {
    Count(h, true, true) == healthy && Count(h, false, true) == unhealthy
  }

  predicate VotersSurviveAny(h: Health) {
    h != [] && forall k :: 0 <= k < |h| ==> VotersSurvive(h, k)
  }

  /** With no more healthy learners than unhealthy ones, tolerance of all members covers
      the voters. */
  lemma ToleranceCoversVoters(h: Health)
    requires Tolerant(h) && Count(h, true, true) <= Count(h, false, true)
    ensures VotersSurviveAny(h)
  {
    Counted(h);
    forall k | 0 <= k < |h| ensures VotersSurvive(h, k) {
      VoterLost(h, k);
    }
  }

  function Repeat(c: HealthCheck, n: nat): Health {
    if n == 0 then [] else Repeat(c, n - 1) + [c]
  }

  lemma {:induction false} CountRepeat(c: HealthCheck, n: nat, healthy: bool, learner: bool)
    ensures Count(Repeat(c, n), healthy, learner) ==
            if c.healthy == healthy && c.member.learner == learner then n else 0
  {
    if n > 0 {
      CountRepeat(c, n - 1, healthy, learner);
      assert Repeat(c, n)[..|Repeat(c, n)| - 1] == Repeat(c, n - 1);
    }
  }

  /** With more of them, two healthy voters are tolerant although either loss leaves no
      quorum of voters. */
  lemma LearnersHideTheLoss(a: nat, u: nat) returns (h: Health)
    requires a > u
    ensures LearnerCounts(h, a, u) && Tolerant(h) && !VotersSurviveAny(h)
  {
    var v := HealthCheck(Member(0, false), true);
    var l, m := HealthCheck(Member(1, true), true), HealthCheck(Member(2, true), false);
    h := Repeat(v, 2) + Repeat(l, a) + Repeat(m, u);
    forall healthy, learner
      ensures Count(h, healthy, learner) == Count(Repeat(v, 2), healthy, learner) +
              Count(Repeat(l, a), healthy, learner) + Count(Repeat(m, u), healthy, learner)
    {
      CountAppend(Repeat(v, 2), Repeat(l, a), healthy, learner);
      CountAppend(Repeat(v, 2) + Repeat(l, a), Repeat(m, u), healthy, learner);
    }
    forall healthy, learner
      ensures Count(Repeat(v, 2), healthy, learner) == if healthy && !learner then 2 else 0
      ensures Count(Repeat(l, a), healthy, learner) == if healthy && learner then a else 0
      ensures Count(Repeat(m, u), healthy, learner) == if !healthy && learner then u else 0
    {
      CountRepeat(v, 2, healthy, learner);
      CountRepeat(l, a, healthy, learner);
      CountRepeat(m, u, healthy, learner);
    }
    Counted(h);
    assert Repeat(v, 2) == Repeat(v, 1) + [v] && h[|Repeat(v, 1)|] == v;
    VoterLost(h, |Repeat(v, 1)|);
    assert !VotersSurvive(h, |Repeat(v, 1)|);
  }

  /** Given the numbers of healthy and of unhealthy learners, being safe to scale means that
      the voters survive any single loss, for all members with those numbers, exactly when
      the healthy learners are not more than the unhealthy ones. */
  lemma LearnersAreExact(revisions: Revisions, topology: Topology, delayed: bool, a: nat, u: nat)
    requires RevisionStable(revisions) && !topology.SingleReplica? && !topology.DualReplica?
    ensures var strategy := StrategyOf(false, topology, delayed);
            (forall h | LearnerCounts(h, a, u) && SafeToScale(Ok(revisions), Ok(strategy), Ok(h)) ::
              VotersSurviveAny(h))
            <==> a <= u
  {
    hide VotersSurviveAny, Tolerant, QuorumWithout;
    var strategy := StrategyOf(false, topology, delayed);
    forall h: Health ensures SafeToScale(Ok(revisions), Ok(strategy), Ok(h)) <==> Tolerant(h) {
      ToleranceIsExact(h);
    }
    if a <= u {
      forall h | LearnerCounts(h, a, u) && SafeToScale(Ok(revisions), Ok(strategy), Ok(h))
        ensures VotersSurviveAny(h)
      {
        ToleranceCoversVoters(h);
      }
    } else {
      var h := LearnersHideTheLoss(a, u);
    }
  }
}
