/** Vertical scaling: etcd members, control plane machines and the endpoints configmap,
    and what one sync of each of the four controllers may do to them. */
module ScalingModel {
  import opened Basics

  /** A canonical internal IP address; only equality matters. */
  type IP = nat

  datatype Member = Member(ip: IP, learner: bool)

  datatype Hook = Hook(name: string, owner: string)

  datatype Machine = Machine(ips: seq<IP>, preDrain: seq<Hook>, deleting: bool, domain: int, nodeRef: Option<nat>)

  datatype Node = Node(ip: IP, deleting: bool, etcdWaiting: bool)

  datatype ControlPlane = ControlPlane(
    members: map<nat, Member>,      // by member id
    healthy: set<nat>,              // members that pass their health check
    machines: map<nat, Machine>,
    nodes: map<nat, Node>,
    endpoints: map<nat, IP>,        // the configmap etcd-endpoints
    desired: int,                   // desired control plane replicas
    stable: bool)                   // no revision rollout in progress

  const HOOK_NAME := "EtcdQuorumOperator"
  const HOOK_OWNER := "clusteroperator/etcd"
  const ETCD_HOOK := Hook(HOOK_NAME, HOOK_OWNER)

  predicate HasHook(m: Machine) {
    ETCD_HOOK in m.preDrain
  }

  predicate HasPartialHook(m: Machine) {
    exists h :: h in m.preDrain && h.name == HOOK_NAME && h.owner != HOOK_OWNER
  }

  // ----- members -----

  function Voters(s: ControlPlane): set<nat> {
    set id | id in s.members && !s.members[id].learner
  }

  function HealthyVoters(s: ControlPlane): set<nat> {
    set id | id in s.members && !s.members[id].learner && id in s.healthy
  }

  function Unhealthy(s: ControlPlane): set<nat> {
    set id | id in s.members && id !in s.healthy
  }

  function VotingIPs(s: ControlPlane): set<IP> {
    set id | id in s.members && !s.members[id].learner :: s.members[id].ip
  }

  function MemberIPs(s: ControlPlane): set<IP> {
    set id | id in s.members :: s.members[id].ip
  }

  /** More than half of the voters answer their health checks. */
  predicate HealthyMajority(s: ControlPlane) {
    2 * |HealthyVoters(s)| > |Voters(s)|
  }

  function Without(s: ControlPlane, ids: set<nat>): ControlPlane {
    s.(members := s.members - ids)
  }

  /** A machine address belongs to one machine. */
  predicate MachinesUnique(s: ControlPlane) {
    forall m, n, ip :: m in s.machines && n in s.machines && ip in s.machines[m].ips && ip in s.machines[n].ips ==>
      m == n
  }

  /** Besides, member addresses are distinct and a machine hosts at most one member. */
  predicate WellFormed(s: ControlPlane) {
    && MachinesUnique(s)
    && (forall a, b :: a in s.members && b in s.members && s.members[a].ip == s.members[b].ip ==> a == b)
    && (forall m, a, b :: (m in s.machines && a in s.members && b in s.members &&
          s.members[a].ip in s.machines[m].ips && s.members[b].ip in s.machines[m].ips) ==> a == b)
  }

  /** The machine hosts the member. */
  predicate On(s: ControlPlane, m: nat, id: nat) {
    m in s.machines && id in s.members && s.members[id].ip in s.machines[m].ips
  }

  // ----- the removal controller -----

  predicate RemovalGate(s: ControlPlane) {
    s.stable && VotingIPs(s) == s.endpoints.Values
  }

  /** A member listed in the configmap behind which neither a machine nor a node is left. */
  predicate Orphan(s: ControlPlane, id: nat) {
    && id in s.members && s.members[id].ip in s.endpoints.Values
    && (forall m :: m in s.machines ==> s.members[id].ip !in s.machines[m].ips)
    && (forall n :: n in s.nodes ==> s.nodes[n].ip != s.members[id].ip)
  }

  /** The member's machine carries the hook and is being deleted. */
  predicate Departing(s: ControlPlane, id: nat) {
    id in s.members && exists m :: m in s.machines && OnDeparting(s.machines[m], s.members[id].ip)
  }

  predicate OnDeparting(m: Machine, ip: IP) {
    HasHook(m) && m.deleting && ip in m.ips
  }

  function DepartingVoters(s: ControlPlane): set<nat> {
    set id | id in s.members && !s.members[id].learner && Departing(s, id)
  }

  function DepartingLearners(s: ControlPlane): set<nat> {
    set id | id in s.members && s.members[id].learner && Departing(s, id)
  }

  /** Removal of members without machine and node; `fails` are the members whose removal
      call fails.  A healthy one stops the stage. */
  predicate OrphanStage(s: ControlPlane, fails: set<nat>, gone: set<nat>) {
    && (forall id :: id in gone ==> Orphan(s, id) && id !in s.healthy && id !in fails)
    && ((forall id :: id in s.members && Orphan(s, id) ==> id !in s.healthy && id !in fails) ==>
          forall id :: id in s.members && Orphan(s, id) ==> id in gone)
  }

  predicate LearnerStage(s: ControlPlane, fails: set<nat>, gone: set<nat>) {
    gone == DepartingLearners(s) - fails
  }

  /** When the scale-down stage tries to remove a voter. */
  predicate ScaleDownGuard(s: ControlPlane) {
    && |Voters(s)| >= s.desired
    && DepartingVoters(s) != {}
    && Unhealthy(s) != s.members.Keys
    && MinimumTolerableQuorum(s.desired).Ok? && |HealthyVoters(s)| >= MinimumTolerableQuorum(s.desired).value
    && (Unhealthy(s) != {} ==> DepartingVoters(s) * Unhealthy(s) != {})
    && !(HealthyVoters(s) == Voters(s) && |HealthyVoters(s)| <= s.desired)
  }

  /** Unhealthy departing voters are tried before healthy ones; the first removal that
      succeeds ends the stage. */
  predicate ScaleDownStage(s: ControlPlane, fails: set<nat>, victim: Option<nat>) {
    if !ScaleDownGuard(s) then victim.None?
    else if victim.None? then DepartingVoters(s) <= fails
    else
      && victim.value in DepartingVoters(s) - fails
      && (victim.value in s.healthy ==> DepartingVoters(s) * Unhealthy(s) <= fails)
  }

  /** What one removal sync did. */
  datatype Removal = Removal(orphans: set<nat>, learners: set<nat>, victim: Option<nat>)

  function VictimSet(r: Removal): set<nat> {
    if r.victim.Some? then {r.victim.value} else {}
  }

  predicate RemovalSync(s: ControlPlane, fails: set<nat>, r: Removal, t: ControlPlane) {
    if !RemovalGate(s) then r == Removal({}, {}, None) && t == s
    else
      var s1 := Without(s, r.orphans);
      var s2 := Without(s1, r.learners);
      && OrphanStage(s, fails, r.orphans)
      && LearnerStage(s1, fails, r.learners)
      && ScaleDownStage(s2, fails, r.victim)
      && t == Without(s2, VictimSet(r))
  }

  // ----- the member controller -----

  /** A node that may join: its etcd waits, no member has its address, and its machine is
      hooked and not being deleted. */
  predicate Joinable(s: ControlPlane, n: nat) {
    && n in s.nodes && !s.nodes[n].deleting && s.nodes[n].etcdWaiting
    && s.nodes[n].ip !in MemberIPs(s)
    && exists m :: m in s.machines && Hosts(s.machines[m], s.nodes[n].ip)
  }

  predicate Hosts(m: Machine, ip: IP) {
    HasHook(m) && !m.deleting && ip in m.ips
  }

  predicate Promotable(s: ControlPlane, id: nat) {
    && id in s.members && s.members[id].learner
    && exists m :: m in s.machines && Hosts(s.machines[m], s.members[id].ip)
  }

  function Add(s: ControlPlane, id: nat, ip: IP): ControlPlane {
    s.(members := s.members[id := Member(ip, true)])
  }

  function Promote(s: ControlPlane, ids: set<nat>): ControlPlane {
    s.(members := map id | id in s.members ::
         if id in ids then s.members[id].(learner := false) else s.members[id])
  }

  function Ready(s: ControlPlane, ready: set<nat>): set<nat> {
    set id | id in s.members && Promotable(s, id) && id in ready
  }

  predicate SomeNodeDoesNotVote(s: ControlPlane) {
    exists n :: n in s.nodes && s.nodes[n].ip !in VotingIPs(s)
  }

  /** `ready` are the learners whose promotion call succeeds, `newId` the id etcd gives
      to an added member, `addFails` whether adding fails. */
  predicate MemberSync(s: ControlPlane, ready: set<nat>, newId: nat, addFails: bool, joining: Option<nat>,
                       t: ControlPlane) {
    if Unhealthy(s) != {} then joining.None? && t == s
    else
      var s1 := if joining.Some? && joining.value in s.nodes && !addFails
                then Add(s, newId, s.nodes[joining.value].ip) else s;
      && (if joining.Some? then Joinable(s, joining.value) else forall n :: n in s.nodes ==> !Joinable(s, n))
      && t == Promote(s1, if SomeNodeDoesNotVote(s1) then Ready(s1, ready) else {})
  }

  // ----- the deletion hook controller -----

  function Foreign(hooks: seq<Hook>): seq<Hook> {
    if hooks == [] then []
    else if hooks[|hooks| - 1].name == HOOK_NAME then Foreign(hooks[..|hooks| - 1])
    else Foreign(hooks[..|hooks| - 1]) + [hooks[|hooks| - 1]]
  }

  /** The hook is added; an entry of the same name with another owner is replaced. */
  function Hooked(m: Machine): Machine {
    if m.deleting || HasHook(m) then m
    else m.(preDrain := (if HasPartialHook(m) then Foreign(m.preDrain) else m.preDrain) + [ETCD_HOOK])
  }

  predicate Releasable(m: Machine, memberIPs: set<IP>) {
    m.deleting && HasHook(m) && forall ip :: ip in m.ips ==> ip !in memberIPs
  }

  function Released(m: Machine, memberIPs: set<IP>): Machine {
    if Releasable(m, memberIPs) then m.(preDrain := Foreign(m.preDrain)) else m
  }

  /** `fails` are the machines whose update fails; a failed release ends the sync. */
  predicate HooksUpdated(before: map<nat, Machine>, memberIPs: set<IP>, fails: set<nat>, after: map<nat, Machine>) {
    && after.Keys == before.Keys
    && forall m :: m in before ==>
         if m in fails then after[m] == before[m]
         else if !before[m].deleting then after[m] == Hooked(before[m])
         else after[m] == Released(before[m], memberIPs) ||
              (after[m] == before[m] && exists f :: f in fails && f in before && Releasable(before[f], memberIPs))
  }

  predicate HookSync(s: ControlPlane, fails: set<nat>, t: ControlPlane) {
    t == s.(machines := t.machines) && HooksUpdated(s.machines, MemberIPs(s), fails, t.machines)
  }

  // ----- the endpoints controller -----

  function EndpointsSync(s: ControlPlane): ControlPlane {
    if Voters(s) == {} then s
    else s.(endpoints := map id | id in s.members && !s.members[id].learner :: s.members[id].ip)
  }
}
