/** The defragmentation controller: what one sync may do, as a relation between its state
    before and after, since the sort leaves the order of equals open. */
module DefragModel {
  import opened Basics

  const MIN_DEFRAG_BYTES := 104857600
  const MAX_FRAGMENTED_HUNDREDTHS := 4500
  const MAX_FAILURES := 3

  datatype Status = Status(dbSize: int, dbSizeInUse: int, leader: nat)

  /** `status` is what the status call answers, if it succeeds. */
  datatype Member = Member(id: nat, learner: bool, started: bool, status: Result<Status>)

  /** A percentage in hundredths; an empty database has none. */
  datatype Fragmentation = Undefined | NegativeInfinity | PositiveInfinity | Hundredths(value: int)

  /** Hundredths of a percent, halves rounded away from zero. */
  function RoundedHundredths(diff: int, total: int): int
    requires total > 0
  {
    if diff >= 0 then (20000 * diff + total) / (2 * total) else -((20000 * -diff + total) / (2 * total))
  }

  function FragmentationOf(s: Status): Fragmentation {
    var diff := s.dbSize - s.dbSizeInUse;
    if s.dbSize > 0 then Hundredths(RoundedHundredths(diff, s.dbSize))
    else if s.dbSize < 0 then Hundredths(RoundedHundredths(-diff, -s.dbSize))
    else if diff == 0 then Undefined
    else if diff < 0 then NegativeInfinity
    else PositiveInfinity
  }

  /** The order in which the comparison ranks percentages: an undefined one is least. */
  predicate Less(a: Fragmentation, b: Fragmentation) {
    match b
    case Undefined => false
    case NegativeInfinity => a.Undefined?
    case PositiveInfinity => !a.PositiveInfinity?
    case Hundredths(v) => a.Undefined? || a.NegativeInfinity? || (a.Hundredths? && a.value < v)
  }

  predicate Fragmented(s: Status) {
    var f := FragmentationOf(s);
    (f.PositiveInfinity? || (f.Hundredths? && f.value >= MAX_FRAGMENTED_HUNDREDTHS)) && s.dbSize >= MIN_DEFRAG_BYTES
  }

  // ----- one sync -----

  /** What a sync meets: whether the controller is enabled, the health and member answers,
      and which calls fail. */
  datatype Input = Input(enabled: Result<bool>, healthy: Result<bool>, members: Result<seq<Member>>,
                         moveFails: set<nat>, defragFails: bool, updateFails: bool)

  datatype Defrag = Defrag(targets: seq<nat>, failures: nat, degraded: bool)

  datatype Action = Nothing | Error | Moved(from: nat, to: nat) | DefragFailed(id: nat) | Defragmented(id: nat)

  predicate Eligible(m: Member) {
    !m.learner && m.started
  }

  datatype Gathered = Gathered(statuses: map<nat, Status>, targets: seq<nat>, ok: bool)

  /** The statuses of the started voters, up to the first status call that fails; a new
      cycle collects its targets on the way. */
  function Gather(members: seq<Member>, isNewCycle: bool, targets: seq<nat>): Gathered {
    if members == [] then Gathered(map[], targets, true)
    else
      var g := Gather(members[..|members| - 1], isNewCycle, targets);
      var m := members[|members| - 1];
      if !g.ok || !Eligible(m) then g
      else if m.status.Err? then g.(ok := false)
      else
        Gathered(g.statuses[m.id := m.status.value],
                 if isNewCycle && Fragmented(m.status.value) then g.targets + [m.id] else g.targets, true)
  }

  function Kept(targets: seq<nat>, statuses: map<nat, Status>): seq<nat> {
    if targets == [] then []
    else
      var k := Kept(targets[..|targets| - 1], statuses);
      var id := targets[|targets| - 1];
      if id in statuses && Fragmented(statuses[id]) then k + [id] else k
  }

  predicate IsLeader(statuses: map<nat, Status>, id: nat) {
    id in statuses && statuses[id].leader == id
  }

  /** `a` may stand before `b`: followers before the leader, then most fragmented first. */
  predicate Before(statuses: map<nat, Status>, a: nat, b: nat) {
    a in statuses && b in statuses &&
    if IsLeader(statuses, a) != IsLeader(statuses, b) then IsLeader(statuses, b)
    else !Less(FragmentationOf(statuses[a]), FragmentationOf(statuses[b]))
  }

  predicate Ordered(statuses: map<nat, Status>, targets: seq<nat>) {
    forall i, j :: 0 <= i < j < |targets| ==> Before(statuses, targets[i], targets[j])
  }

  function Movable(statuses: map<nat, Status>, head: nat, moveFails: set<nat>): set<nat> {
    statuses.Keys - {head} - moveFails
  }

  /** Leadership went to the least fragmented follower that would take it. */
  predicate GoodSuccessor(statuses: map<nat, Status>, head: nat, moveFails: set<nat>, to: nat) {
    to in Movable(statuses, head, moveFails) &&
    forall id :: id in Movable(statuses, head, moveFails) ==>
      !Less(FragmentationOf(statuses[id]), FragmentationOf(statuses[to]))
  }

  /** The sorted targets the sync acted on. */
  function OrderOf(t: Defrag, a: Action): seq<nat> {
    if a.Defragmented? then [a.id] + t.targets else t.targets
  }

  predicate Attempt(s: Defrag, statuses: map<nat, Status>, i: Input, t: Defrag, a: Action) {
    var order := OrderOf(t, a);
    var head := if order != [] then order[0] else 0;
    && Ordered(statuses, order)
    && if IsLeader(statuses, head) && Movable(statuses, head, i.moveFails) != {} then
         a.Moved? && a.from == head && GoodSuccessor(statuses, head, i.moveFails, a.to) && t == s.(targets := order)
       else if i.defragFails then
         a == DefragFailed(head) &&
         t == Defrag(order, s.failures + 1, s.degraded || (s.failures + 1 >= MAX_FAILURES && !i.updateFails))
       else
         a == Defragmented(head) && t == Defrag(order[1..], 0, s.degraded && i.updateFails)
  }

  predicate RunDefrag(s: Defrag, i: Input, t: Defrag, a: Action) {
    if i.healthy != Ok(true) || i.members.Err? then t == s && a == Error
    else
      var isNewCycle := s.targets == [];
      var g := Gather(i.members.value, isNewCycle, s.targets);
      if !g.ok then t == s.(targets := g.targets) && a == Error
      else
        var kept := if isNewCycle then g.targets else Kept(g.targets, g.statuses);
        if kept == [] then t == s.(targets := []) && a == Nothing
        else multiset(OrderOf(t, a)) == multiset(kept) && Attempt(s, g.statuses, i, t, a)
  }

  predicate Sync(s: Defrag, i: Input, t: Defrag, a: Action) {
    if i.enabled.Err? then t == s && a == Error
    else if !i.enabled.value then t == s && a == Nothing
    else RunDefrag(s, i, t, a)
  }

  /** Consecutive syncs of one controller. */
  datatype Run = Run(states: seq<Defrag>, inputs: seq<Input>, actions: seq<Action>)

  predicate IsRun(r: Run) {
    && |r.states| == |r.inputs| + 1 && |r.actions| == |r.inputs|
    && forall k :: 0 <= k < |r.inputs| ==> Sync(r.states[k], r.inputs[k], r.states[k + 1], r.actions[k])
  }
}
