/** The scheduler of retried cluster jobs: one sync of one job's controller as functions
    over what the controller and the API server remember about that job. */
module RetryModel {
  import opened Basics

  const MAX_RETRIES_MESSAGE := "Job failed after maximum retry attempts"
  const BLOCKED_CONDITION_TIMEOUT := 600
  const STUCK_JOB_RECOVERY_TIMEOUT := 600
  const DEFAULT_BACKOFF_LIMIT := 6

  // ----- jobs -----

  datatype Status = True | False | Unknown

  datatype ConditionType = JobComplete | JobFailed | JobFailureTarget | JobSuspended

  datatype Condition = Condition(kind: ConditionType, status: Status, since: int)

  /** What the controller asks for: the retry fields, and everything else in the spec. */
  datatype Template = Template(node: string, attempt: int, index: int, rest: nat)

  datatype Job = Job(
    spec: Template, generation: int, conditions: seq<Condition>, active: nat, failed: nat, backoffLimit: Option<int>)

  function ConditionTrue(conditions: seq<Condition>, kind: ConditionType): bool {
    if conditions == [] then false
    else if conditions[0].kind == kind then conditions[0].status.True?
    else ConditionTrue(conditions[1..], kind)
  }

  predicate IsComplete(job: Job) {
    ConditionTrue(job.conditions, JobComplete)
  }

  predicate IsFailed(job: Job) {
    ConditionTrue(job.conditions, JobFailed)
  }

  predicate BackoffExceeded(job: Job) {
    var limit := if job.backoffLimit.Some? then job.backoffLimit.value else DEFAULT_BACKOFF_LIMIT;
    job.active == 0 && job.failed > 0 && job.failed > limit
  }

  predicate IsStopped(job: Job) {
    IsComplete(job) || IsFailed(job) || ConditionTrue(job.conditions, JobFailureTarget) || BackoffExceeded(job)
  }

  /** When the first true failure condition was set. */
  function FailedTime(conditions: seq<Condition>): (since: Option<int>)
    ensures ConditionTrue(conditions, JobFailed) ==> since.Some?
  {
    if conditions == [] then None
    else if conditions[0].kind.JobFailed? && conditions[0].status.True? then Some(conditions[0].since)
    else FailedTime(conditions[1..])
  }

  // ----- state -----

  datatype RetryState = RetryState(attempt: int, index: int, targets: seq<string>, maxAttempts: int, config: string)

  datatype Degraded = Degraded(active: bool, message: string)

  datatype Cell = Cell(
    retry: Option<RetryState>,
    blockedSince: Option<int>,
    noNodesSince: Option<int>,
    job: Option<Job>,
    degraded: Option<Degraded>,
    lastGeneration: Option<int>)

  datatype Answer<T> = Got(value: T) | Failed(message: string)

  /** The nodes that must be ready first, if the controller checks any. */
  datatype Affected = NoCheck | AffectedFails(message: string) | AffectedReady(ready: seq<bool>)

  /** What one sync meets: the clock, the answers of its functions, the rest of the job
      spec and the outcome of each API call. */
  datatype Input = Input(
    now: int, affected: Affected, nodes: Answer<seq<string>>, config: Answer<string>, maxAttempts: int, rest: nat,
    getFails: Option<string>, deleteFails: Option<string>,
    applyGetFails: Option<string>, createFails: bool, applyDeleteFails: Option<string>, stuckDeleteFails: bool,
    statusFails: Option<string>)

  // ----- timed blocking -----

  datatype Blocking = Ready | Waiting | TimedOut

  datatype Blocked = Blocked(since: Option<int>, answer: Blocking)

  function TimedBlock(since: Option<int>, blocked: bool, now: int): Blocked {
    if !blocked then Blocked(None, Ready)
    else
      var from := if since.Some? then since.value else now;
      Blocked(Some(from), if now - from > BLOCKED_CONDITION_TIMEOUT then TimedOut else Waiting)
  }

  // ----- retry state -----

  datatype Advanced = Advanced(state: RetryState, exceeded: bool)

  /** The next node, after the last one the next attempt, after the last one the first. */
  function Advance(st: RetryState, nodes: int): Advanced {
    if st.index + 1 < nodes then Advanced(st.(index := st.index + 1), false)
    else if st.attempt >= st.maxAttempts then Advanced(st.(index := 0, attempt := 1), true)
    else Advanced(st.(index := 0, attempt := st.attempt + 1), false)
  }

  datatype Outcome = Outcome(cell: Cell, error: Option<string>)

  function Fail(c: Cell, message: string): Outcome {
    Outcome(c, Some(message))
  }

  function SyncMultiNodeJobState(c: Cell, i: Input): Outcome {
    match i.affected
    case NoCheck => SyncSchedulable(c, i)
    case AffectedFails(m) => Fail(c, "failed to get affected nodes: " + m)
    case AffectedReady(ready) =>
      var b := TimedBlock(c.blockedSince, false in ready, i.now);
      var d := c.(blockedSince := b.since);
      match b.answer
      case TimedOut => Fail(d, "Affected nodes not ready")
      case Waiting => Outcome(d, None)
      case Ready => SyncSchedulable(d, i)
  }

  function SyncSchedulable(c: Cell, i: Input): Outcome {
    if i.nodes.Failed? then Fail(c, "failed to get schedulable nodes: " + i.nodes.message)
    else if i.nodes.value == [] then
      var b := TimedBlock(c.noNodesSince, true, i.now);
      Outcome(c.(noNodesSince := b.since), if b.answer.TimedOut? then Some("No schedulable nodes available") else None)
    else if c.retry.None? then
      if i.config.Failed? then Fail(c, "failed to get initial job config: " + i.config.message)
      else
        var st := RetryState(1, 0, i.nodes.value, i.maxAttempts, i.config.value);
        Outcome(c.(noNodesSince := None, retry := Some(st)), None)
    else
      var d := c.(noNodesSince := None);
      if i.config.Failed? then Fail(d, "failed to get current job config: " + i.config.message)
      else if c.retry.value.targets != i.nodes.value || c.retry.value.config != i.config.value then SyncDrift(d, i)
      else SyncFailure(d, i)
  }

  /** Changed nodes or configuration: the job goes and the state starts over. */
  function SyncDrift(c: Cell, i: Input): Outcome
    requires c.retry.Some? && i.nodes.Got? && i.config.Got?
  {
    if i.getFails.Some? then Fail(c, "failed to check for existing job: " + i.getFails.value)
    else if c.job.Some? && i.deleteFails.Some? then
      Fail(c, "failed to delete job after config/nodes changed: " + i.deleteFails.value)
    else
      var st := c.retry.value.(attempt := 1, index := 0, targets := i.nodes.value, config := i.config.value);
      Outcome(c.(job := None, retry := Some(st)), None)
  }

  function SyncFailure(c: Cell, i: Input): Outcome
    requires c.retry.Some? && i.nodes.Got?
  {
    if i.getFails.Some? then Fail(c, "failed to get job: " + i.getFails.value)
    else if c.job.None? || IsComplete(c.job.value) || !IsStopped(c.job.value) then Outcome(c, None)
    else
      var a := Advance(c.retry.value, |i.nodes.value|);
      Outcome(c.(retry := Some(a.state)), if a.exceeded then Some(MAX_RETRIES_MESSAGE) else None)
  }

  // ----- the hook -----

  datatype Hook = HookFails(message: string) | BadIndex | Skip | Apply(required: Template)

  function HookError(message: string): string {
    "error running hook function (index=0): " + message
  }

  /** The template for the current retry state. */
  function Configured(st: RetryState, rest: nat): Hook {
    if 0 <= st.index < |st.targets| then Apply(Template(st.targets[st.index], st.attempt, st.index, rest)) else BadIndex
  }

  function HookOf(c: Cell, i: Input): Hook {
    var o := SyncMultiNodeJobState(c, i);
    if o.error.Some? then HookFails(HookError(o.error.value))
    else if o.cell.retry.None? then Skip
    else Configured(o.cell.retry.value, i.rest)
  }

  // ----- applying the job -----

  /** `named` is false for the empty object a failed creation hands back. */
  datatype Applied = Applied(job: Job, named: bool) | ApplyFails(message: string)

  datatype ApplyOutcome = ApplyOutcome(cell: Cell, result: Applied)

  function Created(required: Template): Job {
    Job(required, 1, [], 0, 0, Some(0))
  }

  /** What the client hands back when creation fails. */
  const NO_JOB := Job(Template("", 0, 0, 0), 0, [], 0, 0, None)

  function ExpectedGeneration(c: Cell): int {
    if c.lastGeneration.Some? then c.lastGeneration.value else -1
  }

  function ApplyJob(c: Cell, required: Template, i: Input): ApplyOutcome {
    if i.applyGetFails.Some? then ApplyOutcome(c, ApplyFails(i.applyGetFails.value))
    else if c.job.None? then
      if i.createFails then ApplyOutcome(c, Applied(NO_JOB, false))
      else ApplyOutcome(c.(job := Some(Created(required))), Applied(Created(required), true))
    else
      var job := c.job.value;
      if job.spec == required && job.generation == ExpectedGeneration(c) then ApplyOutcome(c, Applied(job, true))
      else if !IsFailed(job) && job.spec.rest == required.rest then ApplyOutcome(c, Applied(job, true))
      else if i.applyDeleteFails.Some? then ApplyOutcome(c, ApplyFails(i.applyDeleteFails.value))
      else ApplyOutcome(c.(job := None), ApplyFails("job spec was modified, old job is deleted"))
  }

  // ----- the whole sync -----

  predicate OccursAt(s: string, part: string, k: int) {
    0 <= k <= |s| - |part| && s[k..k + |part|] == part
  }

  predicate Contains(s: string, part: string) {
    exists k :: 0 <= k <= |s| && OccursAt(s, part, k)
  }

  predicate MaxRetriesExceeded(c: Cell) {
    c.degraded.Some? && c.degraded.value.active && Contains(c.degraded.value.message, MAX_RETRIES_MESSAGE)
  }

  function Preserve(c: Cell, error: Option<string>, reason: string): Option<string> {
    if !MaxRetriesExceeded(c) then error
    else Some(MAX_RETRIES_MESSAGE + "; " + if error.Some? then error.value else reason)
  }

  /** What the sync does with the job it applied.  The status it writes lists the generation
      of that job alone, so one under the empty name displaces what was listed for this job. */
  function Conclude(c: Cell, job: Job, named: bool, i: Input): Outcome {
    if IsFailed(job) && FailedTime(job.conditions).Some? &&
       i.now - FailedTime(job.conditions).value > STUCK_JOB_RECOVERY_TIMEOUT then
      Outcome(if i.stuckDeleteFails then c else c.(job := None), Preserve(c, None, "deleted stuck job"))
    else if i.statusFails.Some? then Outcome(c, Preserve(c, i.statusFails, "ApplyOperatorStatus error"))
    else
      var d := c.(lastGeneration := if named then Some(job.generation) else None);
      if IsFailed(job) then Outcome(d, Preserve(c, Some("Job failed"), ""))
      else if !IsComplete(job) then Outcome(d, Preserve(c, None, "waiting for success"))
      else Outcome(d, None)
  }

  function SyncManaged(c: Cell, i: Input): Outcome {
    var d := SyncMultiNodeJobState(c, i).cell;
    match HookOf(c, i)
    case HookFails(m) => Outcome(d, Preserve(c, Some(m), "hook error"))
    case BadIndex => Outcome(d, Preserve(c, Some(HookError("invalid node index")), "hook error"))
    case Skip => Outcome(d, Preserve(c, None, "hook skipped job application"))
    case Apply(required) =>
      var a := ApplyJob(d, required, i);
      match a.result
      case ApplyFails(m) => Outcome(a.cell, Preserve(c, Some(m), "ApplyJob error"))
      case Applied(job, named) => Conclude(a.cell, job, named, i)
  }

  /** Whether the operator manages its operand, or reading that failed. */
  datatype Management = Managed | NotManaged | ReadFails(message: string)

  function Sync(c: Cell, m: Management, i: Input): Outcome {
    match m
    case ReadFails(message) => Fail(c, message)
    case NotManaged => Outcome(c, None)
    case Managed => SyncManaged(c, i)
  }

  /** The controller framework turns the error of a sync into the Degraded condition. */
  function Reported(o: Outcome): Cell {
    o.cell.(degraded := Some(if o.error.Some? then Degraded(true, o.error.value) else Degraded(false, "")))
  }

  // ----- runs -----

  /** A sync, or something else: the job changes or is deleted, the retry state is reset
      by a restart of the job, or the operator itself restarts. */
  datatype Event = Syncs(management: Management, input: Input) | JobChanges(job: Option<Job>) | ResetRetry | Restart

  function Next(c: Cell, e: Event): Cell {
    match e
    case Syncs(m, i) => Reported(Sync(c, m, i))
    case JobChanges(job) => c.(job := job)
    case ResetRetry => c.(retry := None)
    case Restart => c.(retry := None, blockedSince := None, noNodesSince := None)
  }

  function RunEvents(c: Cell, events: seq<Event>): Cell {
    if events == [] then c else Next(RunEvents(c, events[..|events| - 1]), events[|events| - 1])
  }
}
