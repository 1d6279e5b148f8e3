/** The job controllers as ordered code: process-wide maps keyed by job name, the stored
    jobs, and the operator status. */
module RetryController {
  import opened Basics
  import opened RetryModel

  function Find<T>(m: map<string, T>, name: string): Option<T> {
    if name in m then Some(m[name]) else None
  }

  lemma {:induction false} NoneEarlier(conditions: seq<Condition>, kind: ConditionType, k: nat)
    requires k <= |conditions| && forall j :: 0 <= j < k ==> conditions[j].kind != kind
    ensures ConditionTrue(conditions, kind) == ConditionTrue(conditions[k..], kind)
  {
    if k > 0 {
      assert conditions[1..][k - 1..] == conditions[k..];
      NoneEarlier(conditions[1..], kind, k - 1);
    }
  }

  lemma {:induction false} NotYetFailed(conditions: seq<Condition>, k: nat)
    requires k <= |conditions|
    requires forall j :: 0 <= j < k ==> !(conditions[j].kind.JobFailed? && conditions[j].status.True?)
    ensures FailedTime(conditions) == FailedTime(conditions[k..])
  {
    if k > 0 {
      assert conditions[1..][k - 1..] == conditions[k..];
      NotYetFailed(conditions[1..], k - 1);
    }
  }

  method IsConditionTrue(conditions: seq<Condition>, kind: ConditionType) returns (r: bool)
    ensures r == ConditionTrue(conditions, kind)
  {
    for k := 0 to |conditions|
      invariant forall j :: 0 <= j < k ==> conditions[j].kind != kind
    {
      if conditions[k].kind == kind {
        NoneEarlier(conditions, kind, k);
        return conditions[k].status.True?;
      }
    }
    NoneEarlier(conditions, kind, |conditions|);
    return false;
  }

  method FindFailedTime(conditions: seq<Condition>) returns (r: Option<int>)
    ensures r == FailedTime(conditions)
  {
    for k := 0 to |conditions|
      invariant forall j :: 0 <= j < k ==> !(conditions[j].kind.JobFailed? && conditions[j].status.True?)
    {
      if conditions[k].kind == JobFailed && conditions[k].status == True {
        NotYetFailed(conditions, k);
        return Some(conditions[k].since);
      }
    }
    NotYetFailed(conditions, |conditions|);
    return None;
  }

  method StopsOf(job: Job) returns (complete: bool, failed: bool, stopped: bool)
    ensures complete == IsComplete(job) && failed == IsFailed(job) && stopped == IsStopped(job)
  {
    complete := IsConditionTrue(job.conditions, JobComplete);
    failed := IsConditionTrue(job.conditions, JobFailed);
    if complete || failed {
      return complete, failed, true;
    }
    var targeted := IsConditionTrue(job.conditions, JobFailureTarget);
    if targeted {
      return complete, failed, true;
    }
    stopped := false;
    if job.active == 0 && job.failed > 0 {
      var backoffLimit := DEFAULT_BACKOFF_LIMIT;
      if job.backoffLimit.Some? {
        backoffLimit := job.backoffLimit.value;
      }
      stopped := job.failed > backoffLimit;
    }
  }

  method StringSlicesEqual(a: seq<string>, b: seq<string>) returns (equal: bool)
    ensures equal == (a == b)
  {
    if |a| != |b| {
      return false;
    }
    for k := 0 to |a|
      invariant a[..k] == b[..k]
    {
      if a[k] != b[k] {
        return false;
      }
    }
    assert a == a[..|a|] && b == b[..|b|];
    return true;
  }

  /** Tracks since when a job is blocked; an error once that is too long. */
  method ManageTimedBlockedCondition(jobName: string, isBlocked: bool, blockedSince: map<string, int>, now: int)
      returns (updated: map<string, int>, answer: Blocking)
    ensures var b := TimedBlock(Find(blockedSince, jobName), isBlocked, now);
            Find(updated, jobName) == b.since && answer == b.answer
    ensures forall other :: other != jobName ==> Find(updated, other) == Find(blockedSince, other)
  {
    updated := blockedSince;
    if !isBlocked {
      updated := updated - {jobName};
      return updated, Ready;
    }
    if jobName !in updated {
      updated := updated[jobName := now];
    }
    if now - updated[jobName] > BLOCKED_CONDITION_TIMEOUT {
      return updated, TimedOut;
    }
    return updated, Waiting;
  }

  class JobControllers {
    var retryState: map<string, RetryState>
    var jobBlockedSince: map<string, int>
    var jobNoSchedulableNodesSince: map<string, int>
    var jobs: map<string, Job>
    var degraded: map<string, Degraded>
    var generations: map<string, int>

    ghost function View(name: string): Cell
      reads this
    {
      Cell(Find(retryState, name), Find(jobBlockedSince, name), Find(jobNoSchedulableNodesSince, name),
           Find(jobs, name), Find(degraded, name), Find(generations, name))
    }

    method SyncMultiNodeJobState(name: string, i: Input) returns (error: Option<string>)
      modifies this`retryState, this`jobBlockedSince, this`jobNoSchedulableNodesSince, this`jobs
      ensures RetryModel.SyncMultiNodeJobState(old(View(name)), i) == Outcome(View(name), error)
      ensures forall other :: other != name ==> View(other) == old(View(other))
    {
      if i.affected.AffectedFails? {
        return Some("failed to get affected nodes: " + i.affected.message);
      }
      if i.affected.AffectedReady? {
        var notReady := 0;
        for k := 0 to |i.affected.ready|
          invariant notReady >= 0 && (notReady > 0 <==> false in i.affected.ready[..k])
        {
          assert i.affected.ready[..k + 1] == i.affected.ready[..k] + [i.affected.ready[k]];
          if !i.affected.ready[k] {
            notReady := notReady + 1;
          }
        }
        assert i.affected.ready[..|i.affected.ready|] == i.affected.ready;
        var answer;
        jobBlockedSince, answer := ManageTimedBlockedCondition(name, notReady > 0, jobBlockedSince, i.now);
        if answer.TimedOut? {
          return Some("Affected nodes not ready");
        }
        if answer.Waiting? {
          return None;
        }
      }
      error := SyncSchedulable(name, i);
    }

    method SyncSchedulable(name: string, i: Input) returns (error: Option<string>)
      modifies this`retryState, this`jobNoSchedulableNodesSince, this`jobs
      ensures RetryModel.SyncSchedulable(old(View(name)), i) == Outcome(View(name), error)
      ensures forall other :: other != name ==> View(other) == old(View(other))
    {
      if i.nodes.Failed? {
        return Some("failed to get schedulable nodes: " + i.nodes.message);
      }
      var answer;
      if |i.nodes.value| == 0 {
        jobNoSchedulableNodesSince, answer :=
          ManageTimedBlockedCondition(name, true, jobNoSchedulableNodesSince, i.now);
        return if answer.TimedOut? then Some("No schedulable nodes available") else None;
      }
      if name !in retryState {
        if i.config.Failed? {
          return Some("failed to get initial job config: " + i.config.message);
        }
        retryState := retryState[name := RetryState(1, 0, i.nodes.value, i.maxAttempts, i.config.value)];
        jobNoSchedulableNodesSince, answer :=
          ManageTimedBlockedCondition(name, false, jobNoSchedulableNodesSince, i.now);
        return None;
      }
      jobNoSchedulableNodesSince, answer := ManageTimedBlockedCondition(name, false, jobNoSchedulableNodesSince, i.now);
      if i.config.Failed? {
        return Some("failed to get current job config: " + i.config.message);
      }
      var sameNodes := StringSlicesEqual(retryState[name].targets, i.nodes.value);
      if !sameNodes || retryState[name].config != i.config.value {
        error := SyncDrift(name, i);
      } else {
        error := SyncFailure(name, i);
      }
    }

    method SyncDrift(name: string, i: Input) returns (error: Option<string>)
      requires name in retryState && i.nodes.Got? && i.config.Got?
      modifies this`retryState, this`jobs
      ensures RetryModel.SyncDrift(old(View(name)), i) == Outcome(View(name), error)
      ensures forall other :: other != name ==> View(other) == old(View(other))
    {
      if i.getFails.Some? {
        return Some("failed to check for existing job: " + i.getFails.value);
      }
      if name in jobs {
        if i.deleteFails.Some? {
          return Some("failed to delete job after config/nodes changed: " + i.deleteFails.value);
        }
        jobs := jobs - {name};
      }
      var state := retryState[name];
      state := state.(attempt := 1, index := 0);
      state := state.(targets := i.nodes.value, config := i.config.value);
      retryState := retryState[name := state];
      return None;
    }

    method SyncFailure(name: string, i: Input) returns (error: Option<string>)
      requires name in retryState && i.nodes.Got?
      modifies this`retryState
      ensures RetryModel.SyncFailure(old(View(name)), i) == Outcome(View(name), error)
      ensures forall other :: other != name ==> View(other) == old(View(other))
    {
      if i.getFails.Some? {
        return Some("failed to get job: " + i.getFails.value);
      }
      if name !in jobs {
        return None;
      }
      var complete, failed, stopped := StopsOf(jobs[name]);
      if complete {
        return None;
      }
      error := None;
      if failed || stopped {
        var state := retryState[name];
        var nextNodeIndex, nextAttemptNumber := state.index + 1, state.attempt;
        if nextNodeIndex >= |i.nodes.value| {
          nextNodeIndex := 0;
          if state.attempt >= state.maxAttempts {
            nextAttemptNumber := 1;
            error := Some(MAX_RETRIES_MESSAGE);
          } else {
            nextAttemptNumber := nextAttemptNumber + 1;
          }
        }
        retryState := retryState[name := state.(index := nextNodeIndex, attempt := nextAttemptNumber)];
      }
    }

    method ResetJobRetryState(name: string)
      modifies this`retryState
      ensures View(name) == Next(old(View(name)), ResetRetry)
      ensures forall other :: other != name ==> View(other) == old(View(other))
    {
      retryState := retryState - {name};
    }

    /** The hook: brings the retry state up to date, then reads it. */
    method GetJob(name: string, i: Input) returns (hook: Hook)
      modifies this`retryState, this`jobBlockedSince, this`jobNoSchedulableNodesSince, this`jobs
      ensures hook == HookOf(old(View(name)), i)
      ensures View(name) == RetryModel.SyncMultiNodeJobState(old(View(name)), i).cell
      ensures forall other :: other != name ==> View(other) == old(View(other))
    {
      hide RetryModel.SyncMultiNodeJobState;
      var error := SyncMultiNodeJobState(name, i);
      if error.Some? {
        return HookFails(HookError(error.value));
      }
      if name !in retryState {
        return Skip;
      }
      hook := ConfigureMultiNodeJob(retryState[name], i.rest);
    }

    method ConfigureMultiNodeJob(state: RetryState, rest: nat) returns (hook: Hook)
      ensures hook.BadIndex? <==> !(0 <= state.index < |state.targets|)
      ensures !hook.BadIndex? ==>
                && hook.Apply? && hook.required.node == state.targets[state.index]
                && hook.required.attempt == state.attempt && hook.required.index == state.index
                && hook.required.rest == rest
    {
      if !(0 <= state.index < |state.targets|) {
        return BadIndex;
      }
      var selectedNodeName := state.targets[state.index];
      return Apply(Template(selectedNodeName, state.attempt, state.index, rest));
    }

    /** Creates, keeps or deletes the job; drift in the retry fields alone is ignored
        unless the job failed. */
    method ApplyJob(name: string, required: Template, i: Input) returns (applied: Applied)
      modifies this`jobs
      ensures RetryModel.ApplyJob(old(View(name)), required, i) == ApplyOutcome(View(name), applied)
      ensures forall other :: other != name ==> View(other) == old(View(other))
    {
      if i.applyGetFails.Some? {
        return ApplyFails(i.applyGetFails.value);
      }
      if name !in jobs {
        if i.createFails {
          return Applied(NO_JOB, false);
        }
        jobs := jobs[name := Created(required)];
        return Applied(jobs[name], true);
      }
      var existing := jobs[name];
      var expectedGeneration := if name in generations then generations[name] else -1;
      if existing.spec == required && existing.generation == expectedGeneration {
        return Applied(existing, true);
      }
      var failed := IsConditionTrue(existing.conditions, JobFailed);
      if !failed {
        var onlyRetryFields := IsDriftOnlyInRetryFields(existing.spec, required);
        if onlyRetryFields {
          return Applied(existing, true);
        }
      }
      if i.applyDeleteFails.Some? {
        return ApplyFails(i.applyDeleteFails.value);
      }
      jobs := jobs - {name};
      return ApplyFails("job spec was modified, old job is deleted");
    }

    method IsDriftOnlyInRetryFields(existing: Template, required: Template) returns (only: bool)
      ensures only <==> existing.rest == required.rest
    {
      var existingStripped, requiredStripped := existing, required;
      existingStripped := existingStripped.(node := "");
      requiredStripped := requiredStripped.(node := "");
      existingStripped := existingStripped.(index := 0, attempt := 0);
      requiredStripped := requiredStripped.(index := 0, attempt := 0);
      return existingStripped == requiredStripped;
    }

    /** One sync of a managed operator. */
    method SyncManaged(name: string, i: Input) returns (error: Option<string>)
      modifies this`retryState, this`jobBlockedSince, this`jobNoSchedulableNodesSince, this`jobs, this`generations
      ensures RetryModel.SyncManaged(old(View(name)), i) == Outcome(View(name), error)
      ensures forall other :: other != name ==> View(other) == old(View(other))
    {
      hide RetryModel.SyncMultiNodeJobState, HookOf, RetryModel.ApplyJob, RetryModel.Conclude, Preserve;
      var hook := GetJob(name, i);
      match hook
      case HookFails(m) => error := PreserveMaxRetriesOnReturn(name, Some(m), "hook error");
      case BadIndex => error := PreserveMaxRetriesOnReturn(name, Some(HookError("invalid node index")), "hook error");
      case Skip => error := PreserveMaxRetriesOnReturn(name, None, "hook skipped job application");
      case Apply(required) =>
        var applied := ApplyJob(name, required, i);
        if applied.ApplyFails? {
          error := PreserveMaxRetriesOnReturn(name, Some(applied.message), "ApplyJob error");
        } else {
          error := Conclude(name, applied.job, applied.named, i);
        }
    }

    method PreserveMaxRetriesOnReturn(name: string, error: Option<string>, reason: string) returns (r: Option<string>)
      ensures forall c: Cell :: c.degraded == Find(degraded, name) ==> r == Preserve(c, error, reason)
    {
      if name !in degraded || !degraded[name].active || !Contains(degraded[name].message, MAX_RETRIES_MESSAGE) {
        return error;
      }
      return Some(MAX_RETRIES_MESSAGE + "; " + if error.Some? then error.value else reason);
    }

    method Conclude(name: string, job: Job, named: bool, i: Input) returns (error: Option<string>)
      modifies this`jobs, this`generations
      ensures RetryModel.Conclude(old(View(name)), job, named, i) == Outcome(View(name), error)
      ensures forall other :: other != name ==> View(other) == old(View(other))
    {
      hide Preserve;
      var complete, failed, _ := StopsOf(job);
      if failed {
        var failedTime := FindFailedTime(job.conditions);
        if failedTime.Some? && i.now - failedTime.value > STUCK_JOB_RECOVERY_TIMEOUT {
          if !i.stuckDeleteFails {
            jobs := jobs - {name};
          }
          error := PreserveMaxRetriesOnReturn(name, None, "deleted stuck job");
          return;
        }
      }
      if i.statusFails.Some? {
        error := PreserveMaxRetriesOnReturn(name, i.statusFails, "ApplyOperatorStatus error");
        return;
      }
      generations := if named then generations[name := job.generation] else generations - {name};
      if failed {
        error := PreserveMaxRetriesOnReturn(name, Some("Job failed"), "");
        return;
      }
      if !complete {
        error := PreserveMaxRetriesOnReturn(name, None, "waiting for success");
        return;
      }
      return None;
    }

    /** A whole sync, with the framework's report of its error. */
    method Sync(name: string, m: Management, i: Input)
      modifies this
      ensures View(name) == Next(old(View(name)), Syncs(m, i))
      ensures forall other :: other != name ==> View(other) == old(View(other))
    {
      hide RetryModel.SyncManaged;
      var error: Option<string>;
      match m {
        case ReadFails(message) => error := Some(message);
        case NotManaged => error := None;
        case Managed => error := SyncManaged(name, i);
      }
      assert RetryModel.Sync(old(View(name)), m, i) == Outcome(View(name), error);
      degraded := degraded[name := if error.Some? then Degraded(true, error.value) else Degraded(false, "")];
    }
  }
}
