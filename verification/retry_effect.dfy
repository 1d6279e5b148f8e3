/** What one sync of a job controller does to the job and the retry state, said in terms
    of those alone. */
module RetryEffect {
  import opened Basics
  import opened RetryModel
  import opened RetrySafety

  // ----- job conditions -----

  /** The first condition of the type is true. */
  predicate FirstIsTrue(conditions: seq<Condition>, kind: ConditionType) {
    exists k :: && 0 <= k < |conditions| && conditions[k].kind == kind && conditions[k].status == True
                && forall j :: 0 <= j < k ==> conditions[j].kind != kind
  }

  lemma {:induction false} ConditionIsFirst(conditions: seq<Condition>, kind: ConditionType)
    ensures ConditionTrue(conditions, kind) <==> FirstIsTrue(conditions, kind)
  {
    if conditions != [] {
      var rest := conditions[1..];
      ConditionIsFirst(rest, kind);
      if conditions[0].kind == kind {
        assert conditions[0].status == True ==> FirstIsTrue(conditions, kind);
      } else {
        if FirstIsTrue(rest, kind) {
          var k :| && 0 <= k < |rest| && rest[k].kind == kind && rest[k].status == True
                   && forall j :: 0 <= j < k ==> rest[j].kind != kind;
          assert conditions[k + 1] == rest[k];
          forall j | 0 <= j < k + 1 ensures conditions[j].kind != kind {
            assert j > 0 ==> conditions[j] == rest[j - 1];
          }
        }
        if FirstIsTrue(conditions, kind) {
          var k :| && 0 <= k < |conditions| && conditions[k].kind == kind && conditions[k].status == True
                   && forall j :: 0 <= j < k ==> conditions[j].kind != kind;
          assert rest[k - 1] == conditions[k];
        }
      }
    }
  }

  /** When a job counts as complete, failed and stopped. */
  lemma StopsAreExact(job: Job)
    ensures IsComplete(job) <==> FirstIsTrue(job.conditions, JobComplete)
    ensures IsFailed(job) <==> FirstIsTrue(job.conditions, JobFailed)
    ensures IsStopped(job) <==>
              || FirstIsTrue(job.conditions, JobComplete) || FirstIsTrue(job.conditions, JobFailed)
              || FirstIsTrue(job.conditions, JobFailureTarget)
              || (job.active == 0 && job.failed > 0 &&
                  job.failed > match job.backoffLimit case Some(limit) => limit case None => 6)
  {
    ConditionIsFirst(job.conditions, JobComplete);
    ConditionIsFirst(job.conditions, JobFailed);
    ConditionIsFirst(job.conditions, JobFailureTarget);
  }

  // ----- before the job is looked at -----

  /** No affected node that is checked is not ready. */
  predicate AllReady(i: Input) {
    i.affected == NoCheck ||
    (i.affected.AffectedReady? && forall k :: 0 <= k < |i.affected.ready| ==> i.affected.ready[k])
  }

  lemma ReadyMeans(i: Input)
    ensures AllReady(i) <==> i.affected.NoCheck? || (i.affected.AffectedReady? && false !in i.affected.ready)
  {
  }

  /** There are nodes to run on and a configuration. */
  predicate Answered(i: Input) {
    AllReady(i) && i.nodes.Got? && i.nodes.value != [] && i.config.Got?
  }

  /** The job of the first attempt on the first node. */
  function FirstJob(i: Input): Job
    requires i.nodes.Got? && i.nodes.value != []
  {
    Job(Template(i.nodes.value[0], 1, 0, i.rest), 1, [], 0, 0, Some(0))
  }

  /** Changed nodes or configuration: the old job goes, the state starts over with the
      current nodes and configuration, and the same sync ends with a new job on the first
      of them. */
  lemma DriftRestarts(c: Cell, i: Input)
    requires Answered(i) && c.retry.Some?
    requires c.retry.value.targets != i.nodes.value || c.retry.value.config != i.config.value
    requires i.getFails.None? && (c.job.Some? ==> i.deleteFails.None?) && i.applyGetFails.None? && !i.createFails
    ensures var t := SyncManaged(c, i).cell;
            && t.retry == Some(RetryState(1, 0, i.nodes.value, c.retry.value.maxAttempts, i.config.value))
            && t.job == Some(FirstJob(i))
  {
  }

  /** When the call to look for the job or to delete it fails, job and state stay. */
  lemma DriftCallFails(c: Cell, i: Input)
    requires Answered(i) && c.retry.Some?
    requires c.retry.value.targets != i.nodes.value || c.retry.value.config != i.config.value
    requires i.getFails.Some? || (c.job.Some? && i.deleteFails.Some?)
    ensures var o := SyncManaged(c, i);
            o.cell.retry == c.retry && o.cell.job == c.job && o.error.Some?
  {
    hide Preserve, Conclude, ApplyJob, Configured;
    DriftStateFails(c, i);
    hide SyncMultiNodeJobState;
    PreservesSome(c, HookOf(c, i).message);
  }

  lemma DriftStateFails(c: Cell, i: Input)
    requires Answered(i) && c.retry.Some?
    requires c.retry.value.targets != i.nodes.value || c.retry.value.config != i.config.value
    requires i.getFails.Some? || (c.job.Some? && i.deleteFails.Some?)
    ensures var o := SyncMultiNodeJobState(c, i);
            o.cell.retry == c.retry && o.cell.job == c.job && o.error.Some?
  {
    ReadyMeans(i);
    hide AllReady, SyncFailure;
    var d := c.(blockedSince := if i.affected.AffectedReady? then None else c.blockedSince);
    assert SyncMultiNodeJobState(c, i) == SyncSchedulable(d, i);
    assert SyncSchedulable(d, i) == SyncDrift(d.(noNodesSince := None), i);
  }

  lemma PreservesSome(c: Cell, message: string)
    ensures Preserve(c, Some(message), "hook error").Some?
  {
  }

  /** Without a retry state the first sync makes one; it creates the job, keeps one that
      has not failed and differs in retry fields alone, and deletes any other that is not
      the very one it would create. */
  lemma FirstSync(c: Cell, i: Input)
    requires Answered(i) && c.retry.None? && i.applyGetFails.None? && !i.createFails && i.applyDeleteFails.None?
    requires c.job.Some? ==> !FirstIsTrue(c.job.value.conditions, JobFailed)
    ensures var t := SyncManaged(c, i).cell;
            && t.retry == Some(RetryState(1, 0, i.nodes.value, i.maxAttempts, i.config.value))
            && (c.job.None? ==> t.job == Some(FirstJob(i)))
            && (c.job.Some? ==> t.job == if c.job.value.spec.rest == i.rest then c.job else None)
  {
    if c.job.Some? {
      ConditionIsFirst(c.job.value.conditions, JobFailed);
    }
  }

  /** Nothing to run on: no state is made and no call about the job. */
  lemma NoNodesNoState(c: Cell, i: Input)
    requires c.retry.None? && (i.nodes.Failed? || i.nodes.value == [] || i.config.Failed? || !AllReady(i))
    ensures SyncManaged(c, i).cell.retry.None? && SyncManaged(c, i).cell.job == c.job
  {
  }

  /** While affected nodes are not ready a job is still created exactly when there is a
      retry state already and the block has lasted no more than ten minutes. */
  lemma ReadinessHoldsBackTheFirstOnly(c: Cell, i: Input)
    requires i.affected.AffectedReady? && false in i.affected.ready && c.job.None? && RetryInv(c)
    requires i.applyGetFails.None? && !i.createFails
    ensures SyncManaged(c, i).cell.job.Some? <==>
              c.retry.Some? && (c.blockedSince.Some? ==> i.now - c.blockedSince.value <= 600)
  {
  }

  // ----- the job -----

  /** Nothing drifted, and the calls before the job is applied succeed. */
  predicate Steady(c: Cell, i: Input) {
    && Answered(i) && c.retry.Some? && InRange(c.retry.value)
    && c.retry.value.targets == i.nodes.value && c.retry.value.config == i.config.value
    && i.getFails.None? && i.applyGetFails.None? && i.applyDeleteFails.None?
  }

  /** The retry fields of the job the state asks for. */
  predicate Matches(job: Job, st: RetryState, rest: nat) {
    0 <= st.index < |st.targets| && job.spec == Template(st.targets[st.index], st.attempt, st.index, rest)
  }

  /** A job that has not stopped, or is complete, stays with the state, whatever its retry
      fields, unless the rest of its spec changed. */
  lemma HealthyJobStays(c: Cell, i: Input)
    requires Steady(c, i) && c.job.Some? && !IsFailed(c.job.value)
    requires IsComplete(c.job.value) || !IsStopped(c.job.value)
    ensures var t := SyncManaged(c, i).cell;
            t.retry == c.retry && t.job == if c.job.value.spec.rest == i.rest then c.job else None
  {
    hide Preserve;
  }

  /** While it runs the sync has an error exactly when the maximum of retries was reported
      before, once it is complete none; its generation is recorded. */
  lemma HealthyJobIsReported(c: Cell, i: Input)
    requires Steady(c, i) && c.job.Some? && !IsFailed(c.job.value) && i.statusFails.None?
    requires (IsComplete(c.job.value) || !IsStopped(c.job.value)) && c.job.value.spec.rest == i.rest
    ensures var o := SyncManaged(c, i);
            && o.cell.lastGeneration == Some(c.job.value.generation)
            && (o.error.Some? <==> !IsComplete(c.job.value) && MaxRetriesExceeded(c))
  {
    hide Contains;
    DegradedKept(c, i);
  }

  /** A missing job is created for the node and attempt of the state. */
  lemma MissingJobIsCreated(c: Cell, i: Input)
    requires Steady(c, i) && c.job.None?
    ensures var t := SyncManaged(c, i).cell;
            && t.retry == c.retry
            && (t.job.Some? <==> !i.createFails)
            && (t.job.Some? ==>
                  && Matches(t.job.value, c.retry.value, i.rest) && t.job.value.conditions == []
                  && t.job.value.active == 0 && t.job.value.failed == 0)
  {
  }

  /** A failed or stopped job moves the state to the next node, after the last to the next
      attempt, after the last attempt to the first, which is an error. */
  lemma StoppedJobMovesOn(c: Cell, i: Input)
    requires Steady(c, i) && c.job.Some? && !IsComplete(c.job.value) && IsStopped(c.job.value)
    ensures var st, t := c.retry.value, SyncManaged(c, i).cell;
            var last := st.index == |st.targets| - 1;
            && t.retry == Some(st.(index := if last then 0 else st.index + 1,
                                   attempt := if !last then st.attempt
                                              else if st.attempt < st.maxAttempts then st.attempt + 1 else 1))
            && (last && st.attempt >= st.maxAttempts ==> t.job == c.job && SyncManaged(c, i).error.Some?)
  {
  }

  /** A failed job is deleted when the state moves on within its rounds, unless it is
      exactly the job wanted next, as recorded, and has not been failed for ten minutes. */
  lemma FailedJobIsDeleted(c: Cell, i: Input)
    requires Steady(c, i) && c.job.Some? && IsFailed(c.job.value) && !IsComplete(c.job.value) && !i.stuckDeleteFails
    requires c.retry.value.index < |c.retry.value.targets| - 1 || c.retry.value.attempt < c.retry.value.maxAttempts
    ensures var t := SyncManaged(c, i).cell;
            t.retry.Some? &&
            (t.job == c.job <==>
               && Matches(c.job.value, t.retry.value, i.rest)
               && c.job.value.generation == (match c.lastGeneration case Some(g) => g case None => -1)
               && i.now - FailedTime(c.job.value.conditions).value <= 600)
            && (t.job != c.job ==> t.job.None?)
  {
    hide Preserve;
  }

  /** A stopped job that is not marked failed is kept while only retry fields differ. */
  lemma StoppedJobIsKept(c: Cell, i: Input)
    requires Steady(c, i) && c.job.Some? && !IsFailed(c.job.value) && !IsComplete(c.job.value) && IsStopped(c.job.value)
    requires c.job.value.spec.rest == i.rest
    ensures SyncManaged(c, i).cell.job == c.job
  {
  }

  /** Without a managed operator neither job nor state changes. */
  lemma UnmanagedDoesNothing(c: Cell, m: Management, i: Input)
    requires !m.Managed?
    ensures Sync(c, m, i).cell == c && (Sync(c, m, i).error.None? <==> m.NotManaged?)
  {
  }
}
