/** What the retry scheduler keeps over every run. */
module RetrySafety {
  import opened Basics
  import opened RetryModel

  function Max(a: int, b: int): int {
    if a < b then b else a
  }

  /** The retry state names a node and an attempt that exist. */
  predicate InRange(st: RetryState) {
    0 <= st.index < |st.targets| && 1 <= st.attempt <= Max(st.maxAttempts, 1)
  }

  predicate RetryInv(c: Cell) {
    c.retry.Some? ==> InRange(c.retry.value)
  }

  lemma SyncInRange(c: Cell, i: Input)
    requires RetryInv(c)
    ensures RetryInv(SyncMultiNodeJobState(c, i).cell)
    ensures !HookOf(c, i).BadIndex?
  {
  }

  lemma RetryUntouched(c: Cell, i: Input)
    ensures SyncManaged(c, i).cell.retry == SyncMultiNodeJobState(c, i).cell.retry
  {
  }

  lemma {:induction false} RunInRange(c: Cell, events: seq<Event>)
    requires RetryInv(c)
    ensures RetryInv(RunEvents(c, events))
  {
    if events != [] {
      var before, e := RunEvents(c, events[..|events| - 1]), events[|events| - 1];
      RunInRange(c, events[..|events| - 1]);
      if e.Syncs? {
        SyncInRange(before, e.input);
        RetryUntouched(before, e.input);
      }
    }
  }

  /** Over all runs, with any mixture of drift, resets, restarts and API failures, the
      index check of the job configuration never fails. */
  lemma ConfigureNeverFails(events: seq<Event>, i: Input)
    ensures var c := RunEvents(Cell(None, None, None, None, None, None), events);
            RetryInv(c) && !HookOf(c, i).BadIndex?
  {
    RunInRange(Cell(None, None, None, None, None, None), events);
    SyncInRange(RunEvents(Cell(None, None, None, None, None, None), events), i);
  }

  // ----- the max-retries text -----

  lemma PrefixContains(a: string, b: string)
    ensures Contains(a + b, a)
  {
    assert OccursAt(a + b, a, 0);
  }

  lemma SuffixContains(a: string, b: string)
    ensures Contains(a + b, b)
  {
    assert OccursAt(a + b, b, |a|);
  }

  lemma PreservedContains(c: Cell, error: Option<string>, reason: string)
    requires MaxRetriesExceeded(c)
    ensures Preserve(c, error, reason).Some? && Contains(Preserve(c, error, reason).value, MAX_RETRIES_MESSAGE)
  {
    var rest := "; " + if error.Some? then error.value else reason;
    PrefixContains(MAX_RETRIES_MESSAGE, rest);
    assert Preserve(c, error, reason).value == MAX_RETRIES_MESSAGE + rest;
  }

  /** The sync applied a job that is complete and recorded so. */
  predicate Completes(c: Cell, i: Input) {
    && HookOf(c, i).Apply? && i.statusFails.None?
    && var a := ApplyJob(SyncMultiNodeJobState(c, i).cell, HookOf(c, i).required, i);
       a.result.Applied? && IsComplete(a.result.job) && !IsFailed(a.result.job)
  }

  /** Such a sync found the complete job when it began. */
  lemma CompletesObserved(c: Cell, i: Input)
    requires Completes(c, i)
    ensures c.job.Some? && IsComplete(c.job.value)
  {
  }

  lemma DegradedKept(c: Cell, i: Input)
    ensures SyncMultiNodeJobState(c, i).cell.degraded == c.degraded
    ensures forall required :: ApplyJob(c, required, i).cell.degraded == c.degraded
  {
  }

  /** The text of the max-retries error is lost exactly by completion, by an unmanaged
      operator and by a failed read of the operator state. */
  lemma StickyIsExact(c: Cell, m: Management, i: Input)
    requires MaxRetriesExceeded(c)
    ensures MaxRetriesExceeded(Reported(Sync(c, m, i))) <==>
              match m
              case Managed => !Completes(c, i)
              case NotManaged => false
              case ReadFails(message) => Contains(message, MAX_RETRIES_MESSAGE)
  {
    DegradedKept(c, i);
    if m.Managed? {
      if Completes(c, i) {
        assert !Reported(Sync(c, m, i)).degraded.value.active;
      } else {
        StaysSet(c, i);
      }
    }
  }

  predicate Says(o: Outcome) {
    o.error.Some? && Contains(o.error.value, MAX_RETRIES_MESSAGE)
  }

  lemma StaysSet(c: Cell, i: Input)
    requires MaxRetriesExceeded(c) && !Completes(c, i)
    ensures Says(SyncManaged(c, i))
  {
    hide MaxRetriesExceeded, Preserve, Contains, SyncMultiNodeJobState, ApplyJob, Conclude;
    var d := SyncMultiNodeJobState(c, i).cell;
    match HookOf(c, i)
    case HookFails(m) => PreservedContains(c, Some(m), "hook error");
    case BadIndex => PreservedContains(c, Some(HookError("invalid node index")), "hook error");
    case Skip => PreservedContains(c, None, "hook skipped job application");
    case Apply(required) =>
      var a := ApplyJob(d, required, i);
      if a.result.ApplyFails? {
        PreservedContains(c, Some(a.result.message), "ApplyJob error");
      } else {
        DegradedKept(c, i);
        DegradedKept(d, i);
        SameDegraded(c, a.cell);
        ConcludeSays(a.cell, a.result.job, a.result.named, i);
      }
  }

  lemma SameDegraded(c: Cell, d: Cell)
    requires c.degraded == d.degraded
    ensures MaxRetriesExceeded(c) == MaxRetriesExceeded(d)
  {
  }

  lemma ConcludeSays(c: Cell, job: Job, named: bool, i: Input)
    requires MaxRetriesExceeded(c)
    requires !(i.statusFails.None? && IsComplete(job) && !IsFailed(job))
    ensures Says(Conclude(c, job, named, i))
  {
    hide MaxRetriesExceeded, Preserve, Contains;
    PreservedContains(c, None, "deleted stuck job");
    PreservedContains(c, i.statusFails, "ApplyOperatorStatus error");
    PreservedContains(c, Some("Job failed"), "");
    PreservedContains(c, None, "waiting for success");
  }

  /** Along any run of managed syncs, whatever happens between them, the text stays until
      a sync completes, and such a sync found the job complete. */
  lemma {:induction false} StickyRun(c: Cell, events: seq<Event>, k: nat)
    requires k <= |events| && MaxRetriesExceeded(RunEvents(c, events[..k]))
    requires forall j :: k <= j < |events| && events[j].Syncs? ==>
               events[j].management.Managed? && !Completes(RunEvents(c, events[..j]), events[j].input)
    ensures MaxRetriesExceeded(RunEvents(c, events))
  {
    if k == |events| {
      assert events[..k] == events;
    } else {
      var n := |events| - 1;
      var before, e := events[..n], events[n];
      forall j | k <= j < n ensures before[..j] == events[..j] && before[j] == events[j] { }
      assert before[..k] == events[..k];
      StickyRun(c, before, k);
      if e.Syncs? {
        StickyIsExact(RunEvents(c, before), Managed, e.input);
      } else {
        SameDegraded(RunEvents(c, before), Next(RunEvents(c, before), e));
      }
    }
  }
}
