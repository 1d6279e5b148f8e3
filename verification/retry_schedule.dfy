/** Which node and attempt a sync uses: the closed form of the round robin, and the jobs
    that are really created when every job fails. */
module RetrySchedule {
  import opened Basics
  import opened RetryModel
  import opened RetrySafety

  // ----- slots -----

  /** The retry states in order: slot `k` is node `k mod n` in attempt `1 + k div n`. */
  function AtSlot(st: RetryState, k: nat): RetryState
    requires st.targets != []
  {
    st.(index := k % |st.targets|, attempt := 1 + k / |st.targets|)
  }

  function Slots(st: RetryState): (n: nat)
    ensures st.targets != [] ==> n > 0
  {
    MulPositive(|st.targets|, Max(st.maxAttempts, 1));
    |st.targets| * Max(st.maxAttempts, 1)
  }

  lemma MulPositive(a: nat, b: nat)
    ensures a * b >= 0 && (a > 0 && b > 0 ==> a * b > 0)
  {
  }

  lemma DivNext(k: nat, n: nat)
    requires n > 0
    ensures if k % n + 1 < n then (k + 1) % n == k % n + 1 && (k + 1) / n == k / n
            else (k + 1) % n == 0 && (k + 1) / n == k / n + 1
  {
    var q, r := k / n, k % n;
    if r + 1 < n {
      DivUnique(k + 1, n, q, r + 1);
    } else {
      assert (q + 1) * n == q * n + n;
      DivUnique(k + 1, n, q + 1, 0);
    }
  }

  lemma Multiples(n: nat, d: int)
    ensures d >= 1 ==> n * d >= n
    ensures d <= -1 ==> n * d + n <= 0
  {
  }

  lemma DivUnique(k: nat, n: nat, q: nat, r: nat)
    requires n > 0 && k == q * n + r && r < n
    ensures k / n == q && k % n == r
  {
    var d := q - k / n;
    assert n * d == k % n - r by {
      assert k == (k / n) * n + k % n;
      assert n * d == q * n - (k / n) * n;
    }
    Multiples(n, d);
  }

  lemma Monotone(n: nat, a: int, b: int)
    ensures a <= b ==> a * n <= b * n
  {
  }

  /** The slot's attempt is the last one exactly for the last row of slots. */
  lemma LastAttempt(k: nat, n: nat, m: nat)
    requires n > 0 && m > 0 && k < n * m
    ensures k / n < m
    ensures k % n == n - 1 ==> (k == n * m - 1 <==> k / n == m - 1)
  {
    assert k == (k / n) * n + k % n;
    Monotone(n, m, k / n);
    Monotone(n, k / n, m - 2);
    assert (m - 1) * n == m * n - n && (m - 2) * n == m * n - 2 * n;
  }

  /** Advancing goes to the next slot; past the last it starts over and says so. */
  lemma AdvanceSlot(st: RetryState, k: nat)
    requires st.targets != [] && k < Slots(st)
    ensures var a := Advance(AtSlot(st, k), |st.targets|);
            && a.exceeded == (k + 1 == Slots(st))
            && a.state == AtSlot(st, if k + 1 == Slots(st) then 0 else k + 1)
  {
    var n, m := |st.targets|, Max(st.maxAttempts, 1);
    DivNext(k, n);
    LastAttempt(k, n, m);
    if k % n == n - 1 && k / n < m - 1 {
      assert k + 1 != Slots(st);
    }
    if k + 1 == n * m {
      LastSlot(n, m);
    }
  }

  lemma LastSlot(n: nat, m: nat)
    requires n > 0 && m > 0 && n * m > 0
    ensures (n * m - 1) % n == n - 1 && (n * m - 1) / n == m - 1
  {
    assert n * m - 1 == (m - 1) * n + (n - 1) by {
      assert (m - 1) * n == m * n - n;
    }
    DivUnique(n * m - 1, n, m - 1, n - 1);
  }

  // ----- one observed failure per sync -----

  /** The sync gets as far as the job and finds it stopped without success. */
  predicate ObservesFailure(c: Cell, i: Input) {
    && c.retry.Some? && i.nodes == Got(c.retry.value.targets) && i.config == Got(c.retry.value.config)
    && (i.affected.NoCheck? || (i.affected.AffectedReady? && false !in i.affected.ready))
    && i.getFails.None?
    && c.job.Some? && IsStopped(c.job.value) && !IsComplete(c.job.value)
  }

  lemma FailureAdvances(c: Cell, i: Input)
    requires ObservesFailure(c, i) && c.retry.value.targets != []
    ensures var a := Advance(c.retry.value, |c.retry.value.targets|);
            && SyncMultiNodeJobState(c, i).cell.retry == Some(a.state)
            && SyncMultiNodeJobState(c, i).error == if a.exceeded then Some(MAX_RETRIES_MESSAGE) else None
  {
  }

  /** After `k` syncs that observe a failure the state is slot `k` modulo their number, and
      the `k`-th reports the maximum exactly when `k` is a multiple of it.  The job may
      change in between. */
  lemma {:induction false} ClosedForm(cells: seq<Cell>, inputs: seq<Input>, st: RetryState, k: nat)
    requires st.targets != [] && |cells| == |inputs| + 1 && k <= |inputs|
    requires cells[0].retry == Some(AtSlot(st, 0))
    requires forall j :: 0 <= j < |inputs| ==> (ObservesFailure(cells[j], inputs[j]) &&
               cells[j + 1].retry == SyncMultiNodeJobState(cells[j], inputs[j]).cell.retry)
    ensures cells[k].retry == Some(AtSlot(st, k % Slots(st)))
    ensures k > 0 ==>
              var error := SyncMultiNodeJobState(cells[k - 1], inputs[k - 1]).error;
              error == Some(MAX_RETRIES_MESSAGE) <==> k % Slots(st) == 0
  {
    var N := Slots(st);
    if k > 0 {
      ClosedForm(cells, inputs, st, k - 1);
      FailureAdvances(cells[k - 1], inputs[k - 1]);
      AdvanceSlot(st, (k - 1) % N);
      DivNext(k - 1, N);
    } else {
      DivUnique(0, N, 0, 0);
    }
  }

  /** The slot's node and attempt, in terms of `k` itself. */
  lemma SlotOfSyncs(st: RetryState, k: nat)
    requires st.targets != []
    ensures var n, m := |st.targets|, Max(st.maxAttempts, 1);
            var s := AtSlot(st, k % Slots(st));
            s.index == k % n && s.attempt == 1 + (k / n) % m
  {
    DivMod(k, |st.targets|, Max(st.maxAttempts, 1));
  }

  lemma DivMod(k: nat, n: nat, m: nat)
    requires n > 0 && m > 0
    ensures n * m > 0
    ensures (k % (n * m)) % n == k % n && (k % (n * m)) / n == (k / n) % m
  {
    MulPositive(n, m);
    var q, r, e := (k / n) / m, (k / n) % m, k % n;
    Recompose(k, n, m);
    RowBelow(n, m, r, e);
    DivUnique(k, n * m, q, r * n + e);
    DivUnique(r * n + e, n, r, e);
  }

  lemma Recompose(k: nat, n: nat, m: nat)
    requires n > 0 && m > 0
    ensures k == (k / n) / m * (n * m) + ((k / n) % m * n + k % n)
  {
  }

  lemma RowBelow(n: nat, m: nat, r: nat, e: nat)
    requires r < m && e < n
    ensures 0 <= r * n + e < n * m
  {
    Monotone(n, r, m - 1);
    assert (m - 1) * n == m * n - n;
    Monotone(n, 0, r);
  }

  // ----- the jobs that get created -----

  /** Nothing fails, nothing drifts, no readiness check. */
  predicate Quiet(i: Input, st: RetryState, rest: nat) {
    && i.affected.NoCheck? && i.nodes == Got(st.targets) && i.config == Got(st.config)
    && i.maxAttempts == st.maxAttempts
    && i.rest == rest && i.getFails.None? && i.deleteFails.None? && i.applyGetFails.None? && !i.createFails
    && i.applyDeleteFails.None? && !i.stuckDeleteFails && i.statusFails.None?
  }

  function SlotTemplate(st: RetryState, k: nat, rest: nat): Template
    requires st.targets != []
  {
    Template(st.targets[k % |st.targets|], 1 + k / |st.targets|, k % |st.targets|, rest)
  }

  /** The slot of the `j`-th job ever created: after the first cycle slot 0 is left out. */
  function SlotOfJob(j: nat, N: nat): nat
    requires N >= 3
  {
    if j < N then j else 1 + (j - N) % (N - 1)
  }

  lemma NextJob(j: nat, N: nat)
    requires N >= 3
    ensures SlotOfJob(j, N) < N
    ensures SlotOfJob(j + 1, N) == if SlotOfJob(j, N) == N - 1 then 1 else SlotOfJob(j, N) + 1
    ensures SlotOfJob(j, N) == N - 1 ==> j + 1 >= N
  {
    if j >= N {
      DivNext(j - N, N - 1);
    } else if j == N - 1 {
      DivUnique(0, N - 1, 0, 0);
    }
  }

  /** A job runs until it fails, and stays failed. */
  predicate Running(job: Job) {
    !IsStopped(job)
  }

  /** Where the controller can stand after `j` jobs were created. */
  predicate Standing(c: Cell, st: RetryState, rest: nat, j: nat)
    requires st.targets != [] && Slots(st) >= 3
  {
    var N := Slots(st);
    || (j == 0 && c.retry.None? && c.job.None?)
    || (c.retry == Some(AtSlot(st, SlotOfJob(j, N))) && c.job.None?)
    || (j > 0 && c.retry == Some(AtSlot(st, SlotOfJob(j - 1, N))) && c.job.Some?
        && c.job.value.spec == SlotTemplate(st, SlotOfJob(j - 1, N), rest)
        && (Running(c.job.value) || (IsFailed(c.job.value) && !IsComplete(c.job.value))))
    || (j > 0 && SlotOfJob(j - 1, N) == N - 1 && c.retry == Some(AtSlot(st, 0)) && c.job.Some?
        && c.job.value.spec == SlotTemplate(st, N - 1, rest) && IsFailed(c.job.value) && !IsComplete(c.job.value))
  }

  lemma QuietCreates(c: Cell, i: Input, st: RetryState, rest: nat, s: nat)
    requires st.targets != [] && Quiet(i, st, rest) && c.job.None?
    requires if c.retry.None? then s == 0 && AtSlot(st, 0) == st else c.retry == Some(AtSlot(st, s))
    ensures var d := SyncManaged(c, i).cell;
            d.retry == Some(AtSlot(st, s)) && d.job == Some(Created(SlotTemplate(st, s, rest)))
  {
  }

  lemma QuietWaits(c: Cell, i: Input, st: RetryState, rest: nat, s: nat)
    requires st.targets != [] && Quiet(i, st, rest) && c.retry == Some(AtSlot(st, s))
    requires c.job.Some? && Running(c.job.value) && c.job.value.spec == SlotTemplate(st, s, rest)
    ensures SyncManaged(c, i).cell.retry == c.retry && SyncManaged(c, i).cell.job == c.job
  {
  }

  lemma QuietFails(c: Cell, i: Input, st: RetryState, rest: nat, s: nat)
    requires st.targets != [] && Quiet(i, st, rest) && s < Slots(st) && c.retry == Some(AtSlot(st, s))
    requires c.job.Some? && IsFailed(c.job.value) && !IsComplete(c.job.value)
    requires c.job.value.spec != SlotTemplate(st, s + 1, rest)
    ensures var d := SyncManaged(c, i).cell;
            if s + 1 < Slots(st) then d.retry == Some(AtSlot(st, s + 1)) && d.job.None?
            else d.retry == Some(AtSlot(st, 0)) && d.job == c.job
  {
    AdvanceSlot(st, s);
    hide Slots, AtSlot;
    FailureAdvances(c, i);
  }

  /** A quiet sync creates the job of the next slot or none. */
  lemma SyncStands(c: Cell, i: Input, st: RetryState, rest: nat, j: nat)
    requires st.targets != [] && Slots(st) >= 3 && Standing(c, st, rest, j) && Quiet(i, st, rest)
    requires AtSlot(st, 0) == st
    ensures var d := SyncManaged(c, i).cell;
            if c.job.None? then
              d.job == Some(Created(SlotTemplate(st, SlotOfJob(j, Slots(st)), rest))) && Standing(d, st, rest, j + 1)
            else
              (d.job == c.job || d.job.None?) && Standing(d, st, rest, j)
  {
    var N := Slots(st);
    hide SyncManaged, SlotTemplate, AtSlot, Slots, Quiet;
    NextJob(j, N);
    if c.job.None? {
      QuietCreates(c, i, st, rest, SlotOfJob(j, N));
      assert !IsStopped(Created(SlotTemplate(st, SlotOfJob(j, N), rest)));
    } else {
      NextJob(j - 1, N);
      var t := SlotOfJob(j - 1, N);
      if Running(c.job.value) {
        QuietWaits(c, i, st, rest, t);
      } else if c.retry == Some(AtSlot(st, t)) && c.job.value.spec == SlotTemplate(st, t, rest) {
        OtherSlot(st, t, t + 1, rest);
        QuietFails(c, i, st, rest, t);
      } else {
        OtherSlot(st, N - 1, 1, rest);
        QuietFails(c, i, st, rest, 0);
      }
    }
  }

  lemma OtherSlot(st: RetryState, a: nat, b: nat, rest: nat)
    requires st.targets != [] && a != b
    ensures SlotTemplate(st, a, rest) != SlotTemplate(st, b, rest)
  {
  }

  /** An undisturbed sync, or the current job moving on or failing. */
  datatype Act = Quietly(input: Input) | JobMoves(job: Job)

  predicate ActEnabled(c: Cell, a: Act, st: RetryState, rest: nat) {
    match a
    case Quietly(i) => Quiet(i, st, rest)
    case JobMoves(job) =>
      c.job.Some? && Running(c.job.value) && job.spec == c.job.value.spec &&
      (Running(job) || (IsFailed(job) && !IsComplete(job)))
  }

  function ActNext(c: Cell, a: Act): Cell {
    match a
    case Quietly(i) => Next(c, Syncs(Managed, i))
    case JobMoves(job) => c.(job := Some(job))
  }

  datatype History = History(cell: Cell, created: seq<Template>)

  function Extend(h: History, a: Act): History {
    var d := ActNext(h.cell, a);
    History(d, if h.cell.job.None? && d.job.Some? then h.created + [d.job.value.spec] else h.created)
  }

  /** The cell after a run, with the template of every job created on the way. */
  function Replay(c: Cell, acts: seq<Act>): History {
    if acts == [] then History(c, []) else Extend(Replay(c, acts[..|acts| - 1]), acts[|acts| - 1])
  }

  ghost predicate Replayable(c: Cell, acts: seq<Act>, st: RetryState, rest: nat) {
    forall k :: 0 <= k < |acts| ==> ActEnabled(Replay(c, acts[..k]).cell, acts[k], st, rest)
  }

  predicate InOrder(h: History, st: RetryState, rest: nat)
    requires st.targets != [] && Slots(st) >= 3
  {
    && Standing(h.cell, st, rest, |h.created|)
    && forall j :: 0 <= j < |h.created| ==> h.created[j] == SlotTemplate(st, SlotOfJob(j, Slots(st)), rest)
  }

  lemma ExtendInOrder(h: History, a: Act, st: RetryState, rest: nat)
    requires st.targets != [] && Slots(st) >= 3 && AtSlot(st, 0) == st
    requires InOrder(h, st, rest) && ActEnabled(h.cell, a, st, rest)
    ensures InOrder(Extend(h, a), st, rest)
  {
    hide Standing, ActEnabled, ActNext, SlotTemplate, SlotOfJob, Slots, AtSlot;
    ActStands(h.cell, a, st, rest, |h.created|);
    var e := Extend(h, a);
    forall j | 0 <= j < |e.created| ensures e.created[j] == SlotTemplate(st, SlotOfJob(j, Slots(st)), rest) {
      if j < |h.created| {
        assert e.created[j] == h.created[j];
      }
    }
  }

  /** With at least three slots, all jobs failing and nothing else going wrong, the jobs
      created are those of slots 0 to N-1 and then of slots 1 to N-1 over and over: the
      first node's first attempt is made once and never again. */
  lemma {:induction false} JobsInOrder(c: Cell, acts: seq<Act>, st: RetryState, rest: nat)
    requires st.targets != [] && Slots(st) >= 3 && AtSlot(st, 0) == st
    requires c.retry.None? && c.job.None? && Replayable(c, acts, st, rest)
    ensures InOrder(Replay(c, acts), st, rest)
  {
    if acts != [] {
      hide InOrder;
      ReplayableBefore(c, acts, st, rest);
      JobsInOrder(c, acts[..|acts| - 1], st, rest);
      ExtendInOrder(Replay(c, acts[..|acts| - 1]), acts[|acts| - 1], st, rest);
    }
  }

  lemma ReplayableBefore(c: Cell, acts: seq<Act>, st: RetryState, rest: nat)
    requires acts != [] && Replayable(c, acts, st, rest)
    ensures Replayable(c, acts[..|acts| - 1], st, rest)
    ensures ActEnabled(Replay(c, acts[..|acts| - 1]).cell, acts[|acts| - 1], st, rest)
  {
    hide ActEnabled, Replay;
    var before := acts[..|acts| - 1];
    forall k | 0 <= k < |before| ensures ActEnabled(Replay(c, before[..k]).cell, before[k], st, rest) {
      assert before[..k] == acts[..k];
    }
  }

  lemma ActStands(c: Cell, a: Act, st: RetryState, rest: nat, j: nat)
    requires st.targets != [] && Slots(st) >= 3 && AtSlot(st, 0) == st
    requires Standing(c, st, rest, j) && ActEnabled(c, a, st, rest)
    ensures var d := ActNext(c, a);
            if c.job.None? && d.job.Some? then
              d.job.value.spec == SlotTemplate(st, SlotOfJob(j, Slots(st)), rest) && Standing(d, st, rest, j + 1)
            else Standing(d, st, rest, j)
  {
    if a.Quietly? {
      hide SyncManaged, Quiet;
      SyncStands(c, a.input, st, rest, j);
    }
  }

  lemma SlotZeroOnce(j: nat, N: nat)
    requires N >= 3
    ensures SlotOfJob(j, N) == 0 <==> j == 0
  {
  }

  // ----- few slots -----

  /** With a single slot the failed job is never replaced: every sync reports the maximum
      before the job is looked at, so not even the recovery of stuck jobs is reached. */
  lemma SingleSlotIsStuck(c: Cell, i: Input, st: RetryState, rest: nat)
    requires st.targets != [] && Slots(st) == 1 && AtSlot(st, 0) == st && Quiet(i, st, rest)
    requires c.retry == Some(st) && c.job.Some? && IsFailed(c.job.value) && !IsComplete(c.job.value)
    ensures var o := SyncManaged(c, i);
            && o.cell.retry == c.retry && o.cell.job == c.job
            && o.error.Some? && Contains(o.error.value, MAX_RETRIES_MESSAGE)
  {
    AdvanceSlot(st, 0);
    FailureAdvances(c, i);
    var m := HookError(MAX_RETRIES_MESSAGE);
    assert HookOf(c, i) == HookFails(m);
    SuffixContains("error running hook function (index=0): ", MAX_RETRIES_MESSAGE);
    if MaxRetriesExceeded(c) {
      PreservedContains(c, Some(m), "hook error");
    }
  }

  /** With two slots the failed last job matches the slot that follows the error, and is
      kept until the recovery of stuck jobs. */
  lemma TwoSlotsWaitForRecovery(c: Cell, i: Input, st: RetryState, rest: nat)
    requires st.targets != [] && Slots(st) == 2 && AtSlot(st, 0) == st && Quiet(i, st, rest)
    requires c.retry == Some(AtSlot(st, 0)) && c.job.Some? && IsFailed(c.job.value) && !IsComplete(c.job.value)
    requires c.job.value.spec == SlotTemplate(st, 1, rest) && c.lastGeneration == Some(c.job.value.generation)
    ensures var d := SyncManaged(c, i).cell;
            && d.retry == Some(AtSlot(st, 1))
            && (d.job == c.job <==> i.now - FailedTime(c.job.value.conditions).value <= 600)
            && (d.job != c.job ==> d.job.None?)
  {
    AdvanceSlot(st, 0);
    FailureAdvances(c, i);
  }

  // ----- stopped but not yet failed -----

  /** A job that stopped without being marked failed is kept, but every sync that sees it
      uses up a slot; so one job alone can bring about the max-retries error. */
  lemma {:induction false} StoppedUsesUpSlots(cells: seq<Cell>, inputs: seq<Input>, st: RetryState, rest: nat, k: nat)
    requires st.targets != [] && AtSlot(st, 0) == st && |cells| == |inputs| + 1 && k <= |inputs|
    requires cells[0].retry == Some(st) && cells[0].job.Some?
    requires var job := cells[0].job.value;
             IsStopped(job) && !IsComplete(job) && !IsFailed(job) && job.spec.rest == rest
    requires forall j :: 0 <= j < |inputs| ==>
               Quiet(inputs[j], st, rest) && cells[j + 1] == Next(cells[j], Syncs(Managed, inputs[j]))
    ensures cells[k].job == cells[0].job && cells[k].retry == Some(AtSlot(st, k % Slots(st)))
    ensures k > 0 && k % Slots(st) == 0 ==> MaxRetriesExceeded(cells[k])
  {
    var N := Slots(st);
    if k == 0 {
      DivUnique(0, N, 0, 0);
    } else {
      StoppedUsesUpSlots(cells, inputs, st, rest, k - 1);
      DivNext(k - 1, N);
      StoppedSync(cells[k - 1], inputs[k - 1], st, rest, (k - 1) % N);
    }
  }

  lemma StoppedSync(c: Cell, i: Input, st: RetryState, rest: nat, s: nat)
    requires st.targets != [] && s < Slots(st) && Quiet(i, st, rest) && c.retry == Some(AtSlot(st, s)) && c.job.Some?
    requires var job := c.job.value; IsStopped(job) && !IsComplete(job) && !IsFailed(job) && job.spec.rest == rest
    ensures var o := SyncManaged(c, i);
            && o.cell.job == c.job
            && o.cell.retry == Some(AtSlot(st, if s + 1 == Slots(st) then 0 else s + 1))
            && (s + 1 == Slots(st) ==> MaxRetriesExceeded(Reported(o)))
  {
    AdvanceSlot(st, s);
    hide Slots, AtSlot;
    FailureAdvances(c, i);
    if s + 1 == Slots(st) {
      var m := HookError(MAX_RETRIES_MESSAGE);
      SuffixContains("error running hook function (index=0): ", MAX_RETRIES_MESSAGE);
      if MaxRetriesExceeded(c) {
        PreservedContains(c, Some(m), "hook error");
      }
    }
  }

  // ----- timed blocking -----

  /** One observation of a timed block: whether it holds, and when. */
  datatype Seen = Seen(blocked: bool, now: int)

  function Track(since: Option<int>, seen: seq<Seen>): Blocked {
    if seen == [] then Blocked(since, Ready)
    else
      var before := Track(since, seen[..|seen| - 1]);
      TimedBlock(before.since, seen[|seen| - 1].blocked, seen[|seen| - 1].now)
  }

  /** The block times out exactly when it has lasted, without a break, since an observation
      more than the timeout ago. */
  lemma {:induction false} TimeoutIsExact(seen: seq<Seen>, first: nat)
    requires first < |seen| && (forall k :: first <= k < |seen| ==> seen[k].blocked)
    requires first > 0 ==> !seen[first - 1].blocked
    ensures Track(None, seen) ==
            Blocked(Some(seen[first].now),
              if seen[|seen| - 1].now - seen[first].now > 600 then TimedOut else Waiting)
  {
    var before := seen[..|seen| - 1];
    if first < |seen| - 1 {
      TimeoutIsExact(before, first);
    } else if first > 0 {
      assert before[|before| - 1] == seen[first - 1];
    }
  }
}
