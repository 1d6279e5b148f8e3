/** What the backup controller keeps however its syncs are cut off. */
module BackupSafety {
  import opened Basics
  import opened BackupModel

  // ----- invariant -----

  predicate OneCurrent(s: Store) {
    forall a, b :: a in s.jobs && b in s.jobs && !s.jobs[a].processed && !s.jobs[b].processed ==> a == b
  }

  predicate ProcessedFinished(s: Store) {
    forall j :: j in s.jobs && s.jobs[j].processed ==> Finished(s.jobs[j])
  }

  /** A backup that had its job is processed, gone, or still has that job unprocessed. */
  ghost predicate MadeOnce(s: Store) {
    && (forall b :: s.made[b] <= 1)
    && (forall b :: b in s.made ==> b in s.used)
    && (forall b :: b in s.backups ==> b in s.used)
    && (forall b :: b in s.made && Open(s, b) ==> exists j :: j in s.jobs && IsCurrent(s, j) && s.jobs[j].backup == b)
  }

  function TrueCount(conditions: seq<BackupCondition>): nat {
    if conditions == [] then 0
    else TrueCount(conditions[..|conditions| - 1]) + if conditions[|conditions| - 1].isTrue then 1 else 0
  }

  predicate OneTrue(s: Store) {
    forall b :: b in s.backups ==> TrueCount(s.backups[b].conditions) <= 1
  }

  ghost predicate Inv(s: Store) {
    OneCurrent(s) && ProcessedFinished(s) && MadeOnce(s) && OneTrue(s)
  }

  // ----- writes -----

  /** What makes a write safe. */
  predicate Safe(s: Store, w: Write) {
    match w
    case LabelJob(j) => j in s.jobs && Finished(s.jobs[j]) && !Open(s, s.jobs[j].backup)
    case DeleteJob(j) => j in s.jobs && !Open(s, s.jobs[j].backup)
    case CreateJob(j, b) => j !in s.jobs && Open(s, b) && forall k :: k in s.jobs ==> s.jobs[k].processed
    case _ => true
  }

  lemma {:induction false} FalsifiedCount(conditions: seq<BackupCondition>)
    ensures TrueCount(Falsified(conditions)) == 0
  {
    if conditions != [] {
      var before, c := conditions[..|conditions| - 1], conditions[|conditions| - 1].(isTrue := false);
      FalsifiedCount(before);
      assert (Falsified(before) + [c])[..|Falsified(before)|] == Falsified(before);
    }
  }

  lemma AddedCount(conditions: seq<BackupCondition>, c: BackupCondition)
    ensures TrueCount(Falsified(conditions) + [c]) <= 1
  {
  }

  lemma WriteOneTrue(s: Store, w: Write)
    requires OneTrue(s)
    ensures OneTrue(Apply(s, w))
  {
    if w.AddCondition? && w.b in s.backups {
      AddedCount(s.backups[w.b].conditions, BackupCondition(w.kind, true));
    } else if w.SetPending? {
      assert [BackupCondition(BackupPending, true)][..0] == [];
    }
  }

  lemma WriteMadeOnce(s: Store, w: Write)
    requires MadeOnce(s) && OneCurrent(s) && Safe(s, w)
    ensures MadeOnce(Apply(s, w))
  {
    var t := Apply(s, w);
    forall b | b in t.made && Open(t, b) ensures exists j :: j in t.jobs && IsCurrent(t, j) && t.jobs[j].backup == b {
      if w.CreateJob? && b == w.b {
        assert IsCurrent(t, w.j);
      } else {
        assert Open(s, b);
        var j :| j in s.jobs && IsCurrent(s, j) && s.jobs[j].backup == b;
        assert IsCurrent(t, j) && t.jobs[j].backup == b;
      }
    }
    if w.CreateJob? {
      assert w.b !in s.made;
    }
  }

  lemma SafeInv(s: Store, w: Write)
    requires Inv(s) && Safe(s, w)
    ensures Inv(Apply(s, w))
  {
    WriteOneTrue(s, w);
    WriteMadeOnce(s, w);
    hide MadeOnce, OneTrue;
  }

  /** Every write is safe when its turn comes. */
  predicate AllSafe(s: Store, ws: seq<Write>) {
    ws == [] || (AllSafe(s, ws[..|ws| - 1]) && Safe(ApplyAll(s, ws[..|ws| - 1]), ws[|ws| - 1]))
  }

  lemma {:induction false} AllSafeInv(s: Store, ws: seq<Write>, done: nat)
    requires Inv(s) && AllSafe(s, ws) && done <= |ws|
    ensures Inv(ApplyAll(s, ws[..done]))
  {
    hide Inv, Safe, Apply;
    if done < |ws| {
      AllSafeInv(s, ws[..|ws| - 1], done);
      assert ws[..|ws| - 1][..done] == ws[..done];
    } else if ws != [] {
      assert ws[..done] == ws && ws[..|ws| - 1][..|ws| - 1] == ws[..|ws| - 1];
      AllSafeInv(s, ws[..|ws| - 1], |ws| - 1);
      SafeInv(ApplyAll(s, ws[..|ws| - 1]), ws[|ws| - 1]);
    }
  }

  lemma {:induction false} ApplyAllAppend(s: Store, a: seq<Write>, b: seq<Write>)
    ensures ApplyAll(s, a + b) == ApplyAll(ApplyAll(s, a), b)
    ensures AllSafe(s, a) && AllSafe(ApplyAll(s, a), b) ==> AllSafe(s, a + b)
  {
    hide Safe, Apply;
    if b == [] {
      assert a + b == a;
    } else {
      assert (a + b)[..|a + b| - 1] == a + b[..|b| - 1];
      ApplyAllAppend(s, a, b[..|b| - 1]);
    }
  }

  lemma {:induction false} SkipsSafe(s: Store, names: seq<Name>)
    ensures AllSafe(s, SkipWrites(names))
  {
    if names != [] {
      var before, n := names[..|names| - 1], names[|names| - 1];
      SkipsSafe(s, before);
      TwoWrites(ApplyAll(s, SkipWrites(before)), AddCondition(n, BackupSkipped), LabelBackup(n));
      ApplyAllAppend(s, SkipWrites(before), [AddCondition(n, BackupSkipped), LabelBackup(n)]);
    }
  }

  lemma TwoWrites(s: Store, a: Write, b: Write)
    ensures ApplyAll(s, [a, b]) == Apply(Apply(s, a), b)
    ensures Safe(s, a) && Safe(Apply(s, a), b) ==> AllSafe(s, [a, b])
  {
    hide Safe, Apply;
    assert [a, b][..1] == [a] && [a][..0] == [];
    assert ApplyAll(s, [a]) == Apply(ApplyAll(s, []), a);
    assert Safe(s, a) ==> AllSafe(s, [a]);
  }

  lemma OneWrite(s: Store, w: Write)
    ensures ApplyAll(s, [w]) == Apply(s, w) && (Safe(s, w) ==> AllSafe(s, [w]))
  {
  }

  lemma RunSafe(s: Store, i: Input, order: seq<Name>)
    requires (forall j :: j in s.jobs ==> s.jobs[j].processed) && i.jobName !in s.jobs
    requires forall b :: b in order ==> Open(s, b)
    ensures AllSafe(s, RunWrites(s, i, order))
  {
    if order != [] {
      var b := order[0];
      assert b in order;
      if s.backups[b].claim !in i.claims {
        TwoWrites(s, AddCondition(b, BackupFailed), LabelBackup(b));
      } else {
        TwoWrites(s, CreateJob(i.jobName, b), SetPending(b));
        var t := ApplyAll(s, [CreateJob(i.jobName, b), SetPending(b)]);
        SkipsSafe(t, order[1..]);
        ApplyAllAppend(s, [CreateJob(i.jobName, b), SetPending(b)], SkipWrites(order[1..]));
      }
    }
  }

  /** The choice of what to run depends on the claim of the first backup alone. */
  lemma RunWritesSame(s: Store, t: Store, i: Input, order: seq<Name>)
    requires order != [] ==>
               order[0] in s.backups && order[0] in t.backups && s.backups[order[0]].claim == t.backups[order[0]].claim
    ensures RunWrites(s, i, order) == RunWrites(t, i, order)
  {
  }

  /** The part of a sync that deals with the current job, and the state it leads to. */
  lemma CurrentSafe(s: Store, i: Input, j: Name, order: seq<Name>) returns (t: Store)
    requires Inv(s) && Seen(s, Some(j), order) && i.jobName !in s.jobs && Finished(s.jobs[j])
    ensures var ws := if Open(s, s.jobs[j].backup) then ReconcileWrites(j, s.jobs[j]) else [DeleteJob(j)];
            AllSafe(s, ws) && t == ApplyAll(s, ws)
    ensures i.jobName !in t.jobs && forall k :: k in t.jobs ==> t.jobs[k].processed
    ensures forall b :: b in order ==> b in s.backups && Open(t, b) && t.backups[b].claim == s.backups[b].claim
  {
    var job := s.jobs[j];
    if Open(s, job.backup) {
      var a, c, d := LabelBackup(job.backup), AddCondition(job.backup, OutcomeOf(job)), LabelJob(j);
      TwoWrites(s, a, c);
      var u := Apply(Apply(s, a), c);
      t := Apply(u, d);
      OneWrite(u, d);
      ApplyAllAppend(s, [a, c], [d]);
      assert ReconcileWrites(j, job) == [a, c] + [d];
    } else {
      t := Apply(s, DeleteJob(j));
      OneWrite(s, DeleteJob(j));
    }
  }

  lemma WritesSafe(s: Store, i: Input, current: Option<Name>, order: seq<Name>)
    requires Inv(s) && Seen(s, current, order) && i.jobName !in s.jobs
    ensures AllSafe(s, Writes(s, i, current, order))
  {
    assert order != [] ==> order[0] in order;
    if current.None? {
      RunSafe(s, i, order);
    } else if Finished(s.jobs[current.value]) {
      var t := CurrentSafe(s, i, current.value, order);
      hide Safe, Apply, RunWrites, ReconcileWrites, Inv;
      var job := s.jobs[current.value];
      var ws := if Open(s, job.backup) then ReconcileWrites(current.value, job) else [DeleteJob(current.value)];
      RunWritesSame(s, t, i, order);
      RunSafe(t, i, order);
      ApplyAllAppend(s, ws, RunWrites(t, i, order));
    }
  }

  // ----- runs -----

  lemma EventInv(s: Store, e: Event)
    requires Inv(s) && Enabled(s, e)
    ensures Inv(Next(s, e))
  {
    match e
    case Syncs(i, current, order, done) =>
      hide Inv;
      WritesSafe(s, i, current, order);
      AllSafeInv(s, Writes(s, i, current, order), done);
    case NewBackup(b, claim) => OtherEventInv(s, e);
    case DeleteBackup(b) => OtherEventInv(s, e);
    case JobMoves(j, conditions) => OtherEventInv(s, e);
  }

  lemma OtherEventInv(s: Store, e: Event)
    requires Inv(s) && Enabled(s, e) && !e.Syncs?
    ensures Inv(Next(s, e))
  {
    var t := Next(s, e);
    forall b | b in t.made && Open(t, b) ensures exists j :: j in t.jobs && IsCurrent(t, j) && t.jobs[j].backup == b {
      assert Open(s, b);
      var j :| j in s.jobs && IsCurrent(s, j) && s.jobs[j].backup == b;
      assert IsCurrent(t, j) && t.jobs[j].backup == b;
    }
  }

  lemma {:induction false} RunInv(s: Store, events: seq<Event>)
    requires Inv(s) && Runnable(s, events)
    ensures Inv(Run(s, events))
    decreases |events|
  {
    if events != [] {
      hide Inv, Next, Enabled;
      EventInv(s, events[0]);
      RunInv(Next(s, events[0]), events[1..]);
    }
  }

  /** In every run, wherever its syncs are cut off: at most one job is unfinished, every
      processed job is finished, no backup gets two jobs, and no backup has two true
      conditions. */
  lemma BackupsAreSafe(events: seq<Event>)
    requires Runnable(EMPTY, events)
    ensures var s := Run(EMPTY, events);
            && (forall a, b :: a in s.jobs && b in s.jobs && !Finished(s.jobs[a]) && !Finished(s.jobs[b]) ==> a == b)
            && (forall j :: j in s.jobs && s.jobs[j].processed ==> Finished(s.jobs[j]))
            && (forall b :: s.made[b] <= 1)
            && (forall b :: b in s.backups ==> TrueCount(s.backups[b].conditions) <= 1)
  {
    hide Run, Runnable;
    assert Inv(EMPTY);
    RunInv(EMPTY, events);
  }

  // ----- lost outcomes -----

  /** The open backup a write changes. */
  predicate Spares(w: Write, b: Name) {
    match w
    case LabelBackup(x) => x != b
    case AddCondition(x, _) => x != b
    case SetPending(x) => x != b
    case _ => true
  }

  lemma {:induction false} SparedStays(s: Store, ws: seq<Write>, b: Name)
    requires b in s.backups && forall w :: w in ws ==> Spares(w, b)
    ensures b in ApplyAll(s, ws).backups && ApplyAll(s, ws).backups[b] == s.backups[b]
  {
    if ws != [] {
      SparedStays(s, ws[..|ws| - 1], b);
      assert ws[|ws| - 1] in ws;
    }
  }

  lemma {:induction false} SkipsSpare(names: seq<Name>, b: Name)
    requires b !in names
    ensures forall w :: w in SkipWrites(names) ==> Spares(w, b)
  {
    if names != [] {
      SkipsSpare(names[..|names| - 1], b);
    }
  }

  lemma WritesSpare(s: Store, i: Input, current: Option<Name>, order: seq<Name>, b: Name)
    requires Seen(s, current, order) && b in s.backups && s.backups[b].processed
    ensures forall w :: w in Writes(s, i, current, order) ==> Spares(w, b)
  {
    assert b !in order;
    if order != [] {
      assert order[0] in order;
      forall k | 1 <= k < |order| ensures order[k] != b { assert order[k] in order; }
      SkipsSpare(order[1..], b);
    }
  }

  /** No sync touches a processed backup again. */
  lemma {:induction false} ProcessedIsFinal(s: Store, events: seq<Event>, b: Name)
    requires Inv(s) && Runnable(s, events) && b in s.used && (b in s.backups ==> s.backups[b].processed)
    ensures b in Run(s, events).backups ==> b in s.backups && Run(s, events).backups[b] == s.backups[b]
    decreases |events|
  {
    if events != [] {
      var e := events[0];
      EventInv(s, e);
      FinalStep(s, e, b);
      hide Inv, Next, Enabled;
      ProcessedIsFinal(Next(s, e), events[1..], b);
    }
  }

  lemma {:induction false} UsedKept(s: Store, ws: seq<Write>)
    ensures ApplyAll(s, ws).used == s.used && ApplyAll(s, ws).backups.Keys == s.backups.Keys
  {
    if ws != [] {
      UsedKept(s, ws[..|ws| - 1]);
    }
  }

  lemma FinalStep(s: Store, e: Event, b: Name)
    requires Enabled(s, e) && b in s.used && (b in s.backups ==> s.backups[b].processed)
    ensures var t := Next(s, e);
            b in t.used && (b in t.backups ==> b in s.backups && t.backups[b] == s.backups[b])
  {
    if e.Syncs? {
      hide Writes;
      var ws := Writes(s, e.input, e.current, e.order);
      UsedKept(s, ws[..e.done]);
      if b in s.backups {
        WritesSpare(s, e.input, e.current, e.order, b);
        SparedStays(s, ws[..e.done], b);
      }
    }
  }

  /** A sync that reconciles a finished job leaves the backup processed without its outcome
      exactly when it is cut off after its first write; no later sync makes up for it. */
  lemma OutcomeLostExactly(s: Store, e: Event, events: seq<Event>)
    requires Inv(s) && e.Syncs? && e.current.Some? && Enabled(s, e)
    requires Finished(s.jobs[e.current.value]) && Open(s, s.jobs[e.current.value].backup)
    requires Runnable(Next(s, e), events)
    ensures var b := s.jobs[e.current.value].backup;
            var t := Next(s, e);
            && b in t.backups
            && (t.backups[b].processed && t.backups[b].conditions == s.backups[b].conditions <==> e.done == 1)
            && (e.done >= 2 <==>
                t.backups[b].conditions ==
                Falsified(s.backups[b].conditions) + [BackupCondition(OutcomeOf(s.jobs[e.current.value]), true)])
            && (e.done >= 1 && b in Run(t, events).backups ==> Run(t, events).backups[b] == t.backups[b])
  {
    var j, b, t := e.current.value, s.jobs[e.current.value].backup, Next(s, e);
    var ws := Writes(s, e.input, e.current, e.order);
    Prefix(s, e, ws);
    FalsifiedLength(s.backups[b].conditions);
    EventInv(s, e);
    if e.done >= 1 {
      assert b in t.used by {
        UsedKept(s, ws[..e.done]);
      }
      ProcessedIsFinal(t, events, b);
    }
  }

  lemma {:induction false} FalsifiedLength(conditions: seq<BackupCondition>)
    ensures |Falsified(conditions)| == |conditions|
  {
    if conditions != [] {
      FalsifiedLength(conditions[..|conditions| - 1]);
    }
  }

  /** The reconciled backup after so many writes. */
  lemma Prefix(s: Store, e: Event, ws: seq<Write>)
    requires Inv(s) && e.Syncs? && e.current.Some? && Enabled(s, e) && ws == Writes(s, e.input, e.current, e.order)
    requires Finished(s.jobs[e.current.value]) && Open(s, s.jobs[e.current.value].backup)
    ensures var job := s.jobs[e.current.value];
            var before, t := s.backups[job.backup], ApplyAll(s, ws[..e.done]);
            job.backup in t.backups && t.backups[job.backup] ==
              if e.done == 0 then before
              else if e.done == 1 then before.(processed := true)
              else before.(processed := true,
                           conditions := Falsified(before.conditions) + [BackupCondition(OutcomeOf(job), true)])
  {
    var j, job := e.current.value, s.jobs[e.current.value];
    var b := job.backup;
    var a, c := LabelBackup(b), AddCondition(b, OutcomeOf(job));
    assert ws[0] == a && ws[1] == c && ws[2] == LabelJob(j);
    if e.done == 0 {
      assert ws[..0] == [];
    } else if e.done == 1 {
      assert ws[..1] == [a] && [a][..0] == [];
      assert ApplyAll(s, []) == s;
    } else {
      var rest := ws[2..e.done];
      assert ws[..e.done] == [a, c] + rest;
      TwoWrites(s, a, c);
      ApplyAllAppend(s, [a, c], rest);
      RestSpares(s, e, ws);
      SparedStays(Apply(Apply(s, a), c), rest, b);
    }
  }

  lemma RestSpares(s: Store, e: Event, ws: seq<Write>)
    requires e.Syncs? && e.current.Some? && Enabled(s, e) && ws == Writes(s, e.input, e.current, e.order)
    requires Finished(s.jobs[e.current.value]) && Open(s, s.jobs[e.current.value].backup) && e.done >= 2
    ensures forall w :: w in ws[2..e.done] ==> Spares(w, s.jobs[e.current.value].backup)
  {
    var b, order := s.jobs[e.current.value].backup, e.order;
    var run := RunWrites(s, e.input, order);
    assert b !in order;
    if order != [] {
      assert order[0] in order;
      forall k | 1 <= k < |order| ensures order[k] != b { assert order[k] in order; }
      SkipsSpare(order[1..], b);
    }
    assert ws == ReconcileWrites(e.current.value, s.jobs[e.current.value]) + run;
    forall w | w in ws[2..e.done] ensures Spares(w, b) {
      assert w == LabelJob(e.current.value) || w in run;
    }
  }
}
