/** What one whole sync of the backup controller does, said in terms of the stored jobs and
    backups alone. */
module BackupEffect {
  import opened Basics
  import opened BackupModel
  import opened BackupSafety

  // ----- conditions -----

  /** The job's first true condition that ends it is of this type. */
  predicate EndedAs(conditions: seq<JobCondition>, kind: JobConditionType) {
    exists k :: && 0 <= k < |conditions| && conditions[k] == JobCondition(kind, true)
                && forall j :: 0 <= j < k ==> !(conditions[j].isTrue && conditions[j].kind in {JobComplete, JobFailed})
  }

  lemma {:induction false} EndingIsFirst(conditions: seq<JobCondition>)
    ensures Ending(conditions) == Some(JobComplete) <==> EndedAs(conditions, JobComplete)
    ensures Ending(conditions) == Some(JobFailed) <==> EndedAs(conditions, JobFailed)
    ensures Ending(conditions).None? <==> !EndedAs(conditions, JobComplete) && !EndedAs(conditions, JobFailed)
  {
    if conditions != [] {
      var rest := conditions[1..];
      EndingIsFirst(rest);
      forall kind | kind in {JobComplete, JobFailed}
        ensures EndedAs(conditions, kind) <==>
                  conditions[0] == JobCondition(kind, true) || (!Ends(conditions[0]) && EndedAs(rest, kind))
      {
        EndedLater(conditions, kind);
      }
    }
  }

  lemma EndedLater(conditions: seq<JobCondition>, kind: JobConditionType)
    requires conditions != [] && kind in {JobComplete, JobFailed}
    ensures EndedAs(conditions, kind) <==>
              conditions[0] == JobCondition(kind, true) || (!Ends(conditions[0]) && EndedAs(conditions[1..], kind))
  {
    var rest := conditions[1..];
    if k :| && 0 <= k < |rest| && rest[k] == JobCondition(kind, true)
            && forall j :: 0 <= j < k ==> !(rest[j].isTrue && rest[j].kind in {JobComplete, JobFailed}) {
      if !Ends(conditions[0]) {
        forall j | 0 <= j < k + 1 ensures !(conditions[j].isTrue && conditions[j].kind in {JobComplete, JobFailed}) {
          assert j > 0 ==> conditions[j] == rest[j - 1];
        }
        assert conditions[k + 1] == rest[k];
      }
    }
    if k :| && 0 <= k < |conditions| && conditions[k] == JobCondition(kind, true)
            && forall j :: 0 <= j < k ==> !(conditions[j].isTrue && conditions[j].kind in {JobComplete, JobFailed}) {
      if k > 0 {
        assert rest[k - 1] == conditions[k];
      }
    }
  }

  /** One true condition was added last, and all before it are false now. */
  predicate Added(before: seq<BackupCondition>, after: seq<BackupCondition>, kind: BackupConditionType) {
    && |after| == |before| + 1 && after[|before|] == BackupCondition(kind, true)
    && forall k :: 0 <= k < |before| ==> after[k] == BackupCondition(before[k].kind, false)
  }

  lemma {:induction false} FalsifiedIsExact(conditions: seq<BackupCondition>)
    ensures |Falsified(conditions)| == |conditions|
    ensures forall k :: 0 <= k < |conditions| ==> Falsified(conditions)[k] == BackupCondition(conditions[k].kind, false)
  {
    if conditions != [] {
      FalsifiedIsExact(conditions[..|conditions| - 1]);
    }
  }

  /** The backup was given that outcome and is done with. */
  predicate Closed(s: Store, t: Store, b: Name, kind: BackupConditionType) {
    && b in s.backups && b in t.backups && t.backups[b].processed && t.backups[b].claim == s.backups[b].claim
    && Added(s.backups[b].conditions, t.backups[b].conditions, kind)
  }

  predicate Same(s: Store, t: Store, b: Name) {
    (b in t.backups <==> b in s.backups) && (b in s.backups ==> t.backups[b] == s.backups[b])
  }

  // ----- parts of a sync -----

  lemma MarkDoes(s: Store, b: Name, kind: BackupConditionType)
    requires b in s.backups
    ensures var t := ApplyAll(s, [AddCondition(b, kind), LabelBackup(b)]);
            Closed(s, t, b, kind) && (forall x :: x != b ==> Same(s, t, x)) && t.jobs == s.jobs
    ensures var t := Apply(Apply(s, LabelBackup(b)), AddCondition(b, kind));
            Closed(s, t, b, kind) && (forall x :: x != b ==> Same(s, t, x)) && t.jobs == s.jobs
  {
    TwoWrites(s, AddCondition(b, kind), LabelBackup(b));
    FalsifiedIsExact(s.backups[b].conditions);
  }

  lemma {:induction false} SkipDoes(s: Store, names: seq<Name>)
    requires (forall b :: b in names ==> b in s.backups) && forall i, j :: 0 <= i < j < |names| ==> names[i] != names[j]
    ensures var t := ApplyAll(s, SkipWrites(names));
            && (forall b :: b in names ==> Closed(s, t, b, BackupSkipped))
            && (forall b :: b !in names ==> Same(s, t, b)) && t.jobs == s.jobs
  {
    hide Apply, Closed;
    if names == [] {
      assert ApplyAll(s, SkipWrites(names)) == s;
    } else {
      var before, n := names[..|names| - 1], names[|names| - 1];
      assert names == before + [n];
      assert n !in before && n in names;
      SkipDoes(s, before);
      var u := ApplyAll(s, SkipWrites(before));
      ApplyAllAppend(s, SkipWrites(before), [AddCondition(n, BackupSkipped), LabelBackup(n)]);
      MarkDoes(u, n, BackupSkipped);
      var t := ApplyAll(s, SkipWrites(names));
      forall b | b in names ensures Closed(s, t, b, BackupSkipped) {
        ClosedSame(s, u, t, b, BackupSkipped);
      }
      forall b | b !in names ensures Same(s, t, b) {
        assert b !in before && b != n && Same(s, u, b) && Same(u, t, b);
      }
    }
  }

  lemma ClosedSame(s: Store, u: Store, t: Store, b: Name, kind: BackupConditionType)
    ensures Same(s, u, b) && Closed(u, t, b, kind) ==> Closed(s, t, b, kind)
    ensures Closed(s, u, b, kind) && Same(u, t, b) ==> Closed(s, t, b, kind)
  {
  }

  /** The first of the backups by name gets a job and is pending, the others are skipped;
      without its volume claim the first fails and the others wait. */
  ghost predicate FirstIsRun(s: Store, i: Input, order: seq<Name>, t: Store) {
    if order == [] then t.jobs == s.jobs && forall b :: Same(s, t, b)
    else
      var f := order[0];
      && f in s.backups
      && if s.backups[f].claim !in i.claims then
           t.jobs == s.jobs && Closed(s, t, f, BackupFailed) && forall b :: b != f ==> Same(s, t, b)
         else
           && t.jobs == s.jobs[i.jobName := Job(f, false, [])]
           && f in t.backups && t.backups[f] == s.backups[f].(conditions := [BackupCondition(BackupPending, true)])
           && (forall b :: b in order && b != f ==> Closed(s, t, b, BackupSkipped))
           && forall b :: b !in order ==> Same(s, t, b)
  }

  lemma RunDoes(s: Store, i: Input, order: seq<Name>)
    requires (forall b :: b in order ==> b in s.backups) && forall i, j :: 0 <= i < j < |order| ==> order[i] < order[j]
    ensures FirstIsRun(s, i, order, ApplyAll(s, RunWrites(s, i, order)))
  {
    if order == [] {
      assert ApplyAll(s, RunWrites(s, i, order)) == s;
    } else {
      assert order[0] in order;
      if s.backups[order[0]].claim !in i.claims {
        MarkDoes(s, order[0], BackupFailed);
      } else {
        StartDoes(s, i, order);
      }
    }
  }

  lemma StartDoes(s: Store, i: Input, order: seq<Name>)
    requires order != [] && (forall b :: b in order ==> b in s.backups)
    requires forall i, j :: 0 <= i < j < |order| ==> order[i] < order[j]
    requires order[0] in order && s.backups[order[0]].claim in i.claims
    ensures FirstIsRun(s, i, order, ApplyAll(s, RunWrites(s, i, order)))
  {
    hide Closed, Apply, ApplyAll, RunWrites, SkipWrites, AllSafe;
    var f, rest := order[0], order[1..];
    assert order == [f] + rest;
    forall b ensures b in order <==> b == f || b in rest { }
    assert f !in rest;
    var u := StartedDoes(s, i, order);
    SkipDoes(u, rest);
    var t := ApplyAll(u, SkipWrites(rest));
    forall b | b in rest ensures Closed(s, t, b, BackupSkipped) {
      ClosedSame(s, u, t, b, BackupSkipped);
    }
    forall b | b !in order ensures Same(s, t, b) {
      assert Same(s, u, b) && Same(u, t, b);
    }
    assert Same(u, t, f);
  }

  lemma StartedDoes(s: Store, i: Input, order: seq<Name>) returns (u: Store)
    requires order != [] && order[0] in s.backups && s.backups[order[0]].claim in i.claims
    ensures ApplyAll(s, RunWrites(s, i, order)) == ApplyAll(u, SkipWrites(order[1..]))
    ensures u.jobs == s.jobs[i.jobName := Job(order[0], false, [])] && order[0] in u.backups
    ensures u.backups[order[0]] == s.backups[order[0]].(conditions := [BackupCondition(BackupPending, true)])
    ensures u.backups.Keys == s.backups.Keys && forall b :: b != order[0] ==> Same(s, u, b)
  {
    hide AllSafe, Safe, ApplyAll, SkipWrites;
    var a, c := CreateJob(i.jobName, order[0]), SetPending(order[0]);
    u := Apply(Apply(s, a), c);
    assert RunWrites(s, i, order) == [a, c] + SkipWrites(order[1..]);
    hide RunWrites;
    TwoWrites(s, a, c);
    ApplyAllAppend(s, [a, c], SkipWrites(order[1..]));
  }

  // ----- a whole sync -----

  /** No current job is running. */
  predicate NoneRuns(s: Store) {
    forall j :: j in s.jobs && !s.jobs[j].processed ==>
      EndedAs(s.jobs[j].conditions, JobComplete) || EndedAs(s.jobs[j].conditions, JobFailed)
  }

  /** A sync with a running job does nothing. */
  lemma RunningHoldsBack(s: Store, e: Event)
    requires OneCurrent(s) && e.Syncs? && Enabled(s, e) && !NoneRuns(s)
    ensures Next(s, e) == s
  {
    var j :| && j in s.jobs && !s.jobs[j].processed
             && !EndedAs(s.jobs[j].conditions, JobComplete) && !EndedAs(s.jobs[j].conditions, JobFailed);
    EndingIsFirst(s.jobs[j].conditions);
    assert e.current == Some(j);
    var ws := Writes(s, e.input, e.current, e.order);
    assert ws == [] && ws[..e.done] == [];
  }

  /** The part of a sync that settles the finished current job, if there is one: the open
      backup it was made for gets its outcome and it is labelled, or it is deleted. */
  ghost predicate Settled(s: Store, current: Option<Name>, t: Store) {
    if current.None? then t == s
    else
      && current.value in s.jobs
      && var j, b := current.value, s.jobs[current.value].backup;
         if b in s.backups && !s.backups[b].processed then
           && t.jobs == s.jobs[j := s.jobs[j].(processed := true)] && (forall x :: x != b ==> Same(s, t, x))
           && Closed(s, t, b, if EndedAs(s.jobs[j].conditions, JobFailed) then BackupFailed else BackupCompleted)
         else
           t.jobs == s.jobs - {j} && t.backups == s.backups
  }

  /** A complete sync without a running job settles the current one and then runs the first
      of the other open backups. */
  lemma SyncDoes(s: Store, e: Event) returns (u: Store)
    requires OneCurrent(s) && e.Syncs? && Enabled(s, e) && NoneRuns(s)
    requires e.done == |Writes(s, e.input, e.current, e.order)|
    ensures forall j :: j in s.jobs && !s.jobs[j].processed <==> e.current == Some(j)
    ensures forall b :: b in e.order <==>
              b in s.backups && !s.backups[b].processed && forall j :: j in s.jobs && !s.jobs[j].processed ==>
                s.jobs[j].backup != b
    ensures forall i, j :: 0 <= i < j < |e.order| ==> e.order[i] < e.order[j]
    ensures Settled(s, e.current, u) && FirstIsRun(u, e.input, e.order, Next(s, e))
  {
    var i, order, current := e.input, e.order, e.current;
    var ws := Writes(s, i, current, order);
    assert ws[..e.done] == ws;
    assert order != [] ==> order[0] in order;
    SeenIsExact(s, current, order);
    hide FirstIsRun, Settled, ApplyAll, RunWrites, Apply;
    if current.None? {
      u := s;
      NothingToSettle(s);
    } else {
      var j := current.value;
      EndingIsFirst(s.jobs[j].conditions);
      u := SettleDoes(s, j);
      ApplyAllAppend(s, SettlingWrites(s, j), RunWrites(s, i, order));
      RunWritesSame(s, u, i, order);
      assert ws == SettlingWrites(s, j) + RunWrites(s, i, order);
    }
    RunDoes(u, i, order);
  }

  lemma SeenIsExact(s: Store, current: Option<Name>, order: seq<Name>)
    requires OneCurrent(s) && Seen(s, current, order)
    ensures forall j :: j in s.jobs && !s.jobs[j].processed <==> current == Some(j)
    ensures forall b :: b in order <==>
              b in s.backups && !s.backups[b].processed && forall j :: j in s.jobs && !s.jobs[j].processed ==>
                s.jobs[j].backup != b
  {
    if current.Some? {
      assert IsCurrent(s, current.value);
    }
  }

  lemma NothingToSettle(s: Store)
    ensures Settled(s, None, s)
  {
  }

  function SettlingWrites(s: Store, j: Name): seq<Write>
    requires j in s.jobs
  {
    if Open(s, s.jobs[j].backup) then ReconcileWrites(j, s.jobs[j]) else [DeleteJob(j)]
  }

  lemma SettleDoes(s: Store, j: Name) returns (u: Store)
    requires j in s.jobs && (EndedAs(s.jobs[j].conditions, JobComplete) || EndedAs(s.jobs[j].conditions, JobFailed))
    ensures u == ApplyAll(s, SettlingWrites(s, j)) && Settled(s, Some(j), u)
    ensures u.backups.Keys == s.backups.Keys && forall b :: b in s.backups ==> u.backups[b].claim == s.backups[b].claim
  {
    u := ApplyAll(s, SettlingWrites(s, j));
    var job := s.jobs[j];
    EndingIsFirst(job.conditions);
    if Open(s, job.backup) {
      var a, c := LabelBackup(job.backup), AddCondition(job.backup, OutcomeOf(job));
      var v := Apply(Apply(s, a), c);
      TwoWrites(s, a, c);
      OneWrite(v, LabelJob(j));
      ApplyAllAppend(s, [a, c], [LabelJob(j)]);
      assert ReconcileWrites(j, job) == [a, c] + [LabelJob(j)];
      MarkDoes(s, job.backup, OutcomeOf(job));
    } else {
      OneWrite(s, DeleteJob(j));
    }
  }
}
