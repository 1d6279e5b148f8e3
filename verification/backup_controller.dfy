/** The backup controller as ordered code over the stored jobs and backups. */
module BackupController {
  import opened Basics
  import opened BackupModel
  import opened BackupSafety

  // ----- orders -----

  lemma {:induction false} SortedUnique(a: seq<Name>, b: seq<Name>, names: set<Name>)
    requires Sorted(a, names) && Sorted(b, names)
    ensures a == b
  {
    var x := if b == [] then 0 else b[0];
    assert b != [] ==> x in b;
    if a != [] {
      assert a[|a| - 1] in a && a[0] in names && a[0] in b;
      var k :| 0 <= k < |b| && b[k] == a[|a| - 1];
      assert b[|b| - 1] in b && b[|b| - 1] in a;
      var m :| 0 <= m < |a| && a[m] == b[|b| - 1];
      assert a[|a| - 1] == b[|b| - 1];
      Drop(a, names);
      Drop(b, names);
      SortedUnique(a[..|a| - 1], b[..|b| - 1], names - {a[|a| - 1]});
      assert a == a[..|a| - 1] + [a[|a| - 1]] && b == b[..|b| - 1] + [b[|b| - 1]];
    }
  }

  lemma Drop(a: seq<Name>, names: set<Name>)
    requires Sorted(a, names) && a != []
    ensures Sorted(a[..|a| - 1], names - {a[|a| - 1]})
  {
  }

  lemma InsertSorted(a: seq<Name>, names: set<Name>, at: nat, x: Name)
    requires Sorted(a, names) && x !in names && at <= |a|
    requires forall k :: 0 <= k < at ==> a[k] < x
    requires forall k :: at <= k < |a| ==> x < a[k]
    ensures Sorted(a[..at] + [x] + a[at..], names + {x})
  {
  }

  method SortBackups(names: set<Name>) returns (order: seq<Name>)
    ensures Sorted(order, names)
  {
    order := [];
    var rest := names;
    while rest != {}
      invariant rest <= names && Sorted(order, names - rest)
    {
      var x :| x in rest;
      var at := |order|;
      while at > 0 && order[at - 1] > x
        invariant 0 <= at <= |order| && forall k :: at <= k < |order| ==> x < order[k]
      {
        at := at - 1;
      }
      assert at > 0 ==> order[at - 1] in order;
      assert x !in order;
      InsertSorted(order, names - rest, at, x);
      order := order[..at] + [x] + order[at..];
      assert names - (rest - {x}) == (names - rest) + {x};
      rest := rest - {x};
    }
    assert names - {} == names;
  }

  lemma {:induction false} NotEnded(conditions: seq<JobCondition>, k: nat)
    requires k <= |conditions| && forall j :: 0 <= j < k ==> !Ends(conditions[j])
    ensures Ending(conditions) == Ending(conditions[k..])
  {
    if k > 0 {
      assert conditions[1..][k - 1..] == conditions[k..];
      NotEnded(conditions[1..], k - 1);
    }
  }

  method JobState(conditions: seq<JobCondition>) returns (state: Option<JobConditionType>)
    ensures state == Ending(conditions)
  {
    for k := 0 to |conditions|
      invariant forall j :: 0 <= j < k ==> !Ends(conditions[j])
    {
      if (conditions[k].kind == JobComplete || conditions[k].kind == JobFailed) && conditions[k].isTrue {
        NotEnded(conditions, k);
        return Some(conditions[k].kind);
      }
    }
    NotEnded(conditions, |conditions|);
    return None;
  }

  method AllFalse(conditions: seq<BackupCondition>) returns (r: seq<BackupCondition>)
    ensures r == Falsified(conditions)
  {
    r := [];
    for k := 0 to |conditions|
      invariant r == Falsified(conditions[..k])
    {
      assert conditions[..k + 1][..k] == conditions[..k];
      r := r + [conditions[k].(isTrue := false)];
    }
    assert conditions[..|conditions|] == conditions;
  }

  /** The backups of the unprocessed jobs, and whether such a job is unfinished. */
  ghost predicate Indexes(s: Store, index: map<Name, Name>, running: bool) {
    && (forall b :: b in index ==> IsCurrent(s, index[b]) && s.jobs[index[b]].backup == b)
    && (forall j :: j in s.jobs && IsCurrent(s, j) ==> s.jobs[j].backup in index)
    && (running <==> exists j :: j in s.jobs && IsCurrent(s, j) && !Finished(s.jobs[j]))
  }

  class Controller {
    var jobs: map<Name, Job>
    var backups: map<Name, Backup>
    var left: nat                    // calls that will still succeed
    ghost var made: multiset<Name>
    ghost var used: set<Name>
    ghost var start: Store           // at the beginning of the sync
    ghost var log: seq<Write>        // the writes done since

    ghost function View(): Store
      reads this
    {
      Store(jobs, backups, made, used)
    }

    ghost predicate Logged()
      reads this
    {
      View() == ApplyAll(start, log)
    }

    /** One API write took place, or the sync is cut off before it. */
    twostate predicate Wrote(ok: bool, w: Write)
      reads this
    {
      && Logged() && start == old(start)
      && (ok ==> log == old(log) + [w] && old(left) > 0 && left == old(left) - 1)
      && (!ok ==> log == old(log) && left == 0 && old(left) == 0)
    }

    method Update(b: Name, backup: Backup, ghost w: Write) returns (ok: bool)
      requires Logged() && b in backups && Apply(View(), w) == WithBackup(View(), b, backup)
      modifies this`backups, this`left, this`log
      ensures Wrote(ok, w)
      ensures backups == if ok then old(backups)[b := backup] else old(backups)
    {
      if left == 0 {
        return false;
      }
      left := left - 1;
      backups := backups[b := backup];
      ApplyAllAppend(start, log, [w]);
      OneWrite(ApplyAll(start, log), w);
      log := log + [w];
      return true;
    }

    method MarkProcessed(b: Name) returns (ok: bool)
      requires Logged() && b in backups
      modifies this`backups, this`left, this`log
      ensures Wrote(ok, LabelBackup(b)) && backups.Keys == old(backups).Keys
    {
      var bp := backups[b];
      ok := Update(b, bp.(processed := true), LabelBackup(b));
    }

    method UpdateStatus(b: Name, kind: BackupConditionType) returns (ok: bool)
      requires Logged() && b in backups
      modifies this`backups, this`left, this`log
      ensures Wrote(ok, AddCondition(b, kind)) && backups.Keys == old(backups).Keys
    {
      var bp := backups[b];
      var conditions := AllFalse(bp.conditions);
      ok := Update(b, bp.(conditions := conditions + [BackupCondition(kind, true)]), AddCondition(b, kind));
    }

    /** The backup is labelled, then its status set, then the job labelled. */
    method ReconcileJobStatus(j: Name, b: Name) returns (ok: bool)
      requires Logged() && j in jobs && b in backups && jobs[j].backup == b && Finished(jobs[j]) && log == []
      modifies this`backups, this`jobs, this`left, this`log
      ensures Logged() && start == old(start) && left + |log| == old(left) && backups.Keys == old(backups).Keys
      ensures log <= ReconcileWrites(j, old(jobs)[j])
      ensures if ok then log == ReconcileWrites(j, old(jobs)[j]) else left == 0
    {
      hide Apply, ApplyAll;
      var job := jobs[j];
      var jobState := JobState(job.conditions);
      var statusReason := BackupCompleted;
      if jobState == Some(JobFailed) {
        statusReason := BackupFailed;
      }
      assert statusReason == OutcomeOf(job);
      ok := MarkProcessed(b);
      if !ok { return; }
      ok := UpdateStatus(b, statusReason);
      if !ok { return; }
      ok := LabelJobCall(j, job);
    }

    method LabelJobCall(j: Name, job: Job) returns (ok: bool)
      requires Logged() && j in jobs && jobs[j] == job
      modifies this`jobs, this`left, this`log
      ensures Wrote(ok, LabelJob(j))
    {
      if left == 0 {
        return false;
      }
      left := left - 1;
      jobs := jobs[j := job.(processed := true)];
      ApplyAllAppend(start, log, [LabelJob(j)]);
      OneWrite(ApplyAll(start, log), LabelJob(j));
      log := log + [LabelJob(j)];
      return true;
    }

    method DeleteJobCall(j: Name) returns (ok: bool)
      requires Logged()
      modifies this`jobs, this`left, this`log
      ensures Wrote(ok, BackupModel.DeleteJob(j))
    {
      if left == 0 {
        return false;
      }
      left := left - 1;
      jobs := jobs - {j};
      ApplyAllAppend(start, log, [BackupModel.DeleteJob(j)]);
      OneWrite(ApplyAll(start, log), BackupModel.DeleteJob(j));
      log := log + [BackupModel.DeleteJob(j)];
      return true;
    }

    method CreateBackupJob(b: Name, jobName: Name) returns (ok: bool, ghost added: seq<Write>)
      requires Logged() && b in backups
      modifies this`jobs, this`backups, this`left, this`log, this`made
      ensures Logged() && start == old(start) && left + |added| == old(left) && backups.Keys == old(backups).Keys
      ensures log == old(log) + added && added <= [CreateJob(jobName, b), SetPending(b)]
      ensures if ok then added == [CreateJob(jobName, b), SetPending(b)] else left == 0
    {
      added := [];
      if left == 0 {
        return false, added;
      }
      left := left - 1;
      jobs := jobs[jobName := Job(b, false, [])];
      made := made + multiset{b};
      ApplyAllAppend(start, log, [CreateJob(jobName, b)]);
      OneWrite(ApplyAll(start, log), CreateJob(jobName, b));
      log := log + [CreateJob(jobName, b)];
      added := [CreateJob(jobName, b)];
      var backup := backups[b];
      ok := Update(b, backup.(conditions := [BackupCondition(BackupPending, true)]), SetPending(b));
      if ok {
        added := [CreateJob(jobName, b), SetPending(b)];
      }
    }

    /** A condition is set, then the backup labelled. */
    method MarkBackup(b: Name, kind: BackupConditionType) returns (ok: bool, ghost added: seq<Write>)
      requires Logged() && b in backups
      modifies this`backups, this`left, this`log
      ensures Logged() && start == old(start) && left + |added| == old(left) && backups.Keys == old(backups).Keys
      ensures log == old(log) + added && added <= [AddCondition(b, kind), LabelBackup(b)]
      ensures if ok then added == [AddCondition(b, kind), LabelBackup(b)] else left == 0
    {
      hide Apply, ApplyAll;
      added := [];
      ok := UpdateStatus(b, kind);
      if !ok { return; }
      added := [AddCondition(b, kind)];
      ok := MarkProcessed(b);
      if ok {
        added := [AddCondition(b, kind), LabelBackup(b)];
      }
    }

    /** The others are skipped one after the other. */
    method SkipBackups(names: seq<Name>) returns (ok: bool, ghost added: seq<Write>)
      requires Logged() && forall b :: b in names ==> b in backups
      modifies this`backups, this`left, this`log
      ensures Logged() && start == old(start) && left + |added| == old(left) && backups.Keys == old(backups).Keys
      ensures log == old(log) + added && added <= SkipWrites(names)
      ensures if ok then added == SkipWrites(names) else left == 0
    {
      hide Apply, ApplyAll, SkipWrites;
      ok, added := true, SkipWrites(names[..0]);
      NoSkips();
      for k := 0 to |names|
        invariant Logged() && start == old(start) && left + |added| == old(left) && backups.Keys == old(backups).Keys
        invariant log == old(log) + added && added == SkipWrites(names[..k])
      {
        assert names[k] in names;
        ghost var more;
        ok, more := MarkBackup(names[k], BackupSkipped);
        SkipPrefix(names, k, more);
        added := added + more;
        if !ok { return; }
      }
      ok := true;
      assert names[..|names|] == names;
    }

    /** Runs the first backup, or fails it when its volume claim is missing. */
    method RunFirst(i: Input, order: seq<Name>) returns (ok: bool, ghost added: seq<Write>)
      requires Logged() && forall b :: b in order ==> b in backups
      modifies this`jobs, this`backups, this`left, this`log, this`made
      ensures Logged() && start == old(start) && left + |added| == old(left)
      ensures log == old(log) + added && added <= RunWrites(old(View()), i, order)
      ensures added == RunWrites(old(View()), i, order) || left == 0
    {
      hide Apply, ApplyAll, SkipWrites;
      ok, added := true, [];
      if |order| == 0 {
        return;
      }
      var b := order[0];
      assert b in order;
      if backups[b].claim !in i.claims {
        ok, added := MarkBackup(b, BackupFailed);
        return;
      }
      ok, added := CreateBackupJob(b, i.jobName);
      if !ok { return; }
      ghost var more;
      ok, more := SkipBackups(order[1..]);
      added := added + more;
    }

    /** The jobs not yet processed, by backup, and whether one of them is running. */
    method CurrentJobs() returns (index: map<Name, Name>, running: bool)
      ensures Indexes(View(), index, running)
    {
      index, running := map[], false;
      var rest := jobs.Keys;
      while rest != {}
        invariant rest <= jobs.Keys
        invariant forall b :: b in index ==> IsCurrent(View(), index[b]) && jobs[index[b]].backup == b
        invariant forall j :: j in jobs && j !in rest && IsCurrent(View(), j) ==> jobs[j].backup in index
        invariant running <==> exists j :: j in jobs && j !in rest && IsCurrent(View(), j) && !Finished(jobs[j])
      {
        var j :| j in rest;
        rest := rest - {j};
        if jobs[j].processed {
          continue;
        }
        index := index[jobs[j].backup := j];
        var state := JobState(jobs[j].conditions);
        if state.None? {
          running := true;
          assert j in jobs && IsCurrent(View(), j) && !Finished(jobs[j]);
        }
      }
    }

    /** Reconciles the open backup of the finished current job, if it has one, and collects
        the other open backups and the job left over. */
    method ReconcileBackups(index: map<Name, Name>, ghost current: Option<Name>)
          returns (ok: bool, toRun: set<Name>, dangling: map<Name, Name>)
      requires Logged() && log == [] && start == View()
      requires current.Some? ==>
                 IsCurrent(View(), current.value) && Finished(jobs[current.value]) &&
                 index == map[jobs[current.value].backup := current.value]
      requires current.None? ==> index == map[]
      modifies this`jobs, this`backups, this`left, this`log
      ensures Logged() && start == old(start) && left + |log| == old(left) && backups.Keys == old(backups).Keys
      ensures var ws := if current.Some? && Open(start, start.jobs[current.value].backup)
                        then ReconcileWrites(current.value, start.jobs[current.value]) else [];
              log <= ws && if ok then log == ws else left == 0
      ensures ok ==> toRun == OpenBackups(start) - if current.Some? then {start.jobs[current.value].backup} else {}
      ensures ok ==>
                dangling == if current.Some? && !Open(start, start.jobs[current.value].backup) then index else map[]
    {
      hide Finished;
      ok, toRun, dangling := true, {}, index;
      ghost var b := if current.Some? then start.jobs[current.value].backup else 0;
      ghost var ws := if current.Some? && Open(start, b)
                      then ReconcileWrites(current.value, start.jobs[current.value]) else [];
      var rest := set x | x in backups && !backups[x].processed;
      assert rest == OpenBackups(start);
      while rest != {}
        invariant rest <= OpenBackups(start) && start == old(start) && backups.Keys == old(backups).Keys &&
                  rest <= backups.Keys
        invariant Logged() && left + |log| == old(left)
        invariant dangling == if current.Some? && Open(start, b) && b !in rest then map[] else index
        invariant log == if current.Some? && Open(start, b) && b !in rest then ws else []
        invariant toRun == OpenBackups(start) - rest - if current.Some? then {b} else {}
      {
        var x :| x in rest;
        rest := rest - {x};
        if x in dangling {
          assert log == [] && View() == start by { EmptyLog(start); }
          ok := ReconcileJobStatus(dangling[x], x);
          if !ok { return; }
          dangling := dangling - {x};
          continue;
        }
        toRun := toRun + {x};
      }
    }

    /** Jobs whose backup is gone or processed are deleted. */
    method RemoveDangling(dangling: map<Name, Name>, ghost current: Option<Name>) returns (ok: bool)
      requires Logged()
      requires current.Some? ==> exists b :: dangling == map[b := current.value]
      requires current.None? ==> dangling == map[]
      modifies this`jobs, this`left, this`log
      ensures Logged() && start == old(start) && left + |log| == old(left) + |old(log)|
      ensures var ws := if current.Some? then [BackupModel.DeleteJob(current.value)] else [];
              if ok then log == old(log) + ws else log == old(log) && left == 0
    {
      ok := true;
      var rest := dangling.Keys;
      if current.Some? {
        ghost var b :| dangling == map[b := current.value];
        assert b in dangling;
      }
      while rest != {}
        invariant rest <= dangling.Keys && Logged() && start == old(start) && left + |log| == old(left) + |old(log)|
        invariant rest == {} || rest == dangling.Keys
        invariant log == if rest == {} && current.Some?
                         then old(log) + [BackupModel.DeleteJob(current.value)] else old(log)
      {
        var b :| b in rest;
        rest := rest - {b};
        ok := DeleteJobCall(dangling[b]);
        if !ok { return; }
      }
    }

    /** The first part of a sync without a running job: the current job is reconciled or
        deleted. */
    method SettleCurrent(index: map<Name, Name>, ghost current: Option<Name>) returns (ok: bool, toRun: set<Name>)
      requires Logged() && log == [] && start == View()
      requires current.Some? ==>
                 IsCurrent(View(), current.value) && Finished(jobs[current.value]) &&
                 index == map[jobs[current.value].backup := current.value]
      requires current.None? ==> index == map[]
      modifies this`jobs, this`backups, this`left, this`log
      ensures Logged() && start == old(start) && left + |log| == old(left)
      ensures log <= Settling(start, current) && if ok then log == Settling(start, current) else left == 0
      ensures ok ==> toRun == OpenBackups(start) - if current.Some? then {start.jobs[current.value].backup} else {}
    {
      hide Apply, ApplyAll, Finished;
      var dangling;
      ok, toRun, dangling := ReconcileBackups(index, current);
      if ok {
        ghost var left := if current.Some? && !Open(start, start.jobs[current.value].backup) then current else None;
        ok := RemoveDangling(dangling, left);
      }
    }

    /** One sync of which `budget` writes succeed. */
    method Sync(i: Input, budget: nat) returns (ghost e: Event)
      requires OneCurrent(View()) && i.jobName !in jobs
      modifies this
      ensures Enabled(old(View()), e) && View() == Next(old(View()), e) && e.Syncs? && e.input == i
      ensures e.done == budget || e.done == |Writes(old(View()), i, e.current, e.order)|
    {
      hide Apply, ApplyAll, RunWrites, Finished, Settling, Open, OneCurrent, Indexes;
      ghost var s := View();
      left, start, log := budget, s, [];
      EmptyLog(s);
      var index, running := CurrentJobs();
      ghost var current := OneIndexed(s, index, running);
      ghost var names := OpenBackups(s) - if current.Some? then {s.jobs[current.value].backup} else {};
      ghost var order := SortedExists(names);
      ghost var ws := Writes(s, i, current, order);
      if running {
        e := Syncs(i, current, order, 0);
        assert ws[..0] == [];
        return;
      }
      WritesSplit(s, i, current, order);
      hide Writes;
      var ok, toRun := SettleCurrent(index, current);
      if ok {
        AfterSettling(s, i, log, order);
        var sorted := SortBackups(toRun);
        SortedUnique(sorted, order, names);
        hide Sorted, OpenBackups;
        ghost var before := log;
        ghost var added;
        ok, added := RunFirst(i, sorted);
        AppendPrefix(before, added, RunWrites(s, i, order));
      }
      assert ws[..|log|] == log;
      e := Syncs(i, current, order, |log|);
    }
  }

  /** With one unprocessed job at most the index has one entry at most. */
  lemma OneIndexed(s: Store, index: map<Name, Name>, running: bool) returns (current: Option<Name>)
    requires OneCurrent(s) && Indexes(s, index, running)
    ensures current.Some? ==> IsCurrent(s, current.value) && index == map[s.jobs[current.value].backup := current.value]
    ensures current.None? ==> index == map[] && forall j :: j in s.jobs ==> s.jobs[j].processed
    ensures running <==> current.Some? && !Finished(s.jobs[current.value])
  {
    current := None;
    if j :| j in s.jobs && IsCurrent(s, j) {
      current := Some(j);
      assert s.jobs[j].backup in index;
      assert forall b :: b in index ==> index[b] == j && s.jobs[index[b]].backup == b;
      assert index.Keys == {s.jobs[j].backup};
    } else {
      assert index.Keys == {};
    }
  }

  /** The writes that settle the finished current job. */
  function Settling(s: Store, current: Option<Name>): seq<Write>
    requires current.Some? ==> current.value in s.jobs
  {
    if current.None? then []
    else if Open(s, s.jobs[current.value].backup) then ReconcileWrites(current.value, s.jobs[current.value])
    else [BackupModel.DeleteJob(current.value)]
  }

  lemma WritesSplit(s: Store, i: Input, current: Option<Name>, order: seq<Name>)
    requires current.Some? ==> current.value in s.jobs && Finished(s.jobs[current.value])
    ensures Writes(s, i, current, order) == Settling(s, current) + RunWrites(s, i, order)
  {
  }

  lemma AfterSettling(s: Store, i: Input, log: seq<Write>, order: seq<Name>)
    requires forall b :: b in order ==> b in s.backups
    ensures RunWrites(ApplyAll(s, log), i, order) == RunWrites(s, i, order)
    ensures forall b :: b in order ==> b in ApplyAll(s, log).backups
  {
    assert order != [] ==> order[0] in order;
    ClaimsKept(s, log);
    RunWritesSame(s, ApplyAll(s, log), i, order);
  }

  lemma {:induction false} ClaimsKept(s: Store, ws: seq<Write>)
    ensures var t := ApplyAll(s, ws);
            t.backups.Keys == s.backups.Keys && forall b :: b in s.backups ==> t.backups[b].claim == s.backups[b].claim
  {
    if ws != [] {
      ClaimsKept(s, ws[..|ws| - 1]);
    }
  }

  lemma EmptyLog(s: Store)
    ensures ApplyAll(s, []) == s
  {
  }

  lemma {:induction false} MaxExists(names: set<Name>) returns (m: Name)
    requires names != {}
    ensures m in names && forall x :: x in names ==> x <= m
    decreases |names|
  {
    var y :| y in names;
    if names == {y} {
      m := y;
    } else {
      var rest := names - {y};
      assert names == rest + {y};
      var k := MaxExists(rest);
      m := if k < y then y else k;
    }
  }

  lemma {:induction false} SortedExists(names: set<Name>) returns (order: seq<Name>)
    ensures Sorted(order, names)
    decreases |names|
  {
    if names == {} {
      order := [];
    } else {
      var m := MaxExists(names);
      var before := SortedExists(names - {m});
      forall k | 0 <= k < |before| ensures before[k] < m { assert before[k] in before; }
      order := before + [m];
    }
  }

  lemma NoSkips()
    ensures SkipWrites([]) == []
  {
  }

  lemma SkipPrefix(names: seq<Name>, k: nat, more: seq<Write>)
    requires k < |names| && more <= [AddCondition(names[k], BackupSkipped), LabelBackup(names[k])]
    ensures SkipWrites(names[..k]) + more <= SkipWrites(names)
    ensures |more| == 2 ==> SkipWrites(names[..k]) + more == SkipWrites(names[..k + 1])
  {
    hide SkipWrites;
    SkipOne(names, k);
    SkipsGrow(names, k + 1);
    AppendPrefix(SkipWrites(names[..k]), more, [AddCondition(names[k], BackupSkipped), LabelBackup(names[k])]);
  }

  lemma SkipOne(names: seq<Name>, k: nat)
    requires k < |names|
    ensures SkipWrites(names[..k + 1]) ==
            SkipWrites(names[..k]) + [AddCondition(names[k], BackupSkipped), LabelBackup(names[k])]
  {
    assert names[..k + 1][..k] == names[..k];
  }

  lemma AppendPrefix(a: seq<Write>, b: seq<Write>, c: seq<Write>)
    requires b <= c
    ensures a + b <= a + c && (|b| == |c| ==> a + b == a + c)
  {
  }

  lemma {:induction false} SkipsGrow(names: seq<Name>, k: nat)
    requires k <= |names|
    ensures SkipWrites(names[..k]) <= SkipWrites(names)
  {
    if k == |names| {
      assert names[..k] == names;
    } else {
      assert names[..|names| - 1][..k] == names[..k];
      SkipsGrow(names[..|names| - 1], k);
    }
  }
}
