/** The backup controller over its store of jobs and backups: a sync is the list of writes
    it sets out to make, of which any number may get done. */
module BackupModel {
  import opened Basics

  /** Names are compared in order; jobs and backups have names of their own. */
  type Name = nat

  datatype JobConditionType = JobComplete | JobFailed | JobOther

  datatype JobCondition = JobCondition(kind: JobConditionType, isTrue: bool)

  datatype Job = Job(backup: Name, processed: bool, conditions: seq<JobCondition>)

  datatype BackupConditionType = BackupPending | BackupCompleted | BackupFailed | BackupSkipped

  datatype BackupCondition = BackupCondition(kind: BackupConditionType, isTrue: bool)

  datatype Backup = Backup(processed: bool, conditions: seq<BackupCondition>, claim: Name)

  /** `made` and `used` are history: the backups jobs were created for, and every backup
      name there has been. */
  datatype Store = Store(jobs: map<Name, Job>, backups: map<Name, Backup>, made: multiset<Name>, used: set<Name>)

  // ----- jobs -----

  predicate Ends(c: JobCondition) {
    !c.kind.JobOther? && c.isTrue
  }

  /** The first true condition that ends the job. */
  function Ending(conditions: seq<JobCondition>): Option<JobConditionType> {
    if conditions == [] then None
    else if Ends(conditions[0]) then Some(conditions[0].kind)
    else Ending(conditions[1..])
  }

  predicate Finished(j: Job) {
    Ending(j.conditions).Some?
  }

  predicate IsCurrent(s: Store, j: Name) {
    j in s.jobs && !s.jobs[j].processed
  }

  /** The backup still has to be dealt with. */
  predicate Open(s: Store, b: Name) {
    b in s.backups && !s.backups[b].processed
  }

  function OpenBackups(s: Store): set<Name> {
    set b | b in s.backups && !s.backups[b].processed
  }

  // ----- writes -----

  datatype Write =
    | LabelBackup(b: Name)
    | AddCondition(b: Name, kind: BackupConditionType)
    | SetPending(b: Name)
    | LabelJob(j: Name)
    | DeleteJob(j: Name)
    | CreateJob(j: Name, b: Name)

  function Falsified(conditions: seq<BackupCondition>): seq<BackupCondition> {
    if conditions == [] then []
    else Falsified(conditions[..|conditions| - 1]) + [conditions[|conditions| - 1].(isTrue := false)]
  }

  function WithBackup(s: Store, b: Name, backup: Backup): Store {
    if b in s.backups then s.(backups := s.backups[b := backup]) else s
  }

  function Apply(s: Store, w: Write): Store {
    match w
    case LabelBackup(b) => if b in s.backups then WithBackup(s, b, s.backups[b].(processed := true)) else s
    case AddCondition(b, kind) =>
      if b in s.backups then
        WithBackup(s, b,
          s.backups[b].(conditions := Falsified(s.backups[b].conditions) + [BackupCondition(kind, true)]))
      else s
    case SetPending(b) =>
      if b in s.backups then WithBackup(s, b, s.backups[b].(conditions := [BackupCondition(BackupPending, true)]))
      else s
    case LabelJob(j) => if j in s.jobs then s.(jobs := s.jobs[j := s.jobs[j].(processed := true)]) else s
    case DeleteJob(j) => s.(jobs := s.jobs - {j})
    case CreateJob(j, b) => s.(jobs := s.jobs[j := Job(b, false, [])], made := s.made + multiset{b})
  }

  function ApplyAll(s: Store, ws: seq<Write>): Store {
    if ws == [] then s else Apply(ApplyAll(s, ws[..|ws| - 1]), ws[|ws| - 1])
  }

  // ----- one sync -----

  /** What a sync meets: the volume claims there are and the name generated for a job. */
  datatype Input = Input(claims: set<Name>, jobName: Name)

  ghost predicate Sorted(order: seq<Name>, names: set<Name>) {
    && (forall b :: b in order <==> b in names)
    && forall i, j :: 0 <= i < j < |order| ==> order[i] < order[j]
  }

  function SkipWrites(names: seq<Name>): seq<Write> {
    if names == [] then []
    else
      var b := names[|names| - 1];
      SkipWrites(names[..|names| - 1]) + [AddCondition(b, BackupSkipped), LabelBackup(b)]
  }

  /** The first backup by name is run, or fails without its volume; the others are skipped. */
  function RunWrites(s: Store, i: Input, order: seq<Name>): seq<Write> {
    if order == [] then []
    else
      var b := order[0];
      if b in s.backups && s.backups[b].claim !in i.claims then [AddCondition(b, BackupFailed), LabelBackup(b)]
      else [CreateJob(i.jobName, b), SetPending(b)] + SkipWrites(order[1..])
  }

  function OutcomeOf(j: Job): BackupConditionType {
    if Ending(j.conditions) == Some(JobFailed) then BackupFailed else BackupCompleted
  }

  function ReconcileWrites(j: Name, job: Job): seq<Write> {
    [LabelBackup(job.backup), AddCondition(job.backup, OutcomeOf(job)), LabelJob(j)]
  }

  /** The writes of a sync, given the unprocessed job if there is one.  `order` are the
      open backups without it, by name. */
  function Writes(s: Store, i: Input, current: Option<Name>, order: seq<Name>): seq<Write>
    requires current.Some? ==> current.value in s.jobs
  {
    if current.None? then RunWrites(s, i, order)
    else
      var job := s.jobs[current.value];
      if !Finished(job) then []
      else if Open(s, job.backup) then ReconcileWrites(current.value, job) + RunWrites(s, i, order)
      else [DeleteJob(current.value)] + RunWrites(s, i, order)
  }

  /** Whether these are the current job and the backups to run. */
  ghost predicate Seen(s: Store, current: Option<Name>, order: seq<Name>) {
    && (current.Some? ==> IsCurrent(s, current.value))
    && (current.None? ==> forall j :: j in s.jobs ==> s.jobs[j].processed)
    && Sorted(order, OpenBackups(s) - if current.Some? then {s.jobs[current.value].backup} else {})
  }

  // ----- runs -----

  datatype Event =
    | Syncs(input: Input, current: Option<Name>, order: seq<Name>, done: nat)
    | NewBackup(b: Name, claim: Name)
    | DeleteBackup(b: Name)
    | JobMoves(j: Name, conditions: seq<JobCondition>)

  ghost predicate Enabled(s: Store, e: Event) {
    match e
    case Syncs(i, current, order, done) =>
      Seen(s, current, order) && i.jobName !in s.jobs && done <= |Writes(s, i, current, order)|
    case NewBackup(b, _) => b !in s.used
    case DeleteBackup(_) => true
    case JobMoves(j, _) => j in s.jobs && !Finished(s.jobs[j])
  }

  function Next(s: Store, e: Event): Store
    requires Enabled(s, e)
  {
    match e
    case Syncs(i, current, order, done) => ApplyAll(s, Writes(s, i, current, order)[..done])
    case NewBackup(b, claim) => s.(backups := s.backups[b := Backup(false, [], claim)], used := s.used + {b})
    case DeleteBackup(b) => s.(backups := s.backups - {b})
    case JobMoves(j, conditions) => s.(jobs := s.jobs[j := s.jobs[j].(conditions := conditions)])
  }

  ghost predicate Runnable(s: Store, events: seq<Event>)
    decreases |events|
  {
    events == [] || (Enabled(s, events[0]) && Runnable(Next(s, events[0]), events[1..]))
  }

  function Run(s: Store, events: seq<Event>): Store
    requires Runnable(s, events)
    decreases |events|
  {
    if events == [] then s else Run(Next(s, events[0]), events[1..])
  }

  const EMPTY := Store(map[], map[], multiset{}, {})
}
