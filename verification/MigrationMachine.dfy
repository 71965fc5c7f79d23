/**
 * The migration as concurrent processes over shared stores. Every event is one store call of one
 * process, the start of a process, or its death; a run is any sequence of events.
 *
 * Environment: the API and worker processes are stopped, so local files never change and
 * `file_contents` is written by the tool alone; target keys are written by `copy` alone; all
 * processes name the same checkpoint file and the same manifest.
 */
module MigrationMachine {
  import opened Blobs
  import opened Outcomes
  import opened MigrationTypes
  import opened DatabaseSwitch
  import opened Manifest

  /** What `checkpoint_meta` binds a checkpoint to. */
  datatype Meta = Meta(version: string, manifestSha256: string, bucket: string, objectPrefix: string)

  /** A row of `verified_objects`, the columns a later command reads back. */
  datatype Verified = Verified(sourceLocator: string, targetKey: string, size: int, md5: string, sha256: string)

  /** `Unbound`: the file exists, its metadata has not been committed. */
  datatype Checkpoint = Absent | Unbound | Bound(meta: Meta, objects: map<int, Verified>)

  /** One migration: its manifest, and the local files, which are frozen. */
  datatype Job = Job(hashes: Hashes, meta: Meta, records: seq<Record>, files: map<Path, Bytes>)

  datatype World = World(
    db: Db,
    s3: map<string, Bytes>,
    checkpoint: Checkpoint,
    exclusive: Option<nat>,
    shared: set<nat>)

  datatype Command = Copy(execute: bool, cap: Option<nat>) | Cutover(execute: bool) | Rollback(execute: bool)

  /** The store call a process makes next. */
  datatype Stage = Open | Bind | Loop | Head | Get | Put | HeadAgain | GetAgain | Mark | Switch | Close

  datatype Counters = Counters(uploaded: nat, reused: nat, wouldUpload: nat)

  datatype Task = Task(command: Command, stage: Stage, index: nat, counters: Counters, outcome: Option<(DbState, nat)>)

  datatype Process = Running(task: Task) | Done(task: Task) | Failed(command: Command, error: MigrationError) | Died

  datatype System = System(world: World, processes: map<nat, Process>)

  datatype Event = Start(pid: nat, command: Command) | Advance(pid: nat, tableIsFree: bool) | Crash(pid: nat)

  function VerifiedRow(record: Record): Verified {
    Verified(record.sourceLocator, record.targetKey, record.size, record.md5, record.sha256)
  }

  /** Locks vanish with their owner. */
  function Release(w: World, pid: nat): World {
    w.(exclusive := if w.exclusive == Some(pid) then None else w.exclusive, shared := w.shared - {pid})
  }

  function Abort(w: World, pid: nat, t: Task, error: MigrationError): (World, Process) {
    (Release(w, pid), Failed(t.command, error))
  }

  function Finish(w: World, pid: nat, t: Task): (World, Process) {
    (Release(w, pid), Done(t))
  }

  function Continue(w: World, t: Task): (World, Process) {
    (w, Running(t))
  }

  function NextRecord(t: Task): Task {
    t.(stage := Loop, index := t.index + 1)
  }

  predicate SourceVerified(job: Job, record: Record) {
    var source := SourceContent(job.files, record);
    source.Ok? && ContentMatches(job.hashes, record, source.value)
  }

  predicate TargetVerified(job: Job, s3: map<string, Bytes>, record: Record) {
    record.targetKey in s3 && ContentMatches(job.hashes, record, s3[record.targetKey])
  }

  predicate Marked(checkpoint: Checkpoint, record: Record) {
    && checkpoint.Bound?
    && record.contentId in checkpoint.objects
    && checkpoint.objects[record.contentId] == VerifiedRow(record)
  }

  /** The calls `copy` makes for one record whose source has been verified. */
  function CopyRecordStep(job: Job, w: World, pid: nat, t: Task, record: Record): (World, Process)
    requires t.command.Copy?
  {
    var execute := t.command.execute;
    var key := record.targetKey;
    match t.stage
    case Head =>
      if key !in w.s3 then
        if execute then Continue(w, t.(stage := Put))
        else Continue(w, NextRecord(t).(counters := t.counters.(wouldUpload := t.counters.wouldUpload + 1)))
      else if |w.s3[key]| != record.size then Abort(w, pid, t, TargetSizeMismatch)
      else Continue(w, t.(stage := Get))
    case Get =>
      if key !in w.s3 then Abort(w, pid, t, TargetMissing)
      else if !TargetVerified(job, w.s3, record) then Abort(w, pid, t, HashMismatch)
      else
        var counted := t.(counters := t.counters.(reused := t.counters.reused + 1));
        Continue(w, if execute then counted.(stage := Mark) else NextRecord(counted))
    case Put =>
      if SourceContent(job.files, record).Fail? then Abort(w, pid, t, SourceUnavailable)
      else Continue(w.(s3 := w.s3[key := SourceContent(job.files, record).value]), t.(stage := HeadAgain))
    case HeadAgain =>
      if key !in w.s3 then Abort(w, pid, t, TargetMissing)
      else if |w.s3[key]| != record.size then Abort(w, pid, t, TargetSizeMismatch)
      else Continue(w, t.(stage := GetAgain))
    case GetAgain =>
      if key !in w.s3 then Abort(w, pid, t, TargetMissing)
      else if !TargetVerified(job, w.s3, record) then Abort(w, pid, t, HashMismatch)
      else Continue(w, t.(stage := Mark, counters := t.counters.(uploaded := t.counters.uploaded + 1)))
    case Mark =>
      if !w.checkpoint.Bound? then Abort(w, pid, t, CheckpointInvalid)
      else
        var objects := w.checkpoint.objects[record.contentId := VerifiedRow(record)];
        Continue(w.(checkpoint := w.checkpoint.(objects := objects)), NextRecord(t))
    case _ => Abort(w, pid, t, InvalidRecord)
  }

  function CopyStep(job: Job, w: World, pid: nat, t: Task): (World, Process)
    requires t.command.Copy?
  {
    var execute := t.command.execute;
    match t.stage
    case Open =>
      if !execute then Continue(w, t.(stage := Loop))
      else
        var created := if w.checkpoint == Absent then w.(checkpoint := Unbound) else w;
        if w.exclusive.Some? || w.shared != {} then Abort(created, pid, t, CheckpointInUse)
        else Continue(created.(exclusive := Some(pid)), t.(stage := Bind))
    case Bind =>
      if w.checkpoint.Bound? && w.checkpoint.meta != job.meta then Abort(w, pid, t, CheckpointInvalid)
      else if w.checkpoint.Bound? then Continue(w, t.(stage := Loop))
      else Continue(w.(checkpoint := Bound(job.meta, map[])), t.(stage := Loop))
    case Loop =>
      if t.index >= |job.records| || (t.command.cap.Some? && t.index >= t.command.cap.value)
      then Continue(w, t.(stage := Close))
      else if SourceContent(job.files, job.records[t.index]).Fail? then Abort(w, pid, t, SourceUnavailable)
      else if !SourceVerified(job, job.records[t.index]) then Abort(w, pid, t, HashMismatch)
      else Continue(w, t.(stage := Head))
    case Close => Finish(w, pid, t)
    case _ =>
      if t.index >= |job.records| then Abort(w, pid, t, InvalidRecord)
      else CopyRecordStep(job, w, pid, t, job.records[t.index])
  }

  /** The database transaction: one atomic, serializable step under the exclusive table lock. */
  function SwitchStep(job: Job, w: World, pid: nat, t: Task, desired: Side, tableIsFree: bool): (World, Process)
    requires !t.command.Copy?
  {
    if !tableIsFree then Abort(w, pid, t, LockUnavailable)
    else
      var (r, after) := Switched(w.db, TableOf(job.records), |job.records|, desired, t.command.execute);
      match r
      case Fail(e) => Abort(w, pid, t, e)
      case Ok(outcome) => Continue(w.(db := after), t.(stage := Close, outcome := Some(outcome)))
  }

  function CutoverStep(job: Job, w: World, pid: nat, t: Task, tableIsFree: bool): (World, Process)
    requires t.command.Cutover?
  {
    match t.stage
    case Open =>
      if w.checkpoint == Absent then Abort(w, pid, t, CheckpointInvalid)
      else if w.exclusive.Some? then Abort(w, pid, t, CheckpointInUse)
      else Continue(w.(shared := w.shared + {pid}), t.(stage := Bind))
    case Bind =>
      if w.checkpoint.Bound? && w.checkpoint.meta == job.meta then Continue(w, t.(stage := Loop))
      else Abort(w, pid, t, CheckpointInvalid)
    case Loop =>
      if t.index >= |job.records| then Continue(w, t.(stage := Switch))
      else if !Marked(w.checkpoint, job.records[t.index]) then Abort(w, pid, t, NotVerified)
      else Continue(w, t.(stage := Head))
    case Head =>
      if t.index >= |job.records| then Abort(w, pid, t, InvalidRecord)
      else
        var record := job.records[t.index];
        if record.targetKey !in w.s3 then Abort(w, pid, t, TargetMissing)
        else if |w.s3[record.targetKey]| != record.size then Abort(w, pid, t, TargetSizeMismatch)
        else Continue(w, t.(stage := Get))
    case Get =>
      if t.index >= |job.records| then Abort(w, pid, t, InvalidRecord)
      else if !TargetVerified(job, w.s3, job.records[t.index]) then Abort(w, pid, t, HashMismatch)
      else Continue(w, NextRecord(t))
    case Switch => SwitchStep(job, w, pid, t, Target, tableIsFree)
    case Close => Finish(w, pid, t)
    case _ => Abort(w, pid, t, InvalidRecord)
  }

  function RollbackStep(job: Job, w: World, pid: nat, t: Task, tableIsFree: bool): (World, Process)
    requires t.command.Rollback?
  {
    match t.stage
    case Open => Continue(w, t.(stage := Loop))
    case Loop =>
      if t.index >= |job.records| then Continue(w, t.(stage := Switch))
      else if SourceContent(job.files, job.records[t.index]).Fail? then Abort(w, pid, t, SourceUnavailable)
      else if !SourceVerified(job, job.records[t.index]) then Abort(w, pid, t, HashMismatch)
      else Continue(w, NextRecord(t))
    case Switch => SwitchStep(job, w, pid, t, Source, tableIsFree)
    case Close => Finish(w, pid, t)
    case _ => Abort(w, pid, t, InvalidRecord)
  }

  function ProcessStep(job: Job, w: World, pid: nat, t: Task, tableIsFree: bool): (World, Process)
  {
    match t.command
    case Copy(_, _) => CopyStep(job, w, pid, t)
    case Cutover(_) => CutoverStep(job, w, pid, t, tableIsFree)
    case Rollback(_) => RollbackStep(job, w, pid, t, tableIsFree)
  }

  function Begin(command: Command): Process {
    Running(Task(command, Open, 0, Counters(0, 0, 0), None))
  }

  function Next(job: Job, system: System, event: Event): System {
    match event
    case Start(pid, command) =>
      if pid in system.processes then system
      else system.(processes := system.processes[pid := Begin(command)])
    case Advance(pid, tableIsFree) =>
      if pid !in system.processes || !system.processes[pid].Running? then system
      else
        var (w, p) := ProcessStep(job, system.world, pid, system.processes[pid].task, tableIsFree);
        System(w, system.processes[pid := p])
    case Crash(pid) =>
      if pid !in system.processes || !system.processes[pid].Running? then system
      else System(Release(system.world, pid), system.processes[pid := Died])
  }

  function Execute(job: Job, initial: System, events: seq<Event>): System {
    if events == [] then initial
    else Next(job, Execute(job, initial, events[..|events| - 1]), events[|events| - 1])
  }
}
