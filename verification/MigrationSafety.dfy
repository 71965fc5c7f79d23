/** What every run of the migration keeps, whatever the interleaving, crashes and reruns. */
module MigrationSafety {
  import opened Blobs
  import opened Outcomes
  import opened MigrationTypes
  import opened DatabaseSwitch
  import opened Manifest
  import opened MigrationMachine

  /** The stores before the first command: `file_contents` and the objects already in S3. */
  datatype Origin = Origin(db: Db, s3: map<string, Bytes>)

  ghost predicate Extends(before: map<string, Bytes>, after: map<string, Bytes>) {
    forall key :: key in before ==> key in after && after[key] == before[key]
  }

  ghost predicate PrefixVerified(job: Job, s3: map<string, Bytes>, n: nat) {
    n <= |job.records| && forall k :: 0 <= k < n ==> TargetVerified(job, s3, job.records[k])
  }

  ghost predicate PrefixMarked(job: Job, checkpoint: Checkpoint, n: nat) {
    n <= |job.records| && forall k :: 0 <= k < n ==> Marked(checkpoint, job.records[k])
  }

  ghost predicate PrefixSourced(job: Job, n: nat) {
    n <= |job.records| && forall k :: 0 <= k < n ==> SourceVerified(job, job.records[k])
  }

  ghost predicate BoundToJob(job: Job, checkpoint: Checkpoint) {
    checkpoint.Bound? && checkpoint.meta == job.meta
  }

  /** An entry under this manifest is a record of it whose target has been verified. */
  ghost predicate EntryJustified(job: Job, s3: map<string, Bytes>, checkpoint: Checkpoint, id: int)
    requires checkpoint.Bound? && id in checkpoint.objects
  {
    exists k :: 0 <= k < |job.records| && job.records[k].contentId == id
      && checkpoint.objects[id] == VerifiedRow(job.records[k])
      && TargetVerified(job, s3, job.records[k])
  }

  ghost predicate CheckpointJustified(job: Job, w: World) {
    BoundToJob(job, w.checkpoint) ==>
      forall id :: id in w.checkpoint.objects ==> EntryJustified(job, w.s3, w.checkpoint, id)
  }

  function Moved(job: Job, origin: Origin): Db {
    Updated(origin.db, TableOf(job.records), Source)
  }

  /** The key is some record's target, and verified. */
  ghost predicate VerifiedKey(job: Job, s3: map<string, Bytes>, key: string) {
    exists k :: 0 <= k < |job.records| && job.records[k].targetKey == key && TargetVerified(job, s3, job.records[k])
  }

  /** An object that was not there at first is some record's verified target. */
  ghost predicate AdditionsVerified(job: Job, origin: Origin, s3: map<string, Bytes>) {
    forall key :: key in s3 && key !in origin.s3 ==> VerifiedKey(job, s3, key)
  }

  /** The stores' invariant. */
  ghost predicate Sound(job: Job, origin: Origin, w: World) {
    && Extends(origin.s3, w.s3)
    && AdditionsVerified(job, origin, w.s3)
    && (w.db == origin.db || w.db == Moved(job, origin))
    && (w.db != origin.db ==> PrefixVerified(job, w.s3, |job.records|))
    && CheckpointJustified(job, w)
    && (w.exclusive.Some? ==> w.shared == {})
  }

  predicate HasRecord(stage: Stage) {
    stage in {Head, Get, Put, HeadAgain, GetAgain, Mark}
  }

  function Capped(job: Job, command: Command): nat
    requires command.Copy?
  {
    if command.cap.Some? && command.cap.value < |job.records| then command.cap.value else |job.records|
  }

  ghost predicate CopyInvariant(job: Job, w: World, pid: nat, t: Task)
    requires t.command.Copy?
  {
    && t.index + (if t.stage == Mark then 1 else 0)
       == t.counters.uploaded + t.counters.reused + t.counters.wouldUpload
    && t.index <= Capped(job, t.command)
    && (HasRecord(t.stage) ==> t.index < Capped(job, t.command) && SourceVerified(job, job.records[t.index]))
    && (t.stage == Close ==> t.index == Capped(job, t.command))
    && t.stage != Switch
    && (t.stage == Get ==> job.records[t.index].targetKey in w.s3)
    && (if t.command.execute
        then
          && t.counters.wouldUpload == 0
          && (t.stage != Open ==> w.exclusive == Some(pid))
          && (t.stage !in {Open, Bind} ==> BoundToJob(job, w.checkpoint))
          && PrefixVerified(job, w.s3, t.index)
          && PrefixMarked(job, w.checkpoint, t.index)
          && (t.stage == Put ==> job.records[t.index].targetKey !in w.s3)
          && (t.stage in {HeadAgain, GetAgain, Mark} ==> TargetVerified(job, w.s3, job.records[t.index]))
        else
          t.counters.uploaded == 0 && t.stage !in {Bind, Put, HeadAgain, GetAgain, Mark})
  }

  ghost predicate CutoverInvariant(job: Job, w: World, pid: nat, t: Task)
    requires t.command.Cutover?
  {
    && t.stage in {Open, Bind, Loop, Head, Get, Switch, Close}
    && PrefixVerified(job, w.s3, t.index)
    && (t.stage != Open ==> pid in w.shared)
    && (t.stage in {Head, Get} ==> t.index < |job.records|)
    && (t.stage in {Switch, Close} ==> t.index == |job.records|)
  }

  ghost predicate RollbackInvariant(job: Job, t: Task)
    requires t.command.Rollback?
  {
    && t.stage in {Open, Loop, Switch, Close}
    && PrefixSourced(job, t.index)
    && (t.stage in {Switch, Close} ==> t.index == |job.records|)
  }

  ghost predicate TaskInvariant(job: Job, w: World, pid: nat, t: Task) {
    match t.command
    case Copy(_, _) => CopyInvariant(job, w, pid, t)
    case Cutover(_) => CutoverInvariant(job, w, pid, t)
    case Rollback(_) => RollbackInvariant(job, t)
  }

  /** What a finished command has established, for good. */
  ghost predicate DoneInvariant(job: Job, w: World, t: Task) {
    match t.command
    case Copy(execute, _) =>
      && t.index == Capped(job, t.command) == t.counters.uploaded + t.counters.reused + t.counters.wouldUpload
      && (if execute
          then
            && t.counters.wouldUpload == 0
            && PrefixVerified(job, w.s3, t.index) && PrefixMarked(job, w.checkpoint, t.index)
            && BoundToJob(job, w.checkpoint)
          else t.counters.uploaded == 0)
    case Cutover(_) => PrefixVerified(job, w.s3, |job.records|)
    case Rollback(_) => PrefixSourced(job, |job.records|)
  }

  ghost predicate ProcessInvariant(job: Job, w: World, pid: nat, p: Process) {
    match p
    case Running(t) => TaskInvariant(job, w, pid, t)
    case Done(t) => DoneInvariant(job, w, t)
    case Failed(_, _) => true
    case Died => true
  }

  ghost predicate Invariant(job: Job, origin: Origin, system: System) {
    && Sound(job, origin, system.world)
    && forall pid :: pid in system.processes ==> ProcessInvariant(job, system.world, pid, system.processes[pid])
  }

  /** A manifest the reader accepted, still describing the table it was generated from. */
  ghost predicate FreshJob(job: Job, origin: Origin) {
    && (exists prefix :: RecordsAccepted(prefix, job.records))
    && AllAt(origin.db, TableOf(job.records), Source)
  }

  /** Before any command: no process, no lock, and no unjustified entry under this manifest. */
  ghost predicate Initial(job: Job, origin: Origin, system: System) {
    && FreshJob(job, origin)
    && system.processes == map[]
    && system.world.db == origin.db && system.world.s3 == origin.s3
    && system.world.exclusive == None && system.world.shared == {}
    && CheckpointJustified(job, system.world)
  }

  lemma RecordsKeyed(job: Job, origin: Origin)
    requires FreshJob(job, origin)
    ensures KeyedOnce(job.records)
  {
    var prefix :| RecordsAccepted(prefix, job.records);
    forall i, j | 0 <= i < j < |job.records|
      ensures job.records[i].contentId != job.records[j].contentId
      ensures job.records[i].targetKey != job.records[j].targetKey
    {
      assert LinePasses(prefix, job.records, j);
      IdsAreOrdered(prefix, job.records, i, j);
    }
  }

  /** A table at one side that differs from the original only in its paths is one of two tables. */
  lemma SideDecidesTable(origin: Db, db: Db, table: Table, side: Side)
    requires AllAt(origin, table, Source) && AllAt(db, table, side)
    requires forall id :: id in origin ==> id in db && db[id].(storagePath := origin[id].storagePath) == origin[id]
    ensures db == if side == Source then origin else Updated(origin, table, Source)
  {
    var expected := if side == Source then origin else Updated(origin, table, Source);
    forall id | id in db ensures id in expected && db[id] == expected[id] {
      assert RowAt(origin[id], table[id], Source) && RowAt(db[id], table[id], side);
    }
  }

  /** Both reachable tables match the manifest, each at its side. */
  lemma ReachableTables(job: Job, origin: Origin, db: Db)
    requires FreshJob(job, origin) && (db == origin.db || db == Moved(job, origin))
    ensures |db| == |TableOf(job.records)| == |job.records|
    ensures db == origin.db ==> AllAt(db, TableOf(job.records), Source)
    ensures db == Moved(job, origin) ==> AllAt(db, TableOf(job.records), Target)
    ensures forall id :: id in origin.db ==>
      id in db && db[id].(storagePath := origin.db[id].storagePath) == origin.db[id]
  {
    RecordsKeyed(job, origin);
    var table := TableOf(job.records);
    TableSize(job.records);
    assert db.Keys == origin.db.Keys == table.Keys;
    assert |db| == |db.Keys| == |origin.db.Keys| == |table.Keys| == |table|;
    FullCountIsAllAt(origin.db, table, Source);
    CountsDecideTables(origin.db, table, |job.records|);
    if |job.records| > 0 {
      FullOrFail(origin.db, table, |job.records|, Source);
    } else {
      assert origin.db == map[];
    }
  }

  /** In a reachable table the transaction always classifies, and ends at the side it wants. */
  lemma SwitchStaysReachable(job: Job, origin: Origin, db: Db, desired: Side, execute: bool)
    requires FreshJob(job, origin) && (db == origin.db || db == Moved(job, origin))
    ensures var (r, after) := Switched(db, TableOf(job.records), |job.records|, desired, execute);
      && r.Ok?
      && after == if !execute then db else if desired == Source then origin.db else Moved(job, origin)
  {
    ReachableTables(job, origin, db);
    var table := TableOf(job.records);
    CountsDecideTables(db, table, |job.records|);
    SwitchIsExact(db, table, |job.records|, desired, execute);
    var after := Switched(db, table, |job.records|, desired, execute).1;
    if execute {
      SideDecidesTable(origin.db, after, table, desired);
    }
  }

  ghost predicate SameStores(before: World, after: World) {
    after.db == before.db && after.s3 == before.s3 && after.checkpoint == before.checkpoint
  }

  /** Only `pid`'s own locks may go, and a lock taken excludes as it should. */
  ghost predicate LocksKept(before: World, after: World, pid: nat) {
    && (forall q :: q != pid && before.exclusive == Some(q) ==> after.exclusive == Some(q))
    && (forall q :: q != pid && q in before.shared ==> q in after.shared)
    && (after.exclusive.Some? ==> after.shared == {})
  }

  ghost predicate CheckpointKept(before: Checkpoint, after: Checkpoint) {
    before.Bound? ==>
      && after.Bound? && after.meta == before.meta
      && forall id :: id in before.objects ==> id in after.objects && after.objects[id] == before.objects[id]
  }

  /** What one process may do to the stores while another one watches. */
  ghost predicate Evolves(before: World, after: World, pid: nat) {
    && Extends(before.s3, after.s3)
    && (after.s3 != before.s3 ==> before.exclusive == Some(pid))
    && CheckpointKept(before.checkpoint, after.checkpoint)
    && LocksKept(before, after, pid)
  }

  lemma OthersAreStable(job: Job, before: World, after: World, pid: nat, other: nat, p: Process)
    requires other != pid && Evolves(before, after, pid)
    requires ProcessInvariant(job, before, other, p)
    ensures ProcessInvariant(job, after, other, p)
  {
    forall record | TargetVerified(job, before.s3, record) ensures TargetVerified(job, after.s3, record) {
    }
    forall record | Marked(before.checkpoint, record) ensures Marked(after.checkpoint, record) {
    }
  }

  /** A step that leaves the stores alone keeps whatever is said about them. */
  lemma LocksAloneKeep(job: Job, origin: Origin, before: World, after: World, pid: nat)
    requires Sound(job, origin, before) && SameStores(before, after) && LocksKept(before, after, pid)
    ensures Sound(job, origin, after) && Evolves(before, after, pid)
  {
    if BoundToJob(job, after.checkpoint) {
      forall id | id in after.checkpoint.objects ensures EntryJustified(job, after.s3, after.checkpoint, id) {
        assert EntryJustified(job, before.s3, before.checkpoint, id);
      }
    }
  }

  /** Creating the checkpoint file, or binding it, adds no entry. */
  lemma EmptyCheckpointKeeps(job: Job, origin: Origin, before: World, after: World, pid: nat)
    requires Sound(job, origin, before) && LocksKept(before, after, pid)
    requires after.db == before.db && after.s3 == before.s3 && !before.checkpoint.Bound?
    requires after.checkpoint.Bound? ==> after.checkpoint.objects == map[]
    ensures Sound(job, origin, after) && Evolves(before, after, pid)
  {
  }

  lemma PutKeepsStores(job: Job, origin: Origin, before: World, after: World, pid: nat, k: nat, content: Bytes)
    requires FreshJob(job, origin) && Sound(job, origin, before) && before.exclusive == Some(pid)
    requires k < |job.records| && ContentMatches(job.hashes, job.records[k], content)
    requires job.records[k].targetKey !in before.s3
    requires after == before.(s3 := before.s3[job.records[k].targetKey := content])
    ensures Sound(job, origin, after) && Evolves(before, after, pid)
  {
    forall key | key in after.s3 && key !in origin.s3 ensures VerifiedKey(job, after.s3, key) {
      if key == job.records[k].targetKey {
        assert TargetVerified(job, after.s3, job.records[k]);
      } else {
        assert VerifiedKey(job, before.s3, key);
      }
    }
    if BoundToJob(job, after.checkpoint) {
      forall id | id in after.checkpoint.objects ensures EntryJustified(job, after.s3, after.checkpoint, id) {
        assert EntryJustified(job, before.s3, before.checkpoint, id);
      }
    }
  }

  lemma MarkKeepsStores(job: Job, origin: Origin, before: World, after: World, pid: nat, k: nat)
    requires FreshJob(job, origin) && Sound(job, origin, before)
    requires k < |job.records| && TargetVerified(job, before.s3, job.records[k])
    requires BoundToJob(job, before.checkpoint)
    requires after == before.(checkpoint := before.checkpoint.(
      objects := before.checkpoint.objects[job.records[k].contentId := VerifiedRow(job.records[k])]))
    ensures Sound(job, origin, after) && Evolves(before, after, pid)
  {
    RecordsKeyed(job, origin);
    forall id | id in after.checkpoint.objects
      ensures EntryJustified(job, after.s3, after.checkpoint, id)
      ensures id in before.checkpoint.objects ==> after.checkpoint.objects[id] == before.checkpoint.objects[id]
    {
      if id in before.checkpoint.objects {
        assert EntryJustified(job, before.s3, before.checkpoint, id);
      }
    }
  }

  lemma CopyLockTask(job: Job, w: World, pid: nat, t: Task)
    requires t.command.Copy? && t.stage in {Open, Bind, Close} && CopyInvariant(job, w, pid, t)
    requires w.exclusive.Some? ==> w.shared == {}
    ensures var (w', p') := CopyStep(job, w, pid, t);
      && LocksKept(w, w', pid) && ProcessInvariant(job, w', pid, p')
      && w'.db == w.db && w'.s3 == w.s3
      && (w'.checkpoint != w.checkpoint ==>
           !w.checkpoint.Bound? && (w'.checkpoint.Bound? ==> w'.checkpoint.objects == map[]))
  {
  }

  /** Opening, binding and closing a copy. */
  lemma CopyLockStep(job: Job, origin: Origin, w: World, pid: nat, t: Task)
    requires FreshJob(job, origin) && Sound(job, origin, w)
    requires t.command.Copy? && t.stage in {Open, Bind, Close} && CopyInvariant(job, w, pid, t)
    ensures var (w', p') := CopyStep(job, w, pid, t);
      Sound(job, origin, w') && ProcessInvariant(job, w', pid, p') && Evolves(w, w', pid)
  {
    var w' := CopyStep(job, w, pid, t).0;
    CopyLockTask(job, w, pid, t);
    if w'.checkpoint == w.checkpoint {
      LocksAloneKeep(job, origin, w, w', pid);
    } else {
      EmptyCheckpointKeeps(job, origin, w, w', pid);
    }
  }

  lemma CopyProbeStep(job: Job, w: World, pid: nat, t: Task)
    requires t.command.Copy? && t.stage in {Head, HeadAgain} && CopyInvariant(job, w, pid, t)
    requires w.exclusive.Some? ==> w.shared == {}
    ensures var (w', p') := CopyStep(job, w, pid, t);
      SameStores(w, w') && LocksKept(w, w', pid) && ProcessInvariant(job, w', pid, p')
  {
  }

  lemma CopyDownloadStep(job: Job, w: World, pid: nat, t: Task)
    requires t.command.Copy? && t.stage in {Get, GetAgain} && CopyInvariant(job, w, pid, t)
    requires w.exclusive.Some? ==> w.shared == {}
    ensures var (w', p') := CopyStep(job, w, pid, t);
      SameStores(w, w') && LocksKept(w, w', pid) && ProcessInvariant(job, w', pid, p')
  {
  }

  /** Reading a source, probing a key and downloading an object leave the stores alone. */
  lemma CopyReadStep(job: Job, w: World, pid: nat, t: Task)
    requires t.command.Copy? && t.stage in {Loop, Head, Get, HeadAgain, GetAgain} && CopyInvariant(job, w, pid, t)
    requires w.exclusive.Some? ==> w.shared == {}
    ensures var (w', p') := CopyStep(job, w, pid, t);
      SameStores(w, w') && LocksKept(w, w', pid) && ProcessInvariant(job, w', pid, p')
  {
    if t.stage in {Get, GetAgain} {
      CopyDownloadStep(job, w, pid, t);
    } else if t.stage in {Head, HeadAgain} {
      CopyProbeStep(job, w, pid, t);
    }
  }

  lemma CopyPutStep(job: Job, w: World, pid: nat, t: Task)
    requires t.command.Copy? && t.stage == Put && CopyInvariant(job, w, pid, t)
    ensures var (w', p') := CopyStep(job, w, pid, t);
      && w' == w.(s3 := w.s3[job.records[t.index].targetKey := SourceContent(job.files, job.records[t.index]).value])
      && ProcessInvariant(job, w', pid, p')
  {
  }

  lemma CopyMarkStep(job: Job, w: World, pid: nat, t: Task)
    requires KeyedOnce(job.records)
    requires t.command.Copy? && t.stage == Mark && CopyInvariant(job, w, pid, t)
    ensures var (w', p') := CopyStep(job, w, pid, t);
      && w' == w.(checkpoint := w.checkpoint.(objects :=
           w.checkpoint.objects[job.records[t.index].contentId := VerifiedRow(job.records[t.index])]))
      && ProcessInvariant(job, w', pid, p')
  {
    var w' := CopyStep(job, w, pid, t).0;
    forall k | 0 <= k < t.index + 1 ensures Marked(w'.checkpoint, job.records[k]) {
      assert k < t.index ==> Marked(w.checkpoint, job.records[k]);
    }
  }

  /** The induction step for one `copy`. */
  lemma CopyStepKeeps(job: Job, origin: Origin, w: World, pid: nat, t: Task)
    requires FreshJob(job, origin) && Sound(job, origin, w)
    requires t.command.Copy? && CopyInvariant(job, w, pid, t)
    ensures var (w', p') := CopyStep(job, w, pid, t);
      Sound(job, origin, w') && ProcessInvariant(job, w', pid, p') && Evolves(w, w', pid)
  {
    var w' := CopyStep(job, w, pid, t).0;
    if t.stage == Mark {
      RecordsKeyed(job, origin);
      CopyMarkStep(job, w, pid, t);
      MarkKeepsStores(job, origin, w, w', pid, t.index);
    } else if t.stage == Put {
      CopyPutStep(job, w, pid, t);
      PutKeepsStores(job, origin, w, w', pid, t.index, SourceContent(job.files, job.records[t.index]).value);
    } else if t.stage in {Open, Bind, Close} {
      CopyLockStep(job, origin, w, pid, t);
    } else {
      CopyReadStep(job, w, pid, t);
      LocksAloneKeep(job, origin, w, w', pid);
    }
  }

  /** Moving the table between its two reachable contents. */
  lemma SwitchStepKeeps(job: Job, origin: Origin, w: World, pid: nat, t: Task, desired: Side, tableIsFree: bool)
    requires FreshJob(job, origin) && Sound(job, origin, w) && !t.command.Copy?
    requires desired == Target ==> PrefixVerified(job, w.s3, |job.records|)
    ensures var (w', p') := SwitchStep(job, w, pid, t, desired, tableIsFree);
      && Sound(job, origin, w') && Evolves(w, w', pid) && w'.s3 == w.s3
      && (p'.Failed? ||
          (p'.Running? && w'.shared == w.shared && p'.task == t.(stage := Close, outcome := p'.task.outcome)))
  {
    SwitchStaysReachable(job, origin, w.db, desired, t.command.execute);
    var w' := SwitchStep(job, w, pid, t, desired, tableIsFree).0;
    LocksAloneKeep(job, origin, w, w.(exclusive := w'.exclusive, shared := w'.shared), pid);
    if BoundToJob(job, w'.checkpoint) {
      forall id | id in w'.checkpoint.objects ensures EntryJustified(job, w'.s3, w'.checkpoint, id) {
        assert EntryJustified(job, w.s3, w.checkpoint, id);
      }
    }
  }

  /** Every call of a cutover but its transaction leaves the stores alone. */
  lemma CutoverReadStep(job: Job, w: World, pid: nat, t: Task, tableIsFree: bool)
    requires t.command.Cutover? && t.stage != Switch && CutoverInvariant(job, w, pid, t)
    requires w.exclusive.Some? ==> w.shared == {}
    ensures var (w', p') := CutoverStep(job, w, pid, t, tableIsFree);
      SameStores(w, w') && LocksKept(w, w', pid) && ProcessInvariant(job, w', pid, p')
  {
  }

  lemma CutoverStepKeeps(job: Job, origin: Origin, w: World, pid: nat, t: Task, tableIsFree: bool)
    requires FreshJob(job, origin) && Sound(job, origin, w)
    requires t.command.Cutover? && CutoverInvariant(job, w, pid, t)
    ensures var (w', p') := CutoverStep(job, w, pid, t, tableIsFree);
      Sound(job, origin, w') && ProcessInvariant(job, w', pid, p') && Evolves(w, w', pid)
  {
    if t.stage == Switch {
      SwitchStepKeeps(job, origin, w, pid, t, Target, tableIsFree);
    } else {
      CutoverReadStep(job, w, pid, t, tableIsFree);
      LocksAloneKeep(job, origin, w, CutoverStep(job, w, pid, t, tableIsFree).0, pid);
    }
  }

  lemma RollbackReadStep(job: Job, w: World, pid: nat, t: Task, tableIsFree: bool)
    requires t.command.Rollback? && t.stage != Switch && RollbackInvariant(job, t)
    requires w.exclusive.Some? ==> w.shared == {}
    ensures var (w', p') := RollbackStep(job, w, pid, t, tableIsFree);
      SameStores(w, w') && LocksKept(w, w', pid) && ProcessInvariant(job, w', pid, p')
  {
  }

  lemma RollbackStepKeeps(job: Job, origin: Origin, w: World, pid: nat, t: Task, tableIsFree: bool)
    requires FreshJob(job, origin) && Sound(job, origin, w)
    requires t.command.Rollback? && RollbackInvariant(job, t)
    ensures var (w', p') := RollbackStep(job, w, pid, t, tableIsFree);
      Sound(job, origin, w') && ProcessInvariant(job, w', pid, p') && Evolves(w, w', pid)
  {
    if t.stage == Switch {
      SwitchStepKeeps(job, origin, w, pid, t, Source, tableIsFree);
    } else {
      RollbackReadStep(job, w, pid, t, tableIsFree);
      LocksAloneKeep(job, origin, w, RollbackStep(job, w, pid, t, tableIsFree).0, pid);
    }
  }

  /** A process moves on, and what it did is visible to the others only as `Evolves` allows. */
  lemma ReplaceKeeps(job: Job, origin: Origin, system: System, pid: nat, w: World, p: Process)
    requires Invariant(job, origin, system) && Evolves(system.world, w, pid)
    requires Sound(job, origin, w) && ProcessInvariant(job, w, pid, p)
    ensures Invariant(job, origin, System(w, system.processes[pid := p]))
  {
    forall other | other in system.processes && other != pid
      ensures ProcessInvariant(job, w, other, system.processes[other])
    {
      OthersAreStable(job, system.world, w, pid, other, system.processes[other]);
    }
  }

  lemma ProcessStepKeeps(job: Job, origin: Origin, w: World, pid: nat, t: Task, tableIsFree: bool)
    requires FreshJob(job, origin) && Sound(job, origin, w) && TaskInvariant(job, w, pid, t)
    ensures var (w', p') := ProcessStep(job, w, pid, t, tableIsFree);
      Sound(job, origin, w') && ProcessInvariant(job, w', pid, p') && Evolves(w, w', pid)
  {
    match t.command {
      case Copy(_, _) => CopyStepKeeps(job, origin, w, pid, t);
      case Cutover(_) => CutoverStepKeeps(job, origin, w, pid, t, tableIsFree);
      case Rollback(_) => RollbackStepKeeps(job, origin, w, pid, t, tableIsFree);
    }
  }

  /** The process an event concerns. */
  function Actor(event: Event): nat {
    event.pid
  }

  lemma NextKeeps(job: Job, origin: Origin, system: System, event: Event)
    requires FreshJob(job, origin) && Invariant(job, origin, system)
    ensures Invariant(job, origin, Next(job, system, event))
    ensures Evolves(system.world, Next(job, system, event).world, Actor(event))
  {
    var w, pid := system.world, Actor(event);
    if event.Start? {
      LocksAloneKeep(job, origin, w, w, pid);
      ReplaceKeeps(job, origin, system, pid, w, Begin(event.command));
    } else if pid in system.processes && system.processes[pid].Running? {
      assert ProcessInvariant(job, w, pid, system.processes[pid]);
      if event.Advance? {
        var t := system.processes[pid].task;
        ProcessStepKeeps(job, origin, w, pid, t, event.tableIsFree);
        var (w', p') := ProcessStep(job, w, pid, t, event.tableIsFree);
        ReplaceKeeps(job, origin, system, pid, w', p');
      } else {
        LocksAloneKeep(job, origin, w, Release(w, pid), pid);
        ReplaceKeeps(job, origin, system, pid, Release(w, pid), Died);
      }
    }
  }

  lemma {:induction false} RunsKeepInvariant(job: Job, origin: Origin, initial: System, events: seq<Event>)
    requires Initial(job, origin, initial)
    ensures Invariant(job, origin, Execute(job, initial, events))
  {
    if events == [] {
      assert Extends(origin.s3, initial.world.s3);
    } else {
      var n := |events| - 1;
      RunsKeepInvariant(job, origin, initial, events[..n]);
      NextKeeps(job, origin, Execute(job, initial, events[..n]), events[n]);
    }
  }

  /** Some run of commands, steps and crashes leads here. */
  ghost predicate Reachable(job: Job, origin: Origin, system: System) {
    exists initial, events :: Initial(job, origin, initial) && system == Execute(job, initial, events)
  }

  /** Every reachable system satisfies the invariant. */
  lemma ReachableIsSound(job: Job, origin: Origin, system: System)
    requires Reachable(job, origin, system)
    ensures FreshJob(job, origin) && Invariant(job, origin, system)
  {
    var initial, events :| Initial(job, origin, initial) && system == Execute(job, initial, events);
    RunsKeepInvariant(job, origin, initial, events);
  }

  /** One more event leads to another reachable system. */
  lemma ReachableNext(job: Job, origin: Origin, system: System, event: Event)
    requires Reachable(job, origin, system)
    ensures Reachable(job, origin, Next(job, system, event))
  {
    var initial, events :| Initial(job, origin, initial) && system == Execute(job, initial, events);
    var longer := events + [event];
    assert longer[..|longer| - 1] == events;
    assert Next(job, system, event) == Execute(job, initial, longer);
  }
}
