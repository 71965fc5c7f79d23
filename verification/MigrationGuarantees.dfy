/** What an operator may rely on, for every run of the migration. */
module MigrationGuarantees {
  import opened Blobs
  import opened Outcomes
  import opened MigrationTypes
  import opened ObjectKeys
  import opened DatabaseSwitch
  import opened Manifest
  import opened MigrationMachine
  import opened MigrationSafety

  /** The row's `storage_path` is the key of an object with the row's size and digests. */
  predicate NamesObject(hashes: Hashes, s3: map<string, Bytes>, row: Row) {
    && row.storagePath in s3
    && var content := s3[row.storagePath];
    && |content| == row.size
    && hashes.md5(content) == BTrim(row.md5) && hashes.sha256(content) == BTrim(row.sha256)
  }

  /** The row's `storage_path` resolves to a local file with the row's size and digests. */
  predicate NamesFile(hashes: Hashes, site: Site, row: Row) {
    && row.storagePath in site.resolved
    && site.resolved[row.storagePath] in site.files
    && var content := site.files[site.resolved[row.storagePath]];
    && |content| == row.size
    && hashes.md5(content) == BTrim(row.md5) && hashes.sha256(content) == BTrim(row.sha256)
  }

  predicate LocatorResolves(site: Site, record: Record) {
    && record.sourceLocator in site.resolved
    && site.resolved[record.sourceLocator] == PathParts(record.sourceRelativePath)
  }

  /** The local files of the site, each record's locator resolving to its relative path. */
  ghost predicate DescribesSite(job: Job, site: Site) {
    && site.files == job.files
    && forall k :: 0 <= k < |job.records| ==>
         LocatorResolves(site, job.records[k])
  }

  /** A manifest generated from the table and read back is a job the guarantees below speak of. */
  lemma GeneratedJobIsFresh(args: Arguments, site: Site, origin: Origin, entries: seq<Entry>, file: ManifestFile,
                            job: Job)
    requires IsScan(origin.db, entries) && Publishable(args, site, |origin.db|, entries)
    requires FitsColumns(origin.db) && ResolvesCleanly(site)
    requires Acceptable(file) && |file.lines| == |entries|
    requires WrittenFrom(NormalizeObjectPrefix(args.objectPrefix).value, site, entries, file.lines)
    requires job.records == file.lines && job.files == site.files
    ensures FreshJob(job, origin) && DescribesSite(job, site)
  {
    FreshManifestIsAtSource(args, site, origin.db, entries, file);
    var prefix := NormalizeObjectPrefix(args.objectPrefix).value;
    forall k | 0 <= k < |job.records|
      ensures LocatorResolves(site, job.records[k])
    {
      RecordsNameTheirSources(prefix, site, entries, file.lines, k);
    }
  }

  lemma VerifiedRowsNameObjects(job: Job, origin: Origin, db: Db, s3: map<string, Bytes>)
    requires FreshJob(job, origin) && AllAt(db, TableOf(job.records), Target)
    requires PrefixVerified(job, s3, |job.records|)
    ensures forall id :: id in db ==> NamesObject(job.hashes, s3, db[id])
  {
    RecordsKeyed(job, origin);
    forall id | id in db ensures NamesObject(job.hashes, s3, db[id]) {
      TableOnlyHoldsRecords(job.records, id);
      var k :| 0 <= k < |job.records| && job.records[k].contentId == id;
      TableLookup(job.records, k);
      assert RowAt(db[id], job.records[k], Target) && TargetVerified(job, s3, job.records[k]);
    }
  }

  lemma SourcedRowsNameFiles(job: Job, origin: Origin, site: Site)
    requires FreshJob(job, origin) && DescribesSite(job, site) && PrefixSourced(job, |job.records|)
    ensures forall id :: id in origin.db ==> NamesFile(job.hashes, site, origin.db[id])
  {
    RecordsKeyed(job, origin);
    forall id | id in origin.db ensures NamesFile(job.hashes, site, origin.db[id]) {
      TableOnlyHoldsRecords(job.records, id);
      var k :| 0 <= k < |job.records| && job.records[k].contentId == id;
      TableLookup(job.records, k);
      assert RowAt(origin.db[id], job.records[k], Source) && SourceVerified(job, job.records[k]);
    }
  }

  /**
   * In every reachable state `file_contents` is entirely at one side, differs from the original in
   * `storage_path` only, and once it has left the original every row names a verified object.
   */
  lemma TableIsNeverMixed(job: Job, origin: Origin, system: System)
    requires Reachable(job, origin, system)
    ensures var w := system.world;
      && (AllAt(w.db, TableOf(job.records), Source) || AllAt(w.db, TableOf(job.records), Target))
      && w.db.Keys == origin.db.Keys
      && (forall id :: id in w.db ==> w.db[id].(storagePath := origin.db[id].storagePath) == origin.db[id])
      && (w.db != origin.db ==> forall id :: id in w.db ==> NamesObject(job.hashes, w.s3, w.db[id]))
  {
    ReachableIsSound(job, origin, system);
    ReachableTables(job, origin, system.world.db);
    if system.world.db != origin.db {
      VerifiedRowsNameObjects(job, origin, system.world.db, system.world.s3);
    }
  }

  /** The process that `event` lets make its next call. */
  ghost predicate Steps(system: System, event: Event) {
    event.Advance? && event.pid in system.processes && system.processes[event.pid].Running?
  }

  function TaskOf(system: System, event: Event): Task
    requires Steps(system, event)
  {
    system.processes[event.pid].task
  }

  /** The event commits a path switch. */
  ghost predicate Commits(job: Job, system: System, event: Event) {
    && Steps(system, event)
    && var t := TaskOf(system, event);
    && t.stage == Switch && !t.command.Copy? && t.command.execute
    && Next(job, system, event).processes[event.pid].Running?
  }

  /** What a committed transaction leaves in the table. */
  lemma SwitchCommits(job: Job, origin: Origin, w: World, pid: nat, t: Task, tableIsFree: bool)
    requires FreshJob(job, origin) && Sound(job, origin, w)
    requires t.stage == Switch && !t.command.Copy? && t.command.execute
    ensures var (w', p') := ProcessStep(job, w, pid, t, tableIsFree);
      p'.Running? ==> w' == w.(db := if t.command.Cutover? then Moved(job, origin) else origin.db)
  {
    SwitchStaysReachable(job, origin, w.db, if t.command.Cutover? then Target else Source, true);
  }

  /** A committed cutover leaves every row naming an object that matches it; a rollback, a local file. */
  lemma CommitsAreVerified(job: Job, origin: Origin, system: System, event: Event, site: Site)
    requires Reachable(job, origin, system) && DescribesSite(job, site)
    requires Commits(job, system, event)
    ensures var after := Next(job, system, event).world;
      if TaskOf(system, event).command.Cutover?
      then
        && after.db == Moved(job, origin)
        && forall id :: id in after.db ==> NamesObject(job.hashes, after.s3, after.db[id])
      else
        && after.db == origin.db
        && forall id :: id in after.db ==> NamesFile(job.hashes, site, after.db[id])
  {
    ReachableIsSound(job, origin, system);
    var t := TaskOf(system, event);
    assert ProcessInvariant(job, system.world, event.pid, system.processes[event.pid]);
    SwitchCommits(job, origin, system.world, event.pid, t, event.tableIsFree);
    if t.command.Cutover? {
      ReachableTables(job, origin, Moved(job, origin));
      VerifiedRowsNameObjects(job, origin, Moved(job, origin), system.world.s3);
    } else {
      SourcedRowsNameFiles(job, origin, site);
    }
  }

  /** From any reachable state on, no object is ever overwritten or lost. */
  lemma {:induction false} ObjectsOnlyAccumulate(job: Job, origin: Origin, system: System, events: seq<Event>)
    requires Reachable(job, origin, system)
    ensures Reachable(job, origin, Execute(job, system, events))
    ensures Extends(system.world.s3, Execute(job, system, events).world.s3)
  {
    if events != [] {
      var n := |events| - 1;
      ObjectsOnlyAccumulate(job, origin, system, events[..n]);
      var middle := Execute(job, system, events[..n]);
      ReachableIsSound(job, origin, middle);
      NextKeeps(job, origin, middle, events[n]);
      ReachableNext(job, origin, middle, events[n]);
    }
  }

  /** Every object added by the migration is a verified target; every checkpoint entry is a record with one. */
  lemma StoresAreEvidence(job: Job, origin: Origin, system: System)
    requires Reachable(job, origin, system)
    ensures Extends(origin.s3, system.world.s3) && AdditionsVerified(job, origin, system.world.s3)
    ensures CheckpointJustified(job, system.world)
  {
    ReachableIsSound(job, origin, system);
  }

  /** A finished copy handled exactly the first `min(cap, n)` records, and its counts add up. */
  lemma CopyAccountsForEveryRecord(job: Job, origin: Origin, system: System, pid: nat)
    requires Reachable(job, origin, system)
    requires pid in system.processes && system.processes[pid].Done? && system.processes[pid].task.command.Copy?
    ensures var t := system.processes[pid].task;
      && StopsAtCap(|job.records|, t.command.cap, t.index)
      && t.counters.uploaded + t.counters.reused + t.counters.wouldUpload == t.index
      && (if t.command.execute then t.counters.wouldUpload == 0 else t.counters.uploaded == 0)
      && (t.command.execute ==>
           PrefixVerified(job, system.world.s3, t.index) && PrefixMarked(job, system.world.checkpoint, t.index))
  {
    ReachableIsSound(job, origin, system);
    assert ProcessInvariant(job, system.world, pid, system.processes[pid]);
  }

  /** An executed copy that ran to its end without a cutting cap. */
  predicate CompleteCopy(job: Job, p: Process) {
    p.Done? && p.task.command.Copy? && p.task.command.execute && p.task.index == |job.records|
  }

  ghost predicate FullyCopied(job: Job, system: System) {
    exists pid :: pid in system.processes && CompleteCopy(job, system.processes[pid])
  }

  /** Cutover's loop goes through everything that is checkpointed and verified. */
  lemma ClearedLoopStep(job: Job, w: World, pid: nat, t: Task, tableIsFree: bool)
    requires t.command.Cutover? && t.stage in {Loop, Head, Get} && CutoverInvariant(job, w, pid, t)
    requires t.index < |job.records| ==>
      TargetVerified(job, w.s3, job.records[t.index]) && Marked(w.checkpoint, job.records[t.index])
    ensures CutoverStep(job, w, pid, t, tableIsFree).1.Running?
  {
  }

  lemma ClearedSwitchStep(job: Job, origin: Origin, w: World, pid: nat, t: Task, tableIsFree: bool)
    requires FreshJob(job, origin) && Sound(job, origin, w)
    requires t.command.Cutover? && t.stage == Switch
    ensures CutoverStep(job, w, pid, t, tableIsFree).1.Failed? <==> !tableIsFree
  {
    SwitchStaysReachable(job, origin, w.db, Target, t.command.execute);
  }

  lemma ClearedLockStep(job: Job, w: World, pid: nat, t: Task, tableIsFree: bool)
    requires t.command.Cutover? && t.stage in {Open, Bind, Close} && BoundToJob(job, w.checkpoint)
    ensures CutoverStep(job, w, pid, t, tableIsFree).1.Failed? <==> t.stage == Open && w.exclusive.Some?
  {
  }

  lemma CompleteCopyEnablesStep(job: Job, origin: Origin, w: World, pid: nat, t: Task, tableIsFree: bool)
    requires FreshJob(job, origin) && Sound(job, origin, w)
    requires t.command.Cutover? && CutoverInvariant(job, w, pid, t)
    requires BoundToJob(job, w.checkpoint)
    requires PrefixVerified(job, w.s3, |job.records|) && PrefixMarked(job, w.checkpoint, |job.records|)
    ensures CutoverStep(job, w, pid, t, tableIsFree).1.Failed? <==>
      (t.stage == Open && w.exclusive.Some?) || (t.stage == Switch && !tableIsFree)
  {
    if t.stage == Switch {
      ClearedSwitchStep(job, origin, w, pid, t, tableIsFree);
    } else if t.stage in {Open, Bind, Close} {
      ClearedLockStep(job, w, pid, t, tableIsFree);
    } else {
      ClearedLoopStep(job, w, pid, t, tableIsFree);
    }
  }

  /**
   * After one completed uncapped copy, a cutover fails only for a held lock: its opening call when a
   * copy holds the checkpoint, or its transaction when the table is in use.
   */
  lemma CutoverFailsOnlyForLocks(job: Job, origin: Origin, system: System, event: Event)
    requires Reachable(job, origin, system) && FullyCopied(job, system)
    requires Steps(system, event) && TaskOf(system, event).command.Cutover?
    ensures var t := TaskOf(system, event);
      Next(job, system, event).processes[event.pid].Failed? <==>
        || (t.stage == Open && system.world.exclusive.Some?)
        || (t.stage == Switch && !event.tableIsFree)
  {
    ReachableIsSound(job, origin, system);
    var finished :| finished in system.processes && CompleteCopy(job, system.processes[finished]);
    assert ProcessInvariant(job, system.world, finished, system.processes[finished]);
    assert ProcessInvariant(job, system.world, event.pid, system.processes[event.pid]);
    CompleteCopyEnablesStep(job, origin, system.world, event.pid, TaskOf(system, event), event.tableIsFree);
  }

  /** What can make a copy's next call fail, as an operator could check it beforehand. */
  ghost predicate CopyObstacle(job: Job, origin: Origin, w: World, t: Task)
    requires t.command.Copy?
  {
    if t.stage == Open then t.command.execute && (w.exclusive.Some? || w.shared != {})
    else if t.stage == Bind then w.checkpoint.Bound? && w.checkpoint.meta != job.meta
    else
      && t.index < Capped(job, t.command)
      && var record := job.records[t.index];
      if t.stage == Loop then !SourceVerified(job, record)
      else if t.stage == Head then record.targetKey in origin.s3 && |origin.s3[record.targetKey]| != record.size
      else t.stage == Get && record.targetKey in origin.s3 && !TargetVerified(job, origin.s3, record)
  }

  lemma PresentObjectIsOriginalOrVerified(job: Job, origin: Origin, w: World, k: nat)
    requires FreshJob(job, origin) && Sound(job, origin, w) && k < |job.records|
    ensures job.records[k].targetKey in w.s3 ==>
      || TargetVerified(job, w.s3, job.records[k])
      || (job.records[k].targetKey in origin.s3
          && w.s3[job.records[k].targetKey] == origin.s3[job.records[k].targetKey])
    ensures job.records[k].targetKey in origin.s3 ==>
      (TargetVerified(job, origin.s3, job.records[k]) <==> TargetVerified(job, w.s3, job.records[k]))
  {
    RecordsKeyed(job, origin);
    var key := job.records[k].targetKey;
    if key in w.s3 && key !in origin.s3 {
      assert VerifiedKey(job, w.s3, key);
    }
  }

  lemma ObstacleDecidesStep(job: Job, origin: Origin, w: World, pid: nat, t: Task)
    requires FreshJob(job, origin) && Sound(job, origin, w)
    requires t.command.Copy? && CopyInvariant(job, w, pid, t)
    ensures CopyStep(job, w, pid, t).1.Failed? <==> CopyObstacle(job, origin, w, t)
  {
    if t.index < |job.records| {
      PresentObjectIsOriginalOrVerified(job, origin, w, t.index);
    }
  }

  /**
   * A copy fails exactly for a held lock, a checkpoint of another manifest, a bad source, or a
   * conflicting object that was in S3 before the migration began; never for its own uploads.
   */
  lemma CopyFailsOnlyForObstacles(job: Job, origin: Origin, system: System, event: Event)
    requires Reachable(job, origin, system)
    requires Steps(system, event) && TaskOf(system, event).command.Copy?
    ensures Next(job, system, event).processes[event.pid].Failed? <==>
      CopyObstacle(job, origin, system.world, TaskOf(system, event))
  {
    ReachableIsSound(job, origin, system);
    assert ProcessInvariant(job, system.world, event.pid, system.processes[event.pid]);
    ObstacleDecidesStep(job, origin, system.world, event.pid, TaskOf(system, event));
  }

  lemma DryCopyWritesNothing(job: Job, w: World, pid: nat, t: Task)
    requires t.command.Copy? && !t.command.execute && CopyInvariant(job, w, pid, t)
    ensures SameStores(w, CopyStep(job, w, pid, t).0)
  {
  }

  lemma DrySwitchWritesNothing(job: Job, w: World, pid: nat, t: Task, tableIsFree: bool)
    requires !t.command.Copy? && !t.command.execute
    ensures SameStores(w, ProcessStep(job, w, pid, t, tableIsFree).0)
  {
  }

  /** A command without `--execute` writes no store, whatever stage it is at. */
  lemma DryRunsWriteNothing(job: Job, origin: Origin, system: System, event: Event)
    requires Reachable(job, origin, system)
    requires Steps(system, event) && !TaskOf(system, event).command.execute
    ensures SameStores(system.world, Next(job, system, event).world)
  {
    ReachableIsSound(job, origin, system);
    assert ProcessInvariant(job, system.world, event.pid, system.processes[event.pid]);
    if TaskOf(system, event).command.Copy? {
      DryCopyWritesNothing(job, system.world, event.pid, TaskOf(system, event));
    } else {
      DrySwitchWritesNothing(job, system.world, event.pid, TaskOf(system, event), event.tableIsFree);
    }
  }

  /** The checkpoint's row for a record, column by column. */
  predicate Recorded(checkpoint: Checkpoint, record: Record) {
    && checkpoint.Bound?
    && record.contentId in checkpoint.objects
    && var row := checkpoint.objects[record.contentId];
    && row.sourceLocator == record.sourceLocator && row.targetKey == record.targetKey
    && row.size == record.size && row.md5 == record.md5 && row.sha256 == record.sha256
  }

  /** A finished copy that wrote, and went beyond record `k`. */
  predicate CompleteCopyTo(p: Process, k: nat) {
    p.Done? && p.task.command.Copy? && p.task.command.execute && k < p.task.index
  }

  /** A finished copy has recorded every record it handled, column by column. */
  lemma FinishedCopyRecorded(job: Job, origin: Origin, system: System, pid: nat, k: nat)
    requires Reachable(job, origin, system)
    requires pid in system.processes && CompleteCopyTo(system.processes[pid], k)
    ensures k < |job.records| && Recorded(system.world.checkpoint, job.records[k])
  {
    ReachableIsSound(job, origin, system);
    assert ProcessInvariant(job, system.world, pid, system.processes[pid]);
    assert Marked(system.world.checkpoint, job.records[k]);
  }

  /** A cutover refuses a record exactly when the checkpoint's row is missing or differs in any column. */
  lemma CutoverReadsEveryColumn(job: Job, system: System, event: Event)
    requires Steps(system, event) && TaskOf(system, event).command.Cutover? && TaskOf(system, event).stage == Loop
    requires TaskOf(system, event).index < |job.records|
    ensures Next(job, system, event).processes[event.pid].Failed? <==>
      !Recorded(system.world.checkpoint, job.records[TaskOf(system, event).index])
  {
  }
}
