/** What the history of a run explains: who put an object there, what a switch found, who holds a lock. */
module MigrationHistory {
  import opened Outcomes
  import opened MigrationTypes
  import opened DatabaseSwitch
  import opened MigrationMachine
  import opened MigrationSafety
  import opened MigrationGuarantees

  /** The system before event `j`. */
  function Before(job: Job, initial: System, events: seq<Event>, j: nat): System
    requires j <= |events|
  {
    Execute(job, initial, events[..j])
  }

  lemma PrefixOfPrefix(job: Job, initial: System, events: seq<Event>, n: nat, j: nat)
    requires j <= n <= |events|
    ensures Before(job, initial, events[..n], j) == Before(job, initial, events, j)
  {
    assert events[..n][..j] == events[..j];
  }

  lemma LastStep(job: Job, initial: System, events: seq<Event>)
    requires events != []
    ensures var n := |events| - 1;
      Execute(job, initial, events) == Next(job, Before(job, initial, events, n), events[n])
  {
  }

  /** Event `i` starts this process with this command. */
  predicate Starts(events: seq<Event>, i: nat, pid: nat, command: Command) {
    i < |events| && events[i] == Start(pid, command)
  }

  lemma CopyKeepsCommand(job: Job, w: World, pid: nat, t: Task, record: Record)
    requires t.command.Copy?
    ensures var p := CopyRecordStep(job, w, pid, t, record).1;
      p.Running? || p.Done? ==> p.task.command == t.command
  {
  }

  lemma StepKeepsCommand(job: Job, w: World, pid: nat, t: Task, tableIsFree: bool)
    ensures var p := ProcessStep(job, w, pid, t, tableIsFree).1;
      p.Running? || p.Done? ==> p.task.command == t.command
  {
    if t.command.Copy? && HasRecord(t.stage) && t.index < |job.records| {
      CopyKeepsCommand(job, w, pid, t, job.records[t.index]);
    }
  }

  /** A running or finished process does what it was started for. */
  lemma {:induction false} WasStarted(job: Job, initial: System, events: seq<Event>, pid: nat) returns (i: nat)
    requires initial.processes == map[]
    requires var processes := Execute(job, initial, events).processes;
      pid in processes && (processes[pid].Running? || processes[pid].Done?)
    ensures Starts(events, i, pid, Execute(job, initial, events).processes[pid].task.command)
  {
    var n := |events| - 1;
    var before := Before(job, initial, events, n);
    if pid !in before.processes {
      i := n;
    } else {
      if before.processes[pid].Running? {
        var free := events[n].Advance? && events[n].tableIsFree;
        StepKeepsCommand(job, before.world, pid, before.processes[pid].task, free);
      }
      i := WasStarted(job, initial, events[..n], pid);
    }
  }

  /** Event `j` is an executing copy's upload of record `k`, whose command's cap reaches it. */
  ghost predicate Uploads(job: Job, initial: System, events: seq<Event>, j: nat, k: nat) {
    && j < |events| && k < |job.records|
    && var system := Before(job, initial, events, j);
    && Steps(system, events[j])
    && var t := TaskOf(system, events[j]);
    && t.command.Copy? && t.command.execute && t.stage == Put && t.index == k
    && (t.command.cap.Some? ==> k < t.command.cap.value)
  }

  lemma OnlyPutAdds(job: Job, w: World, pid: nat, t: Task, tableIsFree: bool)
    requires !t.command.Copy? || t.stage != Put
    ensures ProcessStep(job, w, pid, t, tableIsFree).0.s3 == w.s3
  {
  }

  /** A step that adds an object is an upload of the record whose key it is. */
  lemma AddingStep(job: Job, origin: Origin, system: System, event: Event, key: string)
    requires FreshJob(job, origin) && Invariant(job, origin, system)
    requires key !in system.world.s3 && key in Next(job, system, event).world.s3
    ensures Steps(system, event)
    ensures var t := TaskOf(system, event);
      && t.command.Copy? && t.command.execute && t.stage == Put
      && t.index < |job.records| && job.records[t.index].targetKey == key
      && (t.command.cap.Some? ==> t.index < t.command.cap.value)
  {
    var t := TaskOf(system, event);
    assert ProcessInvariant(job, system.world, event.pid, system.processes[event.pid]);
    if !t.command.Copy? || t.stage != Put {
      OnlyPutAdds(job, system.world, event.pid, t, event.tableIsFree);
    }
  }

  /**
   * In every run, an object under a record's key that was not there at first was uploaded by an
   * executing copy whose cap reaches that record.
   */
  lemma {:induction false} ObjectsHaveUploads(job: Job, origin: Origin, initial: System, events: seq<Event>, k: nat)
    returns (j: nat)
    requires Initial(job, origin, initial) && k < |job.records|
    requires job.records[k].targetKey in Execute(job, initial, events).world.s3
    requires job.records[k].targetKey !in origin.s3
    ensures Uploads(job, initial, events, j, k)
  {
    var n, key := |events| - 1, job.records[k].targetKey;
    var before := Before(job, initial, events, n);
    if key in before.world.s3 {
      j := ObjectsHaveUploads(job, origin, initial, events[..n], k);
      PrefixOfPrefix(job, initial, events, n, j);
    } else {
      RunsKeepInvariant(job, origin, initial, events[..n]);
      AddingStep(job, origin, before, events[n], key);
      RecordsKeyed(job, origin);
      j := n;
    }
  }

  /** Every executing copy of the run is capped at `limit` or less. */
  predicate AllCapped(events: seq<Event>, limit: nat) {
    forall i :: 0 <= i < |events| && events[i].Start? && events[i].command.Copy? && events[i].command.execute ==>
      events[i].command.cap.Some? && events[i].command.cap.value <= limit
  }

  lemma UploadBelowCap(job: Job, origin: Origin, initial: System, events: seq<Event>, limit: nat, j: nat, k: nat)
    requires Initial(job, origin, initial) && AllCapped(events, limit) && Uploads(job, initial, events, j, k)
    ensures k < limit
  {
    var i := WasStarted(job, initial, events[..j], events[j].pid);
    assert events[i] == events[..j][i];
  }

  /** However often copies capped at `limit` are run, crash and are rerun, no record from `limit` on gets an object. */
  lemma CappedRunsStayBelow(job: Job, origin: Origin, initial: System, events: seq<Event>, limit: nat, k: nat)
    requires Initial(job, origin, initial) && AllCapped(events, limit) && limit <= k < |job.records|
    ensures job.records[k].targetKey in Execute(job, initial, events).world.s3 ==> job.records[k].targetKey in origin.s3
  {
    if job.records[k].targetKey in Execute(job, initial, events).world.s3 && job.records[k].targetKey !in origin.s3 {
      var j := ObjectsHaveUploads(job, origin, initial, events, k);
      UploadBelowCap(job, origin, initial, events, limit, j, k);
    }
  }

  /** The reported state is that of the table before, and the count that of the rows moved. */
  ghost predicate Found(job: Job, origin: Origin, command: Command, db: Db, outcome: (DbState, nat), after: Db)
    requires !command.Copy?
  {
    && Describes(outcome.0, db, TableOf(job.records))
    && after == (if !command.execute then db else if command.Cutover? then Moved(job, origin) else origin.db)
    && outcome.1 ==
       if command.execute && outcome.0 == At(if command.Cutover? then Source else Target) then |job.records| else 0
  }

  /** Event `j` is the transaction of a cutover or rollback: what it found, reported, and left in the table. */
  ghost predicate Transacts(job: Job, origin: Origin, initial: System, events: seq<Event>, j: nat, pid: nat,
                            outcome: (DbState, nat))
  {
    && j < |events| && events[j] == Advance(pid, true)
    && var system := Before(job, initial, events, j);
    && Steps(system, events[j])
    && var t, after := TaskOf(system, events[j]), Next(job, system, events[j]).world.db;
    && !t.command.Copy? && t.stage == Switch
    && Found(job, origin, t.command, system.world.db, outcome, after)
  }

  /** How a cutover or rollback gets to its end: by its transaction, and then by closing. */
  lemma SwitchCloses(job: Job, w: World, pid: nat, t: Task, tableIsFree: bool)
    requires !t.command.Copy?
    ensures var (w', p') := ProcessStep(job, w, pid, t, tableIsFree);
      && (p'.Done? ==> t.stage == Close && p'.task == t)
      && (p'.Running? && p'.task.stage == Close ==>
           && t.stage == Switch && tableIsFree && p'.task.outcome.Some?
           && var desired := if t.command.Cutover? then Target else Source;
              (Ok(p'.task.outcome.value), w'.db) ==
                Switched(w.db, TableOf(job.records), |job.records|, desired, t.command.execute))
  {
  }

  lemma TransactionFinds(job: Job, origin: Origin, w: World, pid: nat, t: Task)
    requires FreshJob(job, origin) && Sound(job, origin, w) && !t.command.Copy? && t.stage == Switch
    ensures var (w', p') := ProcessStep(job, w, pid, t, true);
      p'.Running? && p'.task.outcome.Some? ==> Found(job, origin, t.command, w.db, p'.task.outcome.value, w'.db)
  {
    var desired := if t.command.Cutover? then Target else Source;
    SwitchStaysReachable(job, origin, w.db, desired, t.command.execute);
    ReportedStateIsFound(w.db, TableOf(job.records), |job.records|, desired, t.command.execute);
    SwitchIsExact(w.db, TableOf(job.records), |job.records|, desired, t.command.execute);
  }

  /** The process has made its transaction. */
  predicate Switches(p: Process) {
    (p.Done? || (p.Running? && p.task.stage == Close)) && !p.task.command.Copy?
  }

  /**
   * In every run, what a finished cutover or rollback reports, dry or executed, is what its
   * transaction found in the table, row by row, and how many rows it then moved.
   */
  lemma {:induction false} SwitchReportsWhatItFound(job: Job, origin: Origin, initial: System, events: seq<Event>,
                                                    pid: nat)
    returns (j: nat)
    requires Initial(job, origin, initial)
    requires var processes := Execute(job, initial, events).processes;
      pid in processes && Switches(processes[pid])
    ensures var t := Execute(job, initial, events).processes[pid].task;
      t.outcome.Some? && Transacts(job, origin, initial, events, j, pid, t.outcome.value)
  {
    var n := |events| - 1;
    var before := Before(job, initial, events, n);
    if pid in before.processes && Switches(before.processes[pid]) {
      if before.processes[pid].Running? {
        var free := events[n].Advance? && events[n].tableIsFree;
        SwitchCloses(job, before.world, pid, before.processes[pid].task, free);
      }
      j := SwitchReportsWhatItFound(job, origin, initial, events[..n], pid);
      PrefixOfPrefix(job, initial, events, n, j);
    } else {
      RunsKeepInvariant(job, origin, initial, events[..n]);
      var t := before.processes[pid].task;
      StepKeepsCommand(job, before.world, pid, t, events[n].tableIsFree);
      SwitchCloses(job, before.world, pid, t, events[n].tableIsFree);
      TransactionFinds(job, origin, before.world, pid, t);
      j := n;
    }
  }

  predicate Runs(system: System, pid: nat) {
    pid in system.processes && system.processes[pid].Running?
  }

  /** Every lock is held by a process that is running. */
  ghost predicate OwnersRun(system: System) {
    && (system.world.exclusive.Some? ==> Runs(system, system.world.exclusive.value))
    && (forall q :: q in system.world.shared ==> Runs(system, q))
  }

  /** A step takes locks for its own process only, and a process that ends keeps none. */
  predicate OwnLocksOnly(w: World, w': World, pid: nat, p': Process) {
    && (w'.exclusive == None || w'.exclusive == w.exclusive || w'.exclusive == Some(pid))
    && w'.shared <= w.shared + {pid}
    && (p'.Running? || (w'.exclusive != Some(pid) && pid !in w'.shared))
  }

  lemma CopyOwnsLocks(job: Job, w: World, pid: nat, t: Task)
    requires t.command.Copy?
    ensures var (w', p') := CopyStep(job, w, pid, t); OwnLocksOnly(w, w', pid, p')
  {
    if HasRecord(t.stage) && t.index < |job.records| {
      var (w', p') := CopyRecordStep(job, w, pid, t, job.records[t.index]);
      assert OwnLocksOnly(w, w', pid, p');
    }
  }

  lemma SwitchOwnsLocks(job: Job, w: World, pid: nat, t: Task, tableIsFree: bool)
    requires !t.command.Copy?
    ensures var (w', p') := ProcessStep(job, w, pid, t, tableIsFree); OwnLocksOnly(w, w', pid, p')
  {
  }

  lemma OwnersStep(job: Job, system: System, event: Event)
    requires OwnersRun(system)
    ensures OwnersRun(Next(job, system, event))
  {
    if event.Advance? && event.pid in system.processes && system.processes[event.pid].Running? {
      var t := system.processes[event.pid].task;
      if t.command.Copy? {
        CopyOwnsLocks(job, system.world, event.pid, t);
      } else {
        SwitchOwnsLocks(job, system.world, event.pid, t, event.tableIsFree);
      }
    }
  }

  /** In every run, crashes included, no lock outlives its process. */
  lemma {:induction false} LocksDieWithOwners(job: Job, origin: Origin, initial: System, events: seq<Event>)
    requires Initial(job, origin, initial)
    ensures OwnersRun(Execute(job, initial, events))
  {
    if events != [] {
      var n := |events| - 1;
      LocksDieWithOwners(job, origin, initial, events[..n]);
      OwnersStep(job, Before(job, initial, events, n), events[n]);
    }
  }
}
