/** From any reachable state, whatever crashed before, the migration can be completed and undone. */
module MigrationCompletion {
  import opened Outcomes
  import opened MigrationTypes
  import opened DatabaseSwitch
  import opened MigrationMachine
  import opened MigrationSafety
  import opened MigrationGuarantees
  import opened MigrationHistory
  import opened CopyBlobs
  import opened CopyRefinement
  import opened SwitchRefinement

  /** `n` calls of one process, as events. */
  function Calls(pid: nat, n: nat): seq<Event> {
    if n == 0 then [] else Calls(pid, n - 1) + [Advance(pid, true)]
  }

  /** A command run alone, as events. */
  function RunOf(pid: nat, command: Command, n: nat): seq<Event> {
    [Start(pid, command)] + Calls(pid, n)
  }

  lemma {:induction false} ExecuteComposes(job: Job, system: System, first: seq<Event>, rest: seq<Event>)
    ensures Execute(job, system, first + rest) == Execute(job, Execute(job, system, first), rest)
    decreases |rest|
  {
    if rest == [] {
      assert first + rest == first;
    } else {
      var n := |rest| - 1;
      ExecuteComposes(job, system, first, rest[..n]);
      assert (first + rest)[..|first| + n] == first + rest[..n];
    }
  }

  lemma SoloLast(job: Job, w: World, pid: nat, p: Process, n: nat)
    requires n > 0
    ensures var (w', p') := Solo(job, true, w, pid, p, n - 1);
      Solo(job, true, w, pid, p, n) ==
        if p'.Running? then ProcessStep(job, w', pid, p'.task, true) else (w', p')
  {
    SoloComposes(job, true, w, pid, p, n - 1, 1);
    var (w', p') := Solo(job, true, w, pid, p, n - 1);
    if p'.Running? {
      SoloCall(job, true, w', pid, p'.task, 1);
    }
  }

  lemma AdvanceIs(job: Job, w: World, processes: map<nat, Process>, pid: nat, p: Process)
    ensures var (w', p') := if p.Running? then ProcessStep(job, w, pid, p.task, true) else (w, p);
      Next(job, System(w, processes[pid := p]), Advance(pid, true)) == System(w', processes[pid := p'])
  {
    if p.Running? {
      var (w', p') := ProcessStep(job, w, pid, p.task, true);
      assert processes[pid := p][pid := p'] == processes[pid := p'];
    }
  }

  /** The events of one process have the effect of its calls and touch no other process. */
  lemma {:induction false} CallsAreSolo(job: Job, system: System, pid: nat, n: nat)
    requires pid in system.processes
    ensures var (w, p) := Solo(job, true, system.world, pid, system.processes[pid], n);
      Execute(job, system, Calls(pid, n)) == System(w, system.processes[pid := p])
  {
    if n == 0 {
      assert system.processes == system.processes[pid := system.processes[pid]];
    } else {
      CallsAreSolo(job, system, pid, n - 1);
      var calls := Calls(pid, n);
      assert calls[..|calls| - 1] == Calls(pid, n - 1) && calls[|calls| - 1] == Advance(pid, true);
      var (w, p) := Solo(job, true, system.world, pid, system.processes[pid], n - 1);
      AdvanceIs(job, w, system.processes, pid, p);
      SoloLast(job, system.world, pid, system.processes[pid], n);
    }
  }

  lemma RunIsSolo(job: Job, system: System, pid: nat, command: Command, n: nat)
    requires pid !in system.processes
    ensures var (w, p) := Solo(job, true, system.world, pid, Begin(command), n);
      Execute(job, system, RunOf(pid, command, n)) == System(w, system.processes[pid := p])
  {
    var start := [Start(pid, command)];
    var begun := Next(job, system, start[0]);
    assert start[..0] == [];
    assert Execute(job, system, start) == begun;
    ExecuteComposes(job, system, start, Calls(pid, n));
    CallsAreSolo(job, begun, pid, n);
    var p := Solo(job, true, system.world, pid, Begin(command), n).1;
    assert system.processes[pid := Begin(command)][pid := p] == system.processes[pid := p];
  }

  /** No process but `pid` holds a lock. */
  predicate OnlyHolder(w: World, pid: nat) {
    (w.exclusive == None || w.exclusive == Some(pid)) && w.shared <= {pid}
  }

  predicate Unlocked(w: World) {
    w.exclusive == None && w.shared == {}
  }

  /** What a process that runs alone keeps about the locks. */
  predicate LocksFollow(w: World, pid: nat, p: Process) {
    OnlyHolder(w, pid) && (p.Running? || Unlocked(w))
  }

  /** A process that runs alone leaves no lock behind. */
  lemma {:induction false} SoloUnlocks(job: Job, w: World, pid: nat, p: Process, n: nat)
    requires LocksFollow(w, pid, p)
    ensures var (w', p') := Solo(job, true, w, pid, p, n); LocksFollow(w', pid, p')
    decreases n
  {
    if n > 0 && p.Running? {
      if p.task.command.Copy? {
        CopyOwnsLocks(job, w, pid, p.task);
      } else {
        SwitchOwnsLocks(job, w, pid, p.task, true);
      }
      var (w1, p1) := ProcessStep(job, w, pid, p.task, true);
      SoloUnlocks(job, w1, pid, p1, n - 1);
    }
  }

  /** When every process has ended, however it ended, no lock is left. */
  lemma IdleIsUnlocked(job: Job, origin: Origin, system: System)
    requires Reachable(job, origin, system)
    requires forall pid :: pid in system.processes ==> !system.processes[pid].Running?
    ensures Unlocked(system.world)
  {
    var initial, events :| Initial(job, origin, initial) && system == Execute(job, initial, events);
    LocksDieWithOwners(job, origin, initial, events);
    assert system.world.shared == {};
  }

  /** Nothing that was in S3 before the migration sits under a target key with other content. */
  predicate NoConflict(job: Job, origin: Origin) {
    forall k :: 0 <= k < |job.records| && job.records[k].targetKey in origin.s3 ==>
      TargetVerified(job, origin.s3, job.records[k])
  }

  /** What an operator has to see to before a copy: sources, conflicting objects, locks, the checkpoint file. */
  ghost predicate CanCopy(job: Job, origin: Origin, w: World) {
    && PrefixSourced(job, |job.records|)
    && NoConflict(job, origin)
    && Unlocked(w)
    && OpenedForWriting(job, w.checkpoint).Ok?
  }

  /** In reachable stores no record stops a copy exactly when all sources are good and nothing conflicts. */
  lemma AllCopyable(job: Job, origin: Origin, w: World)
    requires FreshJob(job, origin) && Sound(job, origin, w)
    ensures PrefixSourced(job, |job.records|) && NoConflict(job, origin) <==>
      forall k :: 0 <= k < |job.records| ==> Copyable(job, w.s3, job.records[k])
  {
    forall k | 0 <= k < |job.records|
      ensures Copyable(job, w.s3, job.records[k]) <==>
        && SourceVerified(job, job.records[k])
        && (job.records[k].targetKey in origin.s3 ==> TargetVerified(job, origin.s3, job.records[k]))
    {
      PresentObjectIsOriginalOrVerified(job, origin, w, k);
    }
  }

  /** The stop of a copy is its end exactly when no record stops it. */
  lemma NoObstacle(job: Job, s3: Objects)
    ensures FirstObstacle(job, s3, 0, |job.records|) == |job.records| <==>
      forall k :: 0 <= k < |job.records| ==> Copyable(job, s3, job.records[k])
  {
  }

  /**
   * A full copy alone, from any reachable stores without a lock: it finishes exactly when it can, and
   * then it has uploaded exactly what was missing and everything is checkpointed and verified.
   */
  lemma CopyAloneFinishes(job: Job, origin: Origin, w: World, pid: nat) returns (n: nat)
    requires FreshJob(job, origin) && Sound(job, origin, w) && Unlocked(w)
    ensures var (w', p') := Solo(job, true, w, pid, Begin(Copy(true, None)), n);
      && !p'.Running?
      && (p'.Done? <==> CanCopy(job, origin, w))
      && (p'.Done? ==>
           && p'.task.counters.uploaded == AbsentTargets(job, w.s3, |job.records|)
           && w'.db == w.db && Unlocked(w') && BoundToJob(job, w'.checkpoint)
           && PrefixMarked(job, w'.checkpoint, |job.records|) && PrefixVerified(job, w'.s3, |job.records|))
  {
    RecordsKeyed(job, origin);
    AllCopyable(job, origin, w);
    NoObstacle(job, w.s3);
    n := UndisturbedCopyRefinesLoop(job, w, pid, Copy(true, None));
    SoloUnlocks(job, w, pid, Begin(Copy(true, None)), n);
    var (w', p') := Solo(job, true, w, pid, Begin(Copy(true, None)), n);
    var r := ResultOf(job, p');
    assert CopyOutcome(job, true, |job.records|, w.s3, w.checkpoint, r, w'.s3, w'.checkpoint);
    if p'.Done? {
      CompletedCopyPassesVerification(job, w.s3, w.checkpoint, r, w'.s3, w'.checkpoint);
    }
  }

  /** A cutover alone, after that: it finishes with the table moved. */
  lemma CutoverAloneFinishes(job: Job, origin: Origin, w: World, pid: nat) returns (n: nat)
    requires FreshJob(job, origin) && (w.db == origin.db || w.db == Moved(job, origin)) && w.exclusive == None
    requires BoundToJob(job, w.checkpoint)
    requires PrefixMarked(job, w.checkpoint, |job.records|) && PrefixVerified(job, w.s3, |job.records|)
    ensures var (w', p') := Solo(job, true, w, pid, Begin(Cutover(true)), n);
      p'.Done? && w'.db == Moved(job, origin)
  {
    n := UndisturbedCutoverRefinesLoop(job, true, w, pid, true);
    SwitchStaysReachable(job, origin, w.db, Target, true);
  }

  /**
   * From every reachable system in which no lock is held, with good sources, no conflicting object
   * and a checkpoint file that is not another manifest's, a copy and then a cutover, each undisturbed,
   * both finish. However often copies died before, the copy uploads exactly the objects still
   * missing, and in the end every row names an object with its content.
   */
  lemma MigrationCompletes(job: Job, origin: Origin, system: System, copier: nat, switcher: nat)
    returns (copy: seq<Event>, cutover: seq<Event>)
    requires Reachable(job, origin, system) && CanCopy(job, origin, system.world)
    requires copier !in system.processes && switcher !in system.processes && copier != switcher
    ensures var copied := Execute(job, system, copy);
      && copier in copied.processes && copied.processes[copier].Done?
      && copied.processes[copier].task.counters.uploaded == AbsentTargets(job, system.world.s3, |job.records|)
      && copied.world.db == system.world.db
      && var after := Execute(job, copied, cutover);
         && switcher in after.processes && after.processes[switcher].Done?
         && after.world.db == Moved(job, origin)
         && forall id :: id in after.world.db ==> NamesObject(job.hashes, after.world.s3, after.world.db[id])
  {
    ReachableIsSound(job, origin, system);
    var n := CopyAloneFinishes(job, origin, system.world, copier);
    copy := RunOf(copier, Copy(true, None), n);
    RunIsSolo(job, system, copier, Copy(true, None), n);
    var copied := Execute(job, system, copy);
    var m := CutoverAloneFinishes(job, origin, copied.world, switcher);
    cutover := RunOf(switcher, Cutover(true), m);
    RunIsSolo(job, copied, switcher, Cutover(true), m);
    ObjectsOnlyAccumulate(job, origin, system, copy);
    ObjectsOnlyAccumulate(job, origin, copied, cutover);
    var after := Execute(job, copied, cutover);
    ReachableTables(job, origin, after.world.db);
    assert forall k :: 0 <= k < |job.records| ==> TargetVerified(job, copied.world.s3, job.records[k]);
    VerifiedRowsNameObjects(job, origin, after.world.db, after.world.s3);
  }

  /** From every reachable system with good sources, an undisturbed rollback restores `file_contents`. */
  lemma MigrationRollsBack(job: Job, origin: Origin, system: System, pid: nat) returns (rollback: seq<Event>)
    requires Reachable(job, origin, system) && PrefixSourced(job, |job.records|) && pid !in system.processes
    ensures var after := Execute(job, system, rollback);
      pid in after.processes && after.processes[pid].Done? && after.world.db == origin.db
  {
    ReachableIsSound(job, origin, system);
    var n := UndisturbedRollbackRefinesLoop(job, true, system.world, pid, true);
    SwitchStaysReachable(job, origin, system.world.db, Source, true);
    rollback := RunOf(pid, Rollback(true), n);
    RunIsSolo(job, system, pid, Rollback(true), n);
  }
}
