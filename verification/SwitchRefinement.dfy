/** A cutover or rollback process, store call by store call, does exactly what its loop does. */
module SwitchRefinement {
  import opened Outcomes
  import opened MigrationTypes
  import opened DatabaseSwitch
  import opened MigrationMachine
  import opened MigrationSafety
  import opened CopyBlobs
  import opened CopyRefinement

  /** One call of a process that is running. */
  lemma SoloCall(job: Job, tableIsFree: bool, w: World, pid: nat, t: Task, n: nat)
    requires n > 0
    ensures var (w', p') := ProcessStep(job, w, pid, t, tableIsFree);
      Solo(job, tableIsFree, w, pid, Running(t), n) == Solo(job, tableIsFree, w', pid, p', n - 1)
  {
  }

  function SwitchResult(p: Process): Result<(DbState, nat), MigrationError>
    requires p.Failed? || (p.Done? && p.task.outcome.Some?)
  {
    match p
    case Done(t) => Ok(t.outcome.value)
    case Failed(_, e) => Fail(e)
  }

  /** How a cutover or rollback that reached its transaction ends, and what the transaction did. */
  ghost predicate SwitchEnds(job: Job, tableIsFree: bool, w: World, t: Task, w': World, p': Process) {
    var desired := if t.command.Cutover? then Target else Source;
    && w'.s3 == w.s3 && w'.checkpoint == w.checkpoint
    && (p'.Failed? || (p'.Done? && p'.task.outcome.Some?))
    && (if tableIsFree
        then
          (SwitchResult(p'), w'.db) ==
            Switched(w.db, TableOf(job.records), |job.records|, desired, t.command.execute)
        else p'.Failed? && w'.db == w.db)
  }

  /** A process that has failed with the stores left alone. */
  ghost predicate GivesUp(w: World, w': World, p': Process) {
    p'.Failed? && SameStores(w, w')
  }

  /** From the transaction on: it, then the end of the process. */
  lemma SoloSwitch(job: Job, tableIsFree: bool, w: World, pid: nat, t: Task)
    requires !t.command.Copy? && t.stage == Switch
    ensures var (w', p') := Solo(job, tableIsFree, w, pid, Running(t), 2);
      SwitchEnds(job, tableIsFree, w, t, w', p')
  {
    var desired := if t.command.Cutover? then Target else Source;
    var (w1, p1) := SwitchStep(job, w, pid, t, desired, tableIsFree);
    assert ProcessStep(job, w, pid, t, tableIsFree) == (w1, p1);
    SoloCall(job, tableIsFree, w, pid, t, 2);
    if p1.Running? {
      SoloCall(job, tableIsFree, w1, pid, p1.task, 1);
    }
  }

  /** Every record is checkpointed, and its object is its content: what cutover's loop goes through. */
  predicate Cleared(job: Job, w: World, record: Record) {
    Marked(w.checkpoint, record) && TargetVerified(job, w.s3, record)
  }

  /** The three calls of cutover's loop for one record, as far as they go. */
  lemma SoloClear(job: Job, tableIsFree: bool, w: World, pid: nat, t: Task) returns (n: nat)
    requires t.command.Cutover? && t.stage == Loop && t.index < |job.records|
    ensures var (w', p') := Solo(job, tableIsFree, w, pid, Running(t), n);
      if Cleared(job, w, job.records[t.index]) then (w', p') == (w, Running(NextRecord(t)))
      else GivesUp(w, w', p')
  {
    var record := job.records[t.index];
    n := 3;
    SoloCall(job, tableIsFree, w, pid, t, 3);
    if Marked(w.checkpoint, record) {
      var headed := t.(stage := Head);
      SoloCall(job, tableIsFree, w, pid, headed, 2);
      if record.targetKey in w.s3 && |w.s3[record.targetKey]| == record.size {
        SoloCall(job, tableIsFree, w, pid, t.(stage := Get), 1);
      }
    }
  }

  ghost predicate ClearedFrom(job: Job, w: World, i: nat) {
    forall k :: i <= k < |job.records| ==> Cleared(job, w, job.records[k])
  }

  /** Cutover's loop from record `t.index` on. */
  lemma {:induction false} SoloClearing(job: Job, tableIsFree: bool, w: World, pid: nat, t: Task) returns (n: nat)
    requires t.command.Cutover? && t.stage == Loop && t.index <= |job.records|
    ensures var (w', p') := Solo(job, tableIsFree, w, pid, Running(t), n);
      if ClearedFrom(job, w, t.index) then SwitchEnds(job, tableIsFree, w, t, w', p') else GivesUp(w, w', p')
    decreases |job.records| - t.index
  {
    if t.index == |job.records| {
      SoloCall(job, tableIsFree, w, pid, t, 3);
      SoloSwitch(job, tableIsFree, w, pid, t.(stage := Switch));
      n := 3;
    } else {
      n := SoloClear(job, tableIsFree, w, pid, t);
      if Cleared(job, w, job.records[t.index]) {
        assert ClearedFrom(job, w, t.index) <==> ClearedFrom(job, w, t.index + 1);
        var rest := SoloClearing(job, tableIsFree, w, pid, NextRecord(t));
        SoloComposes(job, tableIsFree, w, pid, Running(t), n, rest);
        n := n + rest;
      }
    }
  }

  /** Opening the checkpoint for reading, when no copy holds it. */
  lemma SoloOpenForReading(job: Job, tableIsFree: bool, w: World, pid: nat, t: Task)
    requires t.command.Cutover? && t.stage == Open && w.exclusive == None
    ensures var (w', p') := Solo(job, tableIsFree, w, pid, Running(t), 2);
      if BoundToJob(job, w.checkpoint)
      then (w', p') == (w.(shared := w.shared + {pid}), Running(t.(stage := Loop)))
      else GivesUp(w, w', p')
  {
    SoloCall(job, tableIsFree, w, pid, t, 2);
    if w.checkpoint != Absent {
      SoloCall(job, tableIsFree, w.(shared := w.shared + {pid}), pid, t.(stage := Bind), 1);
    }
  }

  /** From its start to its end, an undisturbed cutover has exactly the outcome `Stores.Cutover` states. */
  lemma UndisturbedCutoverRefinesLoop(job: Job, tableIsFree: bool, w: World, pid: nat, execute: bool)
    returns (n: nat)
    requires w.exclusive == None
    ensures var (w', p') := Solo(job, tableIsFree, w, pid, Begin(Cutover(execute)), n);
      && w'.s3 == w.s3 && w'.checkpoint == w.checkpoint
      && (p'.Failed? || (p'.Done? && p'.task.outcome.Some?))
      && CutoverOutcome(job, w.s3, w.checkpoint, execute, tableIsFree, w.db, SwitchResult(p'), w'.db)
  {
    var p := Begin(Cutover(execute));
    SoloOpenForReading(job, tableIsFree, w, pid, p.task);
    n := 2;
    if BoundToJob(job, w.checkpoint) {
      var w1, t1 := w.(shared := w.shared + {pid}), p.task.(stage := Loop);
      var rest := SoloClearing(job, tableIsFree, w1, pid, t1);
      SoloComposes(job, tableIsFree, w, pid, p, 2, rest);
      n := 2 + rest;
      assert ClearedFrom(job, w1, 0) <==>
        PrefixMarked(job, w.checkpoint, |job.records|) && PrefixVerified(job, w.s3, |job.records|);
    }
  }

  ghost predicate SourcedFrom(job: Job, i: nat) {
    forall k :: i <= k < |job.records| ==> SourceVerified(job, job.records[k])
  }

  /** The one call of rollback's loop for one record. */
  lemma SoloSource(job: Job, tableIsFree: bool, w: World, pid: nat, t: Task)
    requires t.command.Rollback? && t.stage == Loop && t.index < |job.records|
    ensures var (w', p') := Solo(job, tableIsFree, w, pid, Running(t), 1);
      if SourceVerified(job, job.records[t.index]) then (w', p') == (w, Running(NextRecord(t)))
      else GivesUp(w, w', p')
  {
    SoloCall(job, tableIsFree, w, pid, t, 1);
  }

  /** Rollback's loop from record `t.index` on. */
  lemma {:induction false} SoloSourcing(job: Job, tableIsFree: bool, w: World, pid: nat, t: Task) returns (n: nat)
    requires t.command.Rollback? && t.stage == Loop && t.index <= |job.records|
    ensures var (w', p') := Solo(job, tableIsFree, w, pid, Running(t), n);
      if SourcedFrom(job, t.index) then SwitchEnds(job, tableIsFree, w, t, w', p') else GivesUp(w, w', p')
    decreases |job.records| - t.index
  {
    if t.index == |job.records| {
      SoloCall(job, tableIsFree, w, pid, t, 3);
      SoloSwitch(job, tableIsFree, w, pid, t.(stage := Switch));
      n := 3;
    } else {
      n := 1;
      SoloSource(job, tableIsFree, w, pid, t);
      if SourceVerified(job, job.records[t.index]) {
        assert SourcedFrom(job, t.index) <==> SourcedFrom(job, t.index + 1);
        var rest := SoloSourcing(job, tableIsFree, w, pid, NextRecord(t));
        SoloComposes(job, tableIsFree, w, pid, Running(t), n, rest);
        n := n + rest;
      }
    }
  }

  /** From its start to its end, an undisturbed rollback has exactly the outcome `RollbackPaths` states. */
  lemma UndisturbedRollbackRefinesLoop(job: Job, tableIsFree: bool, w: World, pid: nat, execute: bool)
    returns (n: nat)
    ensures var (w', p') := Solo(job, tableIsFree, w, pid, Begin(Rollback(execute)), n);
      && w'.s3 == w.s3 && w'.checkpoint == w.checkpoint
      && (p'.Failed? || (p'.Done? && p'.task.outcome.Some?))
      && RollbackOutcome(job, execute, tableIsFree, w.db, SwitchResult(p'), w'.db)
  {
    var p := Begin(Rollback(execute));
    SoloCall(job, tableIsFree, w, pid, p.task, 1);
    var rest := SoloSourcing(job, tableIsFree, w, pid, p.task.(stage := Loop));
    SoloCall(job, tableIsFree, w, pid, p.task, 1 + rest);
    n := 1 + rest;
  }
}
