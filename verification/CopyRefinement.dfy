/** An undisturbed copy process, store call by store call, does exactly what the loop does. */
module CopyRefinement {
  import opened Outcomes
  import opened MigrationTypes
  import opened DatabaseSwitch
  import opened Manifest
  import opened MigrationMachine
  import opened MigrationSafety
  import opened CopyBlobs

  /** `n` calls of one process with nobody else at work; `tableIsFree` matters to a path switch only. */
  function Solo(job: Job, tableIsFree: bool, w: World, pid: nat, p: Process, n: nat): (World, Process)
    decreases n
  {
    if n == 0 || !p.Running? then (w, p)
    else
      var (w', p') := ProcessStep(job, w, pid, p.task, tableIsFree);
      Solo(job, tableIsFree, w', pid, p', n - 1)
  }

  lemma {:induction false} SoloComposes(job: Job, tableIsFree: bool, w: World, pid: nat, p: Process, m: nat, n: nat)
    ensures var (w', p') := Solo(job, tableIsFree, w, pid, p, m);
      Solo(job, tableIsFree, w, pid, p, m + n) == Solo(job, tableIsFree, w', pid, p', n)
    decreases m
  {
    if m > 0 && p.Running? {
      var (w', p') := ProcessStep(job, w, pid, p.task, tableIsFree);
      SoloComposes(job, tableIsFree, w', pid, p', m - 1, n);
    }
  }

  /** The store calls one record takes. */
  function CallsFor(execute: bool, present: bool): nat {
    if execute then if present then 4 else 6 else if present then 3 else 2
  }

  /** World and task after a record that is no obstacle. */
  function WorldAfter(job: Job, w: World, record: Record, execute: bool): World
    requires Copyable(job, w.s3, record) && (execute ==> w.checkpoint.Bound?)
  {
    if !execute then w
    else w.(
      s3 := if record.targetKey in w.s3 then w.s3
            else w.s3[record.targetKey := SourceContent(job.files, record).value],
      checkpoint := w.checkpoint.(objects := w.checkpoint.objects[record.contentId := VerifiedRow(record)]))
  }

  function TaskAfter(w: World, t: Task, record: Record): Task
    requires t.command.Copy?
  {
    NextRecord(t).(counters :=
      if record.targetKey in w.s3 then t.counters.(reused := t.counters.reused + 1)
      else if t.command.execute then t.counters.(uploaded := t.counters.uploaded + 1)
      else t.counters.(wouldUpload := t.counters.wouldUpload + 1))
  }

  /** At the head of its loop, with a record still to handle. */
  predicate AtRecord(job: Job, w: World, t: Task) {
    && t.command.Copy? && t.stage == Loop && t.index < Capped(job, t.command)
    && (t.command.execute ==> w.checkpoint.Bound?)
  }

  /** The loop's two checks before it decides what to do with the record. */
  lemma SoloProbe(job: Job, w: World, pid: nat, t: Task)
    requires AtRecord(job, w, t) && Copyable(job, w.s3, job.records[t.index])
    ensures var present := job.records[t.index].targetKey in w.s3;
      Solo(job, true, w, pid, Running(t), 2) ==
        (w, Running(if present then t.(stage := Get)
                    else if t.command.execute then t.(stage := Put)
                    else TaskAfter(w, t, job.records[t.index])))
  {
    var headed := t.(stage := Head);
    assert ProcessStep(job, w, pid, t, true) == (w, Running(headed));
    var (w', p') := ProcessStep(job, w, pid, headed, true);
    assert Solo(job, true, w', pid, p', 0) == (w', p');
    assert Solo(job, true, w, pid, Running(headed), 1) == (w', p');
  }

  lemma SoloUpload(job: Job, w: World, pid: nat, t: Task)
    requires AtRecord(job, w, t.(stage := Loop)) && t.stage == Put && t.command.execute
    requires SourceVerified(job, job.records[t.index])
    ensures var record := job.records[t.index];
      var s3 := w.s3[record.targetKey := SourceContent(job.files, record).value];
      Solo(job, true, w, pid, Running(t), 3) ==
        (w.(s3 := s3), Running(t.(stage := Mark, counters := t.counters.(uploaded := t.counters.uploaded + 1))))
  {
    var record := job.records[t.index];
    var w1 := w.(s3 := w.s3[record.targetKey := SourceContent(job.files, record).value]);
    var t1, t2 := t.(stage := HeadAgain), t.(stage := GetAgain);
    assert ProcessStep(job, w, pid, t, true) == (w1, Running(t1));
    assert ProcessStep(job, w1, pid, t1, true) == (w1, Running(t2));
    var (w3, p3) := ProcessStep(job, w1, pid, t2, true);
    assert Solo(job, true, w3, pid, p3, 0) == (w3, p3);
    assert Solo(job, true, w1, pid, Running(t2), 1) == (w3, p3);
    assert Solo(job, true, w1, pid, Running(t1), 2) == (w3, p3);
  }

  lemma SoloReuse(job: Job, w: World, pid: nat, t: Task)
    requires AtRecord(job, w, t.(stage := Loop)) && t.stage == Get
    requires TargetVerified(job, w.s3, job.records[t.index])
    ensures var counted := t.(counters := t.counters.(reused := t.counters.reused + 1));
      Solo(job, true, w, pid, Running(t), 1) ==
        (w, Running(if t.command.execute then counted.(stage := Mark) else NextRecord(counted)))
  {
    var (w1, p1) := ProcessStep(job, w, pid, t, true);
    assert Solo(job, true, w1, pid, p1, 0) == (w1, p1);
  }

  lemma SoloMark(job: Job, w: World, pid: nat, t: Task)
    requires AtRecord(job, w, t.(stage := Loop)) && t.stage == Mark && w.checkpoint.Bound?
    ensures var record := job.records[t.index];
      Solo(job, true, w, pid, Running(t), 1) ==
        (w.(checkpoint := w.checkpoint.(objects := w.checkpoint.objects[record.contentId := VerifiedRow(record)])),
         Running(NextRecord(t)))
  {
    var (w1, p1) := ProcessStep(job, w, pid, t, true);
    assert Solo(job, true, w1, pid, p1, 0) == (w1, p1);
  }

  /** From the upload on. */
  lemma SoloUploaded(job: Job, w: World, pid: nat, t: Task)
    requires AtRecord(job, w, t) && t.command.execute
    requires Copyable(job, w.s3, job.records[t.index]) && job.records[t.index].targetKey !in w.s3
    ensures Solo(job, true, w, pid, Running(t.(stage := Put)), 4) ==
      (WorldAfter(job, w, job.records[t.index], true), Running(TaskAfter(w, t, job.records[t.index])))
  {
    var put := t.(stage := Put);
    SoloUpload(job, w, pid, put);
    var (w', p') := Solo(job, true, w, pid, Running(put), 3);
    SoloMark(job, w', pid, p'.task);
    SoloComposes(job, true, w, pid, Running(put), 3, 1);
  }

  /** From the download of an object that was there. */
  lemma SoloReused(job: Job, w: World, pid: nat, t: Task)
    requires AtRecord(job, w, t)
    requires Copyable(job, w.s3, job.records[t.index]) && job.records[t.index].targetKey in w.s3
    ensures Solo(job, true, w, pid, Running(t.(stage := Get)), if t.command.execute then 2 else 1) ==
      (WorldAfter(job, w, job.records[t.index], t.command.execute), Running(TaskAfter(w, t, job.records[t.index])))
  {
    var got := t.(stage := Get);
    SoloReuse(job, w, pid, got);
    if t.command.execute {
      var (w', p') := Solo(job, true, w, pid, Running(got), 1);
      SoloMark(job, w', pid, p'.task);
      SoloComposes(job, true, w, pid, Running(got), 1, 1);
    }
  }

  lemma SoloRecord(job: Job, w: World, pid: nat, t: Task)
    requires AtRecord(job, w, t) && Copyable(job, w.s3, job.records[t.index])
    ensures var record := job.records[t.index];
      Solo(job, true, w, pid, Running(t), CallsFor(t.command.execute, record.targetKey in w.s3)) ==
        (WorldAfter(job, w, record, t.command.execute), Running(TaskAfter(w, t, record)))
  {
    SoloProbe(job, w, pid, t);
    if job.records[t.index].targetKey in w.s3 {
      SoloReused(job, w, pid, t);
      SoloComposes(job, true, w, pid, Running(t), 2, if t.command.execute then 2 else 1);
    } else if t.command.execute {
      SoloUploaded(job, w, pid, t);
      SoloComposes(job, true, w, pid, Running(t), 2, 4);
    }
  }

  /** The first obstacle ends the process within three calls, with only its locks released. */
  lemma SoloObstacle(job: Job, w: World, pid: nat, t: Task) returns (n: nat)
    requires AtRecord(job, w, t) && !Copyable(job, w.s3, job.records[t.index])
    ensures var (w', p') := Solo(job, true, w, pid, Running(t), n);
      p'.Failed? && w' == Release(w, pid)
  {
    var record := job.records[t.index];
    var (w1, p1) := ProcessStep(job, w, pid, t, true);
    assert Solo(job, true, w1, pid, p1, 0) == (w1, p1);
    n := 1;
    if SourceVerified(job, record) {
      var (w2, p2) := ProcessStep(job, w, pid, t.(stage := Head), true);
      assert Solo(job, true, w2, pid, p2, 0) == (w2, p2);
      assert Solo(job, true, w1, pid, p1, 1) == (w2, p2);
      n := 2;
      if |w.s3[record.targetKey]| == record.size {
        var (w3, p3) := ProcessStep(job, w, pid, t.(stage := Get), true);
        assert Solo(job, true, w3, pid, p3, 0) == (w3, p3);
        assert Solo(job, true, w2, pid, p2, 1) == (w3, p3);
        assert Solo(job, true, w1, pid, p1, 2) == (w3, p3);
        n := 3;
      }
    }
  }

  function ResultOf(job: Job, p: Process): Result<Report, MigrationError>
    requires p.Failed? || (p.Done? && p.task.index <= |job.records|)
  {
    match p
    case Done(t) => Ok(Report(
      t.index, t.counters.uploaded, t.counters.reused, t.counters.wouldUpload, |job.records| - t.index))
    case Failed(_, e) => Fail(e)
  }

  /** How a copy that began its loop on `s0` and `c0` ends. */
  ghost predicate SoloEnds(job: Job, command: Command, s0: Objects, c0: Checkpoint, w: World, w': World, p': Process)
    requires command.Copy? && (command.execute ==> c0.Bound?)
  {
    var limit := Capped(job, command);
    var stop := FirstObstacle(job, s0, 0, limit);
    && w'.db == w.db
    && w'.s3 == (if command.execute then AfterCopy(job, s0, stop) else s0)
    && w'.checkpoint == (if command.execute then c0.(objects := AfterMarks(job, c0.objects, stop)) else c0)
    && (p'.Done? <==> stop == limit) && (p'.Failed? <==> stop < limit)
    && (p'.Done? ==>
         && p'.task.index == limit
         && Progress(job, command.execute, s0, c0, limit, w'.s3, w'.checkpoint, p'.task.counters))
  }

  /** What holds at the head of every turn. */
  ghost predicate SoloTurn(job: Job, s0: Objects, c0: Checkpoint, w: World, t: Task) {
    && t.command.Copy? && t.stage == Loop && t.index <= Capped(job, t.command)
    && (t.command.execute ==> c0.Bound?)
    && (forall k :: 0 <= k < t.index ==> Copyable(job, s0, job.records[k]))
    && Progress(job, t.command.execute, s0, c0, t.index, w.s3, w.checkpoint, t.counters)
  }

  lemma SoloStops(job: Job, s0: Objects, c0: Checkpoint, w: World, pid: nat, t: Task) returns (n: nat)
    requires KeyedOnce(job.records) && SoloTurn(job, s0, c0, w, t)
    requires t.index < Capped(job, t.command) && !Copyable(job, w.s3, job.records[t.index])
    ensures var (w', p') := Solo(job, true, w, pid, Running(t), n); SoloEnds(job, t.command, s0, c0, w, w', p')
  {
    LaterKeysUntouched(job, s0, t.index, t.index);
    n := SoloObstacle(job, w, pid, t);
    ObstacleLater(job, s0, 0, t.index, Capped(job, t.command));
  }

  lemma SoloClose(job: Job, w: World, pid: nat, t: Task)
    requires t.command.Copy? && t.stage == Loop && t.index == Capped(job, t.command)
    ensures Solo(job, true, w, pid, Running(t), 2) == (Release(w, pid), Done(t.(stage := Close)))
  {
    var closing := t.(stage := Close);
    assert ProcessStep(job, w, pid, t, true) == (w, Running(closing));
    var (w2, p2) := ProcessStep(job, w, pid, closing, true);
    assert Solo(job, true, w2, pid, p2, 0) == (w2, p2);
    assert Solo(job, true, w, pid, Running(closing), 1) == (w2, p2);
  }

  lemma SoloFinishes(job: Job, s0: Objects, c0: Checkpoint, w: World, pid: nat, t: Task) returns (n: nat)
    requires SoloTurn(job, s0, c0, w, t) && t.index == Capped(job, t.command)
    ensures var (w', p') := Solo(job, true, w, pid, Running(t), n); SoloEnds(job, t.command, s0, c0, w, w', p')
  {
    ObstacleLater(job, s0, 0, t.index, t.index);
    SoloClose(job, w, pid, t);
    n := 2;
  }

  lemma SoloTurns(job: Job, s0: Objects, c0: Checkpoint, w: World, pid: nat, t: Task)
    requires KeyedOnce(job.records) && SoloTurn(job, s0, c0, w, t)
    requires t.index < Capped(job, t.command) && Copyable(job, w.s3, job.records[t.index])
    ensures var record := job.records[t.index];
      SoloTurn(job, s0, c0, WorldAfter(job, w, record, t.command.execute), TaskAfter(w, t, record))
  {
    var record := job.records[t.index];
    var w', t' := WorldAfter(job, w, record, t.command.execute), TaskAfter(w, t, record);
    ProgressStep(job, t.command.execute, s0, c0, t.index, w.s3, w.checkpoint, t.counters,
                 w'.s3, w'.checkpoint, t'.counters);
  }

  /** The loop's remaining turns. */
  lemma {:induction false} SoloLoop(job: Job, s0: Objects, c0: Checkpoint, w: World, pid: nat, t: Task)
    returns (n: nat)
    requires KeyedOnce(job.records) && SoloTurn(job, s0, c0, w, t)
    ensures var (w', p') := Solo(job, true, w, pid, Running(t), n); SoloEnds(job, t.command, s0, c0, w, w', p')
    decreases |job.records| - t.index
  {
    var limit := Capped(job, t.command);
    if t.index == limit {
      n := SoloFinishes(job, s0, c0, w, pid, t);
    } else if Copyable(job, w.s3, job.records[t.index]) {
      var record := job.records[t.index];
      SoloRecord(job, w, pid, t);
      SoloTurns(job, s0, c0, w, pid, t);
      var calls := CallsFor(t.command.execute, record.targetKey in w.s3);
      var (w', p') := Solo(job, true, w, pid, Running(t), calls);
      var rest := SoloLoop(job, s0, c0, w', pid, p'.task);
      SoloComposes(job, true, w, pid, Running(t), calls, rest);
      n := calls + rest;
    } else {
      n := SoloStops(job, s0, c0, w, pid, t);
    }
  }

  /** Opening the checkpoint, when nobody holds it. */
  lemma SoloOpen(job: Job, w: World, pid: nat, t: Task) returns (n: nat)
    requires t.command.Copy? && t.stage == Open && w.exclusive == None && w.shared == {}
    ensures var (w', p') := Solo(job, true, w, pid, Running(t), n);
      var bound := OpenedForWriting(job, w.checkpoint);
      if t.command.execute && bound.Fail?
      then p' == Failed(t.command, CheckpointInvalid) && w'.db == w.db && w'.s3 == w.s3 && w'.checkpoint == w.checkpoint
      else p' == Running(t.(stage := Loop)) && w'.db == w.db && w'.s3 == w.s3
           && w'.checkpoint == if t.command.execute then bound.value else w.checkpoint
  {
    var (w1, p1) := ProcessStep(job, w, pid, t, true);
    assert Solo(job, true, w1, pid, p1, 0) == (w1, p1);
    n := 1;
    if t.command.execute {
      var (w2, p2) := ProcessStep(job, w1, pid, p1.task, true);
      assert Solo(job, true, w2, pid, p2, 0) == (w2, p2);
      assert Solo(job, true, w1, pid, p1, 1) == (w2, p2);
      n := 2;
    }
  }

  /** From its start to its end, an undisturbed copy has exactly the outcome `CopyBlobs` states. */
  lemma UndisturbedCopyRefinesLoop(job: Job, w: World, pid: nat, command: Command) returns (n: nat)
    requires KeyedOnce(job.records) && command.Copy? && w.exclusive == None && w.shared == {}
    ensures var (w', p') := Solo(job, true, w, pid, Begin(command), n);
      && w'.db == w.db
      && (p'.Failed? || (p'.Done? && p'.task.index <= |job.records|))
      && CopyOutcome(job, command.execute, Capped(job, command), w.s3, w.checkpoint,
                     ResultOf(job, p'), w'.s3, w'.checkpoint)
  {
    var t := Begin(command).task;
    n := SoloOpen(job, w, pid, t);
    var (w1, p1) := Solo(job, true, w, pid, Running(t), n);
    if p1.Running? {
      assert Progress(job, command.execute, w.s3, w1.checkpoint, 0, w1.s3, w1.checkpoint, Counters(0, 0, 0));
      var rest := SoloLoop(job, w.s3, w1.checkpoint, w1, pid, p1.task);
      SoloComposes(job, true, w, pid, Running(t), n, rest);
      n := n + rest;
    }
  }
}
