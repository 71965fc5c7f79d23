/** The commands as the tool runs them, one at a time, on shared stores. */
module CopyBlobs {
  import opened Blobs
  import opened Outcomes
  import opened MigrationTypes
  import opened DatabaseSwitch
  import opened Manifest
  import opened MigrationMachine
  import opened MigrationSafety

  datatype Report = Report(processed: nat, uploaded: nat, reused: nat, wouldUpload: nat, remaining: nat)

  type Objects = map<string, Bytes>

  /** The record's source is good, and an object already under its key is its content. */
  predicate Copyable(job: Job, s3: Objects, record: Record) {
    SourceVerified(job, record) && (record.targetKey in s3 ==> TargetVerified(job, s3, record))
  }

  ghost predicate PrefixCopyable(job: Job, s3: Objects, n: nat) {
    n <= |job.records| && forall k :: 0 <= k < n ==> Copyable(job, s3, job.records[k])
  }

  /** The first record, from `from` on and before `limit`, that stops a copy; `limit` if none does. */
  function FirstObstacle(job: Job, s3: Objects, from: nat, limit: nat): (stop: nat)
    requires from <= limit <= |job.records|
    ensures from <= stop <= limit
    ensures forall k :: from <= k < stop ==> Copyable(job, s3, job.records[k])
    ensures stop < limit ==> !Copyable(job, s3, job.records[stop])
    decreases limit - from
  {
    if from == limit || !Copyable(job, s3, job.records[from]) then from
    else FirstObstacle(job, s3, from + 1, limit)
  }

  /** S3 once the first `n` records have been copied. */
  function AfterCopy(job: Job, s3: Objects, n: nat): Objects
    requires n <= |job.records|
  {
    if n == 0 then s3
    else
      var before := AfterCopy(job, s3, n - 1);
      var record := job.records[n - 1];
      if record.targetKey in before || SourceContent(job.files, record).Fail? then before
      else before[record.targetKey := SourceContent(job.files, record).value]
  }

  /** How many of the first `n` records have no object yet. */
  function AbsentTargets(job: Job, s3: Objects, n: nat): (count: nat)
    requires n <= |job.records|
    ensures count <= n
  {
    if n == 0 then 0
    else AbsentTargets(job, s3, n - 1) + if job.records[n - 1].targetKey in s3 then 0 else 1
  }

  /** The checkpoint's table once the first `n` records have been recorded. */
  function AfterMarks(job: Job, objects: map<int, Verified>, n: nat): map<int, Verified>
    requires n <= |job.records|
  {
    if n == 0 then objects
    else AfterMarks(job, objects, n - 1)[job.records[n - 1].contentId := VerifiedRow(job.records[n - 1])]
  }

  /** Opening for writing binds a fresh checkpoint, and refuses one bound to another manifest. */
  function OpenedForWriting(job: Job, checkpoint: Checkpoint): Result<Checkpoint, MigrationError> {
    if checkpoint.Bound? && checkpoint.meta != job.meta then Fail(CheckpointInvalid)
    else if checkpoint.Bound? then Ok(checkpoint)
    else Ok(Bound(job.meta, map[]))
  }

  /** What a copy leaves behind: everything before its first obstacle, and nothing after. */
  ghost predicate CopyOutcome(job: Job, execute: bool, limit: nat, s3: Objects, checkpoint: Checkpoint,
                              r: Result<Report, MigrationError>, s3': Objects, checkpoint': Checkpoint)
    requires limit <= |job.records|
  {
    var bound := OpenedForWriting(job, checkpoint);
    var stop := FirstObstacle(job, s3, 0, limit);
    var absent := AbsentTargets(job, s3, limit);
    if execute && bound.Fail? then r == Fail(CheckpointInvalid) && s3' == s3 && checkpoint' == checkpoint
    else
      && (r.Ok? <==> stop == limit)
      && (r.Ok? ==> r.value == Report(
           limit, if execute then absent else 0, limit - absent, if execute then 0 else absent,
           |job.records| - limit))
      && s3' == (if execute then AfterCopy(job, s3, stop) else s3)
      && checkpoint' == (if execute
           then bound.value.(objects := AfterMarks(job, bound.value.objects, stop))
           else checkpoint)
  }

  /** Where the loop stands after `n` records, none of which was an obstacle. */
  ghost predicate Progress(job: Job, execute: bool, s0: Objects, c0: Checkpoint, n: nat,
                           s3: Objects, checkpoint: Checkpoint, counters: Counters)
    requires n <= |job.records| && (execute ==> c0.Bound?)
  {
    && s3 == (if execute then AfterCopy(job, s0, n) else s0)
    && checkpoint == (if execute then c0.(objects := AfterMarks(job, c0.objects, n)) else c0)
    && counters.uploaded == (if execute then AbsentTargets(job, s0, n) else 0)
    && counters.wouldUpload == (if execute then 0 else AbsentTargets(job, s0, n))
    && counters.reused == n - AbsentTargets(job, s0, n)
  }

  /** Copying earlier records leaves a later record's key as it was. */
  lemma {:induction false} LaterKeysUntouched(job: Job, s3: Objects, n: nat, k: nat)
    requires KeyedOnce(job.records) && n <= k < |job.records|
    ensures var key := job.records[k].targetKey;
      && (key in AfterCopy(job, s3, n) <==> key in s3)
      && (key in s3 ==> AfterCopy(job, s3, n)[key] == s3[key])
  {
    if n > 0 {
      LaterKeysUntouched(job, s3, n - 1, k);
    }
  }

  /** What the loop's body does to S3 and the checkpoint for one record, as `CopyRecord` states it. */
  lemma ProgressStep(job: Job, execute: bool, s0: Objects, c0: Checkpoint, n: nat,
                     s3: Objects, checkpoint: Checkpoint, counters: Counters,
                     s3': Objects, checkpoint': Checkpoint, counters': Counters)
    requires KeyedOnce(job.records) && n < |job.records| && (execute ==> c0.Bound?)
    requires Progress(job, execute, s0, c0, n, s3, checkpoint, counters)
    requires var record := job.records[n];
      && Copyable(job, s3, record)
      && s3' == (if execute && record.targetKey !in s3
           then s3[record.targetKey := SourceContent(job.files, record).value] else s3)
      && checkpoint' == (if execute
           then checkpoint.(objects := checkpoint.objects[record.contentId := VerifiedRow(record)])
           else checkpoint)
      && counters' == if record.targetKey in s3 then counters.(reused := counters.reused + 1)
           else if execute then counters.(uploaded := counters.uploaded + 1)
           else counters.(wouldUpload := counters.wouldUpload + 1)
    ensures Copyable(job, s0, job.records[n])
    ensures Progress(job, execute, s0, c0, n + 1, s3', checkpoint', counters')
  {
    LaterKeysUntouched(job, s0, n, n);
  }

  /** No record before `n` stops the copy, so the first obstacle is the first one from `n` on. */
  lemma {:induction false} ObstacleLater(job: Job, s3: Objects, from: nat, n: nat, limit: nat)
    requires from <= n <= limit <= |job.records|
    requires forall k :: from <= k < n ==> Copyable(job, s3, job.records[k])
    ensures FirstObstacle(job, s3, from, limit) == FirstObstacle(job, s3, n, limit)
    decreases n - from
  {
    if from < n {
      ObstacleLater(job, s3, from + 1, n, limit);
    }
  }

  /** A cutover switches exactly when every record is checkpointed, every object verified and the table free. */
  ghost predicate CutoverOutcome(job: Job, s3: Objects, checkpoint: Checkpoint, execute: bool, tableIsFree: bool,
                                 db: Db, r: Result<(DbState, nat), MigrationError>, db': Db)
  {
    var verified := BoundToJob(job, checkpoint) && tableIsFree
      && PrefixMarked(job, checkpoint, |job.records|) && PrefixVerified(job, s3, |job.records|);
    if verified then (r, db') == Switched(db, TableOf(job.records), |job.records|, Target, execute)
    else r.Fail? && db' == db
  }

  /** A rollback switches back exactly when every source is verified and the table free. */
  ghost predicate RollbackOutcome(job: Job, execute: bool, tableIsFree: bool,
                                  db: Db, r: Result<(DbState, nat), MigrationError>, db': Db)
  {
    if PrefixSourced(job, |job.records|) && tableIsFree
    then (r, db') == Switched(db, TableOf(job.records), |job.records|, Source, execute)
    else r.Fail? && db' == db
  }

  /** The loop ends after `n` records: at its limit, or at the first obstacle. */
  lemma LoopEnds(job: Job, execute: bool, limit: nat, s0: Objects, checkpoint: Checkpoint, c0: Checkpoint, n: nat,
                 r: Result<Report, MigrationError>, s3': Objects, checkpoint': Checkpoint, counters: Counters)
    requires KeyedOnce(job.records) && n <= limit <= |job.records|
    requires if execute then OpenedForWriting(job, checkpoint) == Ok(c0) else c0 == checkpoint
    requires execute ==> c0.Bound?
    requires Progress(job, execute, s0, c0, n, s3', checkpoint', counters)
    requires forall k :: 0 <= k < n ==> Copyable(job, s0, job.records[k])
    requires if n < limit then r.Fail? && !Copyable(job, s3', job.records[n])
      else r == Ok(Report(n, counters.uploaded, counters.reused, counters.wouldUpload, |job.records| - n))
    ensures CopyOutcome(job, execute, limit, s0, checkpoint, r, s3', checkpoint')
  {
    if n < limit {
      LaterKeysUntouched(job, s0, n, n);
    }
    ObstacleLater(job, s0, 0, n, limit);
  }

  lemma {:induction false} LaterMarksUntouched(job: Job, objects: map<int, Verified>, n: nat, k: nat)
    requires KeyedOnce(job.records) && n <= k < |job.records|
    ensures var id := job.records[k].contentId;
      && (id in AfterMarks(job, objects, n) <==> id in objects)
      && (id in objects ==> AfterMarks(job, objects, n)[id] == objects[id])
  {
    if n > 0 {
      LaterMarksUntouched(job, objects, n - 1, k);
    }
  }

  function EntriesOf(checkpoint: Checkpoint): map<int, Verified> {
    if checkpoint.Bound? then checkpoint.objects else map[]
  }

  /** Neither S3 nor the checkpoint has changed for this record. */
  predicate RecordUntouched(record: Record, s3: Objects, checkpoint: Checkpoint,
                            s3': Objects, checkpoint': Checkpoint)
  {
    var entries, entries' := EntriesOf(checkpoint), EntriesOf(checkpoint');
    && (record.targetKey in s3' <==> record.targetKey in s3)
    && (record.targetKey in s3 ==> s3'[record.targetKey] == s3[record.targetKey])
    && (record.contentId in entries' <==> record.contentId in entries)
    && (record.contentId in entries ==> entries'[record.contentId] == entries[record.contentId])
  }

  /** The report's numbers, and that nothing at or beyond the cap is touched, whether the copy succeeds or not. */
  ghost predicate CapHonoured(job: Job, cap: Option<nat>, s3: Objects, checkpoint: Checkpoint,
                              r: Result<Report, MigrationError>, s3': Objects, checkpoint': Checkpoint)
  {
    && (r.Ok? ==>
         && StopsAtCap(|job.records|, cap, r.value.processed)
         && r.value.uploaded + r.value.reused + r.value.wouldUpload == r.value.processed
         && r.value.processed + r.value.remaining == |job.records|)
    && (cap.Some? ==> forall k :: cap.value <= k < |job.records| ==>
         RecordUntouched(job.records[k], s3, checkpoint, s3', checkpoint'))
  }

  lemma CapIsHonoured(job: Job, execute: bool, cap: Option<nat>, s3: Objects, checkpoint: Checkpoint,
                      r: Result<Report, MigrationError>, s3': Objects, checkpoint': Checkpoint)
    requires KeyedOnce(job.records)
    requires CopyOutcome(job, execute, Capped(job, Copy(execute, cap)), s3, checkpoint, r, s3', checkpoint')
    ensures CapHonoured(job, cap, s3, checkpoint, r, s3', checkpoint')
  {
    var limit := Capped(job, Copy(execute, cap));
    var bound, stop := OpenedForWriting(job, checkpoint), FirstObstacle(job, s3, 0, limit);
    if cap.Some? && execute && bound.Ok? {
      forall k | cap.value <= k < |job.records|
        ensures RecordUntouched(job.records[k], s3, checkpoint, s3', checkpoint')
      {
        LaterKeysUntouched(job, s3, stop, k);
        LaterMarksUntouched(job, bound.value.objects, stop, k);
      }
    }
  }

  /** S3 and the checkpoint, as one process sees them. */
  class Stores {
    var s3: Objects
    var checkpoint: Checkpoint

    /** Whether the key holds the record's content; an object with other content is an error. */
    method VerifyTarget(job: Job, record: Record) returns (r: Result<bool, MigrationError>)
      ensures r.Ok? <==> (record.targetKey in s3 ==> TargetVerified(job, s3, record))
      ensures r.Ok? ==> (r.value <==> record.targetKey in s3)
    {
      if record.targetKey !in s3 {
        return Ok(false);
      }
      if |s3[record.targetKey]| != record.size {
        return Fail(TargetSizeMismatch);
      }
      if !ContentMatches(job.hashes, record, s3[record.targetKey]) {
        return Fail(HashMismatch);
      }
      return Ok(true);
    }

    method RecordVerified(record: Record)
      requires checkpoint.Bound?
      modifies this`checkpoint
      ensures checkpoint ==
        old(checkpoint).(objects := old(checkpoint).objects[record.contentId := VerifiedRow(record)])
    {
      checkpoint := checkpoint.(objects := checkpoint.objects[record.contentId := VerifiedRow(record)]);
    }

    /** The loop's body for one record: whether its object was already there. */
    method CopyRecord(job: Job, record: Record, execute: bool) returns (r: Result<bool, MigrationError>)
      requires execute ==> checkpoint.Bound?
      modifies this
      ensures r.Ok? <==> Copyable(job, old(s3), record)
      ensures r.Ok? ==> (r.value <==> record.targetKey in old(s3))
      ensures s3 == if r.Ok? && execute && !r.value
        then old(s3)[record.targetKey := SourceContent(job.files, record).value] else old(s3)
      ensures checkpoint == if r.Ok? && execute
        then old(checkpoint).(objects := old(checkpoint).objects[record.contentId := VerifiedRow(record)])
        else old(checkpoint)
    {
      var source := SourceContent(job.files, record);
      if source.Fail? {
        return Fail(source.error);
      }
      if !ContentMatches(job.hashes, record, source.value) {
        return Fail(HashMismatch);
      }
      var target := VerifyTarget(job, record);
      if target.Fail? {
        return Fail(target.error);
      }
      var present := target.value;
      if !present {
        if !execute {
          return Ok(false);
        }
        s3 := s3[record.targetKey := source.value];
        target := VerifyTarget(job, record);
        assert target == Ok(true);
      }
      if execute {
        RecordVerified(record);
      }
      return Ok(present);
    }

    method CopyBlobs(job: Job, execute: bool, cap: Option<nat>) returns (r: Result<Report, MigrationError>)
      requires KeyedOnce(job.records)
      modifies this
      ensures CopyOutcome(job, execute, Capped(job, Copy(execute, cap)), old(s3), old(checkpoint), r, s3, checkpoint)
      ensures CapHonoured(job, cap, old(s3), old(checkpoint), r, s3, checkpoint)
    {
      ghost var limit := Capped(job, Copy(execute, cap));
      ghost var s0 := s3;
      if execute {
        var bound := OpenedForWriting(job, checkpoint);
        if bound.Fail? {
          r := Fail(bound.error);
          CapIsHonoured(job, execute, cap, s3, checkpoint, r, s3, checkpoint);
          return;
        }
        checkpoint := bound.value;
      }
      ghost var c0 := checkpoint;
      var counters, processed := Counters(0, 0, 0), 0;
      while processed < |job.records| && (cap.None? || processed < cap.value)
        invariant 0 <= processed <= limit
        invariant forall k :: 0 <= k < processed ==> Copyable(job, s0, job.records[k])
        invariant Progress(job, execute, s0, c0, processed, s3, checkpoint, counters)
      {
        ghost var s, c, before := s3, checkpoint, counters;
        var copied := CopyRecord(job, job.records[processed], execute);
        if copied.Fail? {
          r := Fail(copied.error);
          LoopEnds(job, execute, limit, s0, old(checkpoint), c0, processed, r, s3, checkpoint, counters);
          CapIsHonoured(job, execute, cap, s0, old(checkpoint), r, s3, checkpoint);
          return;
        }
        if copied.value {
          counters := counters.(reused := counters.reused + 1);
        } else if execute {
          counters := counters.(uploaded := counters.uploaded + 1);
        } else {
          counters := counters.(wouldUpload := counters.wouldUpload + 1);
        }
        ProgressStep(job, execute, s0, c0, processed, s, c, before, s3, checkpoint, counters);
        processed := processed + 1;
      }
      r := Ok(Report(
        processed, counters.uploaded, counters.reused, counters.wouldUpload, |job.records| - processed));
      LoopEnds(job, execute, limit, s0, old(checkpoint), c0, processed, r, s3, checkpoint, counters);
      CapIsHonoured(job, execute, cap, s0, old(checkpoint), r, s3, checkpoint);
    }

    /** Cutover's own check: every record is checkpointed, and its object is its content. */
    method VerifyAllTargets(job: Job) returns (r: Result<nat, MigrationError>)
      ensures r.Ok? <==>
        PrefixMarked(job, checkpoint, |job.records|) && PrefixVerified(job, s3, |job.records|)
      ensures r.Ok? ==> r.value == |job.records|
    {
      var verified := 0;
      while verified < |job.records|
        invariant 0 <= verified <= |job.records|
        invariant PrefixMarked(job, checkpoint, verified) && PrefixVerified(job, s3, verified)
      {
        var record := job.records[verified];
        if !Marked(checkpoint, record) {
          return Fail(NotVerified);
        }
        var target := VerifyTarget(job, record);
        if target.Fail? {
          return Fail(target.error);
        }
        if !target.value {
          return Fail(TargetMissing);
        }
        verified := verified + 1;
      }
      return Ok(verified);
    }

    method Cutover(job: Job, database: Database, execute: bool, tableIsFree: bool)
      returns (r: Result<(DbState, nat), MigrationError>)
      requires KeyedOnce(job.records)
      modifies database
      ensures CutoverOutcome(job, s3, checkpoint, execute, tableIsFree, old(database.rows), r, database.rows)
    {
      if !checkpoint.Bound? || checkpoint.meta != job.meta {
        return Fail(CheckpointInvalid);
      }
      var verified := VerifyAllTargets(job);
      if verified.Fail? {
        return Fail(verified.error);
      }
      r := database.SwitchDatabasePaths(job.records, Target, execute, tableIsFree);
    }
  }

  /** `rollback` needs neither S3 nor the checkpoint. */
  method RollbackPaths(job: Job, database: Database, execute: bool, tableIsFree: bool)
    returns (r: Result<(DbState, nat), MigrationError>)
    requires KeyedOnce(job.records)
    modifies database
    ensures RollbackOutcome(job, execute, tableIsFree, old(database.rows), r, database.rows)
  {
    var verified := 0;
    while verified < |job.records|
      invariant 0 <= verified <= |job.records|
      invariant PrefixSourced(job, verified)
    {
      var source := SourceContent(job.files, job.records[verified]);
      if source.Fail? {
        return Fail(source.error);
      }
      if !ContentMatches(job.hashes, job.records[verified], source.value) {
        return Fail(HashMismatch);
      }
      verified := verified + 1;
    }
    r := database.SwitchDatabasePaths(job.records, Source, execute, tableIsFree);
  }

  lemma {:induction false} CopyOnlyAdds(job: Job, s3: Objects, n: nat)
    requires n <= |job.records|
    ensures Extends(s3, AfterCopy(job, s3, n))
  {
    if n > 0 {
      CopyOnlyAdds(job, s3, n - 1);
    }
  }

  /** Adding one verified target to a verified prefix. */
  lemma PrefixGrows(job: Job, before: Objects, after: Objects, n: nat)
    requires PrefixVerified(job, before, n) && Extends(before, after)
    requires n < |job.records| && TargetVerified(job, after, job.records[n])
    ensures PrefixVerified(job, after, n + 1)
  {
    forall k | 0 <= k < n ensures TargetVerified(job, after, job.records[k]) {
      assert TargetVerified(job, before, job.records[k]);
    }
  }

  /** Copying one more record verifies it. */
  lemma OneMoreCopied(job: Job, s3: Objects, n: nat)
    requires KeyedOnce(job.records) && n < |job.records| && Copyable(job, s3, job.records[n])
    ensures TargetVerified(job, AfterCopy(job, s3, n + 1), job.records[n])
    ensures Extends(AfterCopy(job, s3, n), AfterCopy(job, s3, n + 1))
  {
    LaterKeysUntouched(job, s3, n, n);
  }

  /** A copy that met no obstacle has verified every record it handled. */
  lemma {:induction false} CopiedRecordsVerified(job: Job, s3: Objects, n: nat)
    requires KeyedOnce(job.records) && PrefixCopyable(job, s3, n)
    ensures PrefixVerified(job, AfterCopy(job, s3, n), n)
  {
    if n > 0 {
      assert Copyable(job, s3, job.records[n - 1]) && PrefixCopyable(job, s3, n - 1);
      CopiedRecordsVerified(job, s3, n - 1);
      OneMoreCopied(job, s3, n - 1);
      PrefixGrows(job, AfterCopy(job, s3, n - 1), AfterCopy(job, s3, n), n - 1);
    }
  }

  lemma {:induction false} CopiedRecordsMarked(job: Job, objects: map<int, Verified>, n: nat, k: nat)
    requires KeyedOnce(job.records) && k < n <= |job.records|
    ensures job.records[k].contentId in AfterMarks(job, objects, n)
    ensures AfterMarks(job, objects, n)[job.records[k].contentId] == VerifiedRow(job.records[k])
  {
    if k < n - 1 {
      CopiedRecordsMarked(job, objects, n - 1, k);
    }
  }

  /** One completed, executed, uncapped copy is all that cutover's check asks for. */
  lemma CompletedCopyPassesVerification(job: Job, s3: Objects, checkpoint: Checkpoint,
                                        r: Result<Report, MigrationError>, s3': Objects, checkpoint': Checkpoint)
    requires KeyedOnce(job.records)
    requires CopyOutcome(job, true, |job.records|, s3, checkpoint, r, s3', checkpoint') && r.Ok?
    ensures BoundToJob(job, checkpoint')
    ensures PrefixMarked(job, checkpoint', |job.records|) && PrefixVerified(job, s3', |job.records|)
  {
    CopiedRecordsVerified(job, s3, |job.records|);
    var bound := OpenedForWriting(job, checkpoint).value;
    forall k | 0 <= k < |job.records| ensures Marked(checkpoint', job.records[k]) {
      CopiedRecordsMarked(job, bound.objects, |job.records|, k);
    }
  }

  lemma {:induction false} CopiedKeyPresent(job: Job, s3: Objects, n: nat, k: nat)
    requires k < n <= |job.records| && SourceVerified(job, job.records[k])
    ensures job.records[k].targetKey in AfterCopy(job, s3, n)
  {
    if k < n - 1 {
      CopiedKeyPresent(job, s3, n - 1, k);
    }
  }

  lemma {:induction false} NothingLeftToCopy(job: Job, s3: Objects, n: nat, m: nat)
    requires m <= n <= |job.records|
    requires forall k :: 0 <= k < n ==> SourceVerified(job, job.records[k])
    ensures AfterCopy(job, AfterCopy(job, s3, n), m) == AfterCopy(job, s3, n)
    ensures AbsentTargets(job, AfterCopy(job, s3, n), m) == 0
  {
    if m > 0 {
      NothingLeftToCopy(job, s3, n, m - 1);
      CopiedKeyPresent(job, s3, n, m - 1);
    }
  }

  lemma {:induction false} RerunReachesSameObjects(job: Job, s3: Objects, n: nat, m: nat)
    requires KeyedOnce(job.records) && n <= m <= |job.records|
    requires forall k :: 0 <= k < m ==> SourceVerified(job, job.records[k])
    ensures AfterCopy(job, AfterCopy(job, s3, n), m) == AfterCopy(job, s3, m)
    decreases m
  {
    if m == n {
      NothingLeftToCopy(job, s3, n, n);
    } else {
      RerunReachesSameObjects(job, s3, n, m - 1);
      assert SourceVerified(job, job.records[m - 1]);
    }
  }

  lemma {:induction false} RerunUploadsTheRest(job: Job, s3: Objects, n: nat, m: nat)
    requires KeyedOnce(job.records) && n <= m <= |job.records|
    requires forall k :: 0 <= k < m ==> SourceVerified(job, job.records[k])
    ensures AbsentTargets(job, AfterCopy(job, s3, n), m) == AbsentTargets(job, s3, m) - AbsentTargets(job, s3, n)
    decreases m
  {
    if m == n {
      NothingLeftToCopy(job, s3, n, n);
    } else {
      assert SourceVerified(job, job.records[m - 1]);
      RerunUploadsTheRest(job, s3, n, m - 1);
      LaterKeysUntouched(job, s3, n, m - 1);
    }
  }

  /**
   * A rerun after any `n` records were copied ends in the same objects as an undisturbed copy, and
   * uploads exactly what the first attempt had left: earlier uploads have become reuses.
   */
  lemma RerunConverges(job: Job, s3: Objects, n: nat, m: nat)
    requires KeyedOnce(job.records) && n <= m <= |job.records|
    requires forall k :: 0 <= k < m ==> SourceVerified(job, job.records[k])
    ensures AfterCopy(job, AfterCopy(job, s3, n), m) == AfterCopy(job, s3, m)
    ensures AbsentTargets(job, AfterCopy(job, s3, n), m) == AbsentTargets(job, s3, m) - AbsentTargets(job, s3, n)
  {
    RerunReachesSameObjects(job, s3, n, m);
    RerunUploadsTheRest(job, s3, n, m);
  }

  lemma SizeWithKey(before: Objects, key: string, content: Bytes)
    ensures |before[key := content]| == |before| + if key in before then 0 else 1
  {
    var after := before[key := content];
    assert after.Keys == before.Keys + {key};
    assert |after| == |after.Keys| && |before| == |before.Keys|;
  }

  lemma CopyOneMore(job: Job, s3: Objects, n: nat)
    requires KeyedOnce(job.records) && n < |job.records| && SourceVerified(job, job.records[n])
    ensures |AfterCopy(job, s3, n + 1)| ==
      |AfterCopy(job, s3, n)| + if job.records[n].targetKey in s3 then 0 else 1
  {
    LaterKeysUntouched(job, s3, n, n);
    SizeWithKey(AfterCopy(job, s3, n), job.records[n].targetKey, SourceContent(job.files, job.records[n]).value);
  }

  /** Conservation: what a copy counts as uploaded is the number of objects S3 has gained. */
  lemma {:induction false} UploadsAreNewObjects(job: Job, s3: Objects, n: nat)
    requires KeyedOnce(job.records) && PrefixSourced(job, n)
    ensures |AfterCopy(job, s3, n)| == |s3| + AbsentTargets(job, s3, n)
  {
    if n > 0 {
      var m := n - 1;
      assert SourceVerified(job, job.records[m]);
      assert PrefixSourced(job, m);
      UploadsAreNewObjects(job, s3, m);
      CopyOneMore(job, s3, m);
      assert AbsentTargets(job, s3, n) == AbsentTargets(job, s3, m) + if job.records[m].targetKey in s3 then 0 else 1;
    }
  }
}
