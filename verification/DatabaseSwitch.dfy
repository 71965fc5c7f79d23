/** The transaction that moves every `storage_path` between a manifest's two locations. */
module DatabaseSwitch {
  import opened Outcomes
  import opened MigrationTypes
  import opened Collections

  /** The manifest's temporary table, keyed by its primary key. */
  type Table = map<int, Record>

  datatype DbState = Empty | At(side: Side)

  /** PostgreSQL's `btrim`: blanks removed from both ends. */
  function BTrim(s: string): string {
    if s != "" && s[0] == ' ' then BTrim(s[1..])
    else if s != "" && s[|s| - 1] == ' ' then BTrim(s[..|s| - 1])
    else s
  }

  function PathOf(record: Record, side: Side): string {
    if side == Source then record.sourceLocator else record.targetKey
  }

  /** The `WHERE` clause that the classification and both updates share. */
  predicate RowAt(row: Row, record: Record, side: Side) {
    && BTrim(row.md5) == record.md5
    && BTrim(row.sha256) == record.sha256
    && row.size == record.size
    && row.storagePath == PathOf(record, side)
  }

  /** The table holds exactly the manifest's contents, every one at the given side. */
  predicate AllAt(db: Db, table: Table, side: Side) {
    db.Keys == table.Keys && forall id :: id in table ==> id in db && RowAt(db[id], table[id], side)
  }

  /** The joined pairs a `COUNT(*)` of the classification query counts. */
  function JoinMatches(db: Db, table: Table, side: Side): set<(int, int)> {
    set a, b | a in db && b in table && b == a && RowAt(db[a], table[b], side) :: (a, b)
  }

  function ClassifyDatabaseState(db: Db, table: Table, count: nat): Result<DbState, MigrationError> {
    if |db| != count || |table| != count then Fail(SetDiffers)
    else if count == 0 then Ok(Empty)
    else if |JoinMatches(db, table, Source)| == count then Ok(At(Source))
    else if |JoinMatches(db, table, Target)| == count then Ok(At(Target))
    else Fail(DriftedOrMixed)
  }

  /** Rows that `UPDATE ... FROM` selects when moving away from `from`. */
  function Selected(db: Db, table: Table, from: Side): set<int> {
    set id | id in db && id in table && RowAt(db[id], table[id], from)
  }

  function Updated(db: Db, table: Table, from: Side): Db {
    map id | id in db ::
      if id in Selected(db, table, from)
      then db[id].(storagePath := PathOf(table[id], Other(from)))
      else db[id]
  }

  /** Result of the transaction together with the committed table. */
  function Switched(db: Db, table: Table, count: nat, desired: Side, execute: bool)
    : (Result<(DbState, nat), MigrationError>, Db)
  {
    match ClassifyDatabaseState(db, table, count)
    case Fail(e) => (Fail(e), db)
    case Ok(state) =>
      var moving := execute && state == At(Other(desired));
      var changed: nat := if moving then |Selected(db, table, Other(desired))| else 0;
      var expected := if state != At(desired) && state != Empty then count else 0;
      if execute && changed != expected then (Fail(SwitchCountMismatch), db)
      else (Ok((state, changed)), if moving then Updated(db, table, Other(desired)) else db)
  }

  /** What the temporary table's PRIMARY KEY and UNIQUE constraints demand. */
  predicate KeyedOnce(records: seq<Record>) {
    forall i, j :: 0 <= i < j < |records| ==>
      records[i].contentId != records[j].contentId && records[i].targetKey != records[j].targetKey
  }

  function TableOf(records: seq<Record>): Table {
    if records == [] then map[]
    else TableOf(records[..|records| - 1])[records[|records| - 1].contentId := records[|records| - 1]]
  }

  method LoadManifestTempTable(records: seq<Record>) returns (r: Result<Table, MigrationError>)
    ensures r == if KeyedOnce(records) then Ok(TableOf(records)) else Fail(ConstraintViolated)
  {
    var table: Table := map[];
    var keys: set<string> := {};
    for i := 0 to |records|
      invariant KeyedOnce(records[..i])
      invariant table == TableOf(records[..i])
      invariant forall id :: id in table <==> exists k :: 0 <= k < i && records[k].contentId == id
      invariant forall key :: key in keys <==> exists k :: 0 <= k < i && records[k].targetKey == key
    {
      if records[i].contentId in table || records[i].targetKey in keys {
        return Fail(ConstraintViolated);
      }
      assert records[..i + 1][..i] == records[..i];
      table := table[records[i].contentId := records[i]];
      keys := keys + {records[i].targetKey};
    }
    assert records[..|records|] == records;
    return Ok(table);
  }

  /** `file_contents` together with the tool's transaction on it. */
  class Database {
    var rows: Db

    constructor (initial: Db)
      ensures rows == initial
    {
      rows := initial;
    }

    method SwitchDatabasePaths(records: seq<Record>, desired: Side, execute: bool, tableIsFree: bool)
      returns (r: Result<(DbState, nat), MigrationError>)
      modifies this
      ensures tableIsFree && KeyedOnce(records) ==>
        (r, rows) == Switched(old(rows), TableOf(records), |records|, desired, execute)
      ensures !KeyedOnce(records) ==> r == Fail(ConstraintViolated)
      ensures KeyedOnce(records) && !tableIsFree ==> r == Fail(LockUnavailable)
      ensures r.Fail? ==> rows == old(rows)
    {
      var loaded := LoadManifestTempTable(records);
      if loaded.Fail? {
        return Fail(loaded.error);
      }
      if !tableIsFree {
        return Fail(LockUnavailable);
      }
      var table := loaded.value;
      var classified := ClassifyDatabaseState(rows, table, |records|);
      if classified.Fail? {
        return Fail(classified.error);
      }
      var state := classified.value;
      var changed: nat := 0;
      var before := rows;
      if execute && desired == Target && state == At(Source) {
        changed := |Selected(rows, table, Source)|;
        rows := Updated(rows, table, Source);
      } else if execute && desired == Source && state == At(Target) {
        changed := |Selected(rows, table, Target)|;
        rows := Updated(rows, table, Target);
      }
      var expected := if state != At(desired) && state != Empty then |records| else 0;
      if execute && changed != expected {
        rows := before;
        return Fail(SwitchCountMismatch);
      }
      return Ok((state, changed));
    }
  }

  lemma {:induction false} TableLookup(records: seq<Record>, k: nat)
    requires KeyedOnce(records) && k < |records|
    ensures records[k].contentId in TableOf(records) && TableOf(records)[records[k].contentId] == records[k]
  {
    var n := |records| - 1;
    if k < n {
      TableLookup(records[..n], k);
      assert records[..n][k] == records[k];
    }
  }

  lemma {:induction false} TableOnlyHoldsRecords(records: seq<Record>, id: int)
    requires id in TableOf(records)
    ensures exists k :: 0 <= k < |records| && records[k].contentId == id
  {
    var n := |records| - 1;
    if records[n].contentId != id {
      TableOnlyHoldsRecords(records[..n], id);
      var k :| 0 <= k < n && records[..n][k].contentId == id;
      assert records[k].contentId == id;
    }
  }

  /** The table of a keyed manifest has one row for each record. */
  lemma {:induction false} TableSize(records: seq<Record>)
    requires KeyedOnce(records)
    ensures |TableOf(records)| == |records|
  {
    if records != [] {
      var n := |records| - 1;
      TableSize(records[..n]);
      if records[n].contentId in TableOf(records[..n]) {
        TableOnlyHoldsRecords(records[..n], records[n].contentId);
      }
    }
  }

  lemma {:induction false} DiagonalSize(ids: set<int>)
    ensures |set id | id in ids :: (id, id)| == |ids|
  {
    if ids != {} {
      var x := Inhabitant(ids);
      DiagonalSize(ids - {x});
      var rest := set id | id in ids - {x} :: (id, id);
      assert (set id | id in ids :: (id, id)) == rest + {(x, x)};
    }
  }

  /** Both tables are keyed, so the join counts contents. */
  lemma JoinCountsContents(db: Db, table: Table, side: Side)
    ensures |JoinMatches(db, table, side)| == |Selected(db, table, side)|
  {
    var ids := Selected(db, table, side);
    assert JoinMatches(db, table, side) == set id | id in ids :: (id, id);
    DiagonalSize(ids);
  }

  /** A full count means that every content matches, and conversely. */
  lemma FullCountIsAllAt(db: Db, table: Table, side: Side)
    requires |db| == |table|
    ensures |JoinMatches(db, table, side)| == |table| <==> AllAt(db, table, side)
  {
    JoinCountsContents(db, table, side);
    var ids := Selected(db, table, side);
    if |ids| == |table| {
      SubsetOfSameSize(ids, db.Keys);
      SubsetOfSameSize(ids, table.Keys);
    }
    if AllAt(db, table, side) {
      forall id | id in table ensures id in ids {
        assert RowAt(db[id], table[id], side);
      }
      assert ids == table.Keys;
    }
  }

  /** The four counts decide the two tables row by row. */
  lemma CountsDecideTables(db: Db, table: Table, count: nat)
    ensures var state := ClassifyDatabaseState(db, table, count);
      && (state == Ok(Empty) <==> count == 0 && db == map[] && table == map[])
      && (state == Ok(At(Source)) <==> count == |table| > 0 && AllAt(db, table, Source))
      && (state == Ok(At(Target)) <==> count == |table| > 0 && AllAt(db, table, Target) && !AllAt(db, table, Source))
      && (state == Fail(SetDiffers) <==> |db| != count || |table| != count)
  {
    forall side | AllAt(db, table, side) ensures |db| == |table| {
      assert |db| == |db.Keys| && |table| == |table.Keys|;
    }
    if |db| == |table| {
      FullCountIsAllAt(db, table, Source);
      FullCountIsAllAt(db, table, Target);
    }
  }

  lemma FullOrFail(db: Db, table: Table, count: nat, side: Side)
    ensures ClassifyDatabaseState(db, table, count) == Ok(At(side)) ==>
      |Selected(db, table, side)| == count && AllAt(Updated(db, table, side), table, Other(side))
  {
    CountsDecideTables(db, table, count);
    if ClassifyDatabaseState(db, table, count) == Ok(At(side)) {
      JoinCountsContents(db, table, side);
      FullCountIsAllAt(db, table, side);
      SubsetOfSameSize(Selected(db, table, side), db.Keys);
    }
  }

  /**
   * What the transaction does, for all tables: the row-count check never fires, exactly the
   * expected rows move, only `storage_path` changes, and an executed switch ends at one side.
   */
  lemma SwitchIsExact(db: Db, table: Table, count: nat, desired: Side, execute: bool)
    ensures var (r, after) := Switched(db, table, count, desired, execute);
      && r != Fail(SwitchCountMismatch)
      && (r.Fail? <==> ClassifyDatabaseState(db, table, count).Fail?)
      && after.Keys == db.Keys
      && (forall id :: id in db ==> after[id].(storagePath := db[id].storagePath) == db[id])
      && (r.Ok? ==> r.value.1 == if execute && r.value.0 == At(Other(desired)) then count else 0)
      && (r.Ok? && execute ==> AllAt(after, table, desired))
      && (r.Fail? || !execute || r.value.0 == At(desired) ==> after == db)
  {
    CountsDecideTables(db, table, count);
    JoinCountsContents(db, table, Other(desired));
    FullOrFail(db, table, count, Other(desired));
  }

  /** Size and both digests agree, the row's padding aside. */
  predicate RowMatches(row: Row, record: Record) {
    BTrim(row.md5) == record.md5 && BTrim(row.sha256) == record.sha256 && row.size == record.size
  }

  /** A reported state is true of the tables row by row; `Source` wins where a row matches at both sides. */
  predicate Describes(state: DbState, db: Db, table: Table) {
    && db.Keys == table.Keys
    && (state == Empty <==> db.Keys == {})
    && (state == At(Source) <==> db.Keys != {} && forall id :: id in db && id in table ==>
         RowMatches(db[id], table[id]) && db[id].storagePath == table[id].sourceLocator)
    && (state == At(Target) <==>
         && db.Keys != {}
         && (forall id :: id in db && id in table ==>
              RowMatches(db[id], table[id]) && db[id].storagePath == table[id].targetKey)
         && (exists id :: id in db && id in table && table[id].sourceLocator != table[id].targetKey))
  }

  /** What the classification's verdicts say of the rows. */
  lemma StatesAreRows(db: Db, table: Table, state: DbState)
    requires match state
      case Empty => db == map[] && table == map[]
      case At(Source) => table != map[] && AllAt(db, table, Source)
      case At(Target) => table != map[] && AllAt(db, table, Target) && !AllAt(db, table, Source)
    ensures Describes(state, db, table)
  {
    forall id, side | id in db && id in table
      ensures RowAt(db[id], table[id], side) <==>
        RowMatches(db[id], table[id])
        && db[id].storagePath == (if side == Source then table[id].sourceLocator else table[id].targetKey)
    {
    }
    if state == At(Target) {
      var id :| id in table && (id !in db || !RowAt(db[id], table[id], Source));
      assert RowAt(db[id], table[id], Target);
    } else if state == At(Source) {
      var id := Inhabitant(table.Keys);
      assert RowAt(db[id], table[id], Source);
    }
  }

  /** Dry or executed, a transaction that succeeds reports the state it found. */
  lemma ReportedStateIsFound(db: Db, table: Table, count: nat, desired: Side, execute: bool)
    ensures var r := Switched(db, table, count, desired, execute).0;
      && (r.Ok? ==> Describes(r.value.0, db, table))
      && (r.Ok? <==> |db| == |table| == count && (AllAt(db, table, Source) || AllAt(db, table, Target)))
  {
    CountsDecideTables(db, table, count);
    SwitchIsExact(db, table, count, desired, execute);
    assert |db| == |db.Keys| && |table| == |table.Keys|;
    var r := Switched(db, table, count, desired, execute).0;
    if r.Ok? {
      StatesAreRows(db, table, r.value.0);
    }
  }

  /** An executed switch and the opposite one restore `file_contents` exactly, whichever comes first. */
  lemma SwitchesCancel(db: Db, table: Table, count: nat, side: Side)
    requires ClassifyDatabaseState(db, table, count) == Ok(At(side))
    ensures var (r, there) := Switched(db, table, count, Other(side), true);
      && r == Ok((At(side), count))
      && var (r', back) := Switched(there, table, count, side, true);
         r'.Ok? && back == db
  {
    SwitchIsExact(db, table, count, Other(side), true);
    CountsDecideTables(db, table, count);
    var there := Switched(db, table, count, Other(side), true).1;
    CountsDecideTables(there, table, count);
    assert |there| == |there.Keys| == |db.Keys|;
    SwitchIsExact(there, table, count, side, true);
    var back := Switched(there, table, count, side, true).1;
    assert AllAt(back, table, side);
    forall id | id in db ensures back[id] == db[id] {
      assert RowAt(db[id], table[id], side) && RowAt(back[id], table[id], side);
    }
  }

  /** Some record's two locations differ. */
  predicate SomeMove(table: Table) {
    exists id :: id in table && table[id].sourceLocator != table[id].targetKey
  }

  /** When no record has to move, the rows that match at one side match at the other. */
  lemma SidesCoincide(db: Db, table: Table)
    requires !SomeMove(table)
    ensures AllAt(db, table, Source) <==> AllAt(db, table, Target)
  {
    forall id | id in db && id in table
      ensures RowAt(db[id], table[id], Source) <==> RowAt(db[id], table[id], Target)
    {
      assert table[id].sourceLocator == table[id].targetKey;
    }
  }

  /** A cutover whose manifest moves nothing reports every row, and leaves the table. */
  lemma UnmovedSwitch(db: Db, table: Table)
    requires |table| > 0 && AllAt(db, table, Target) && !SomeMove(table)
    ensures Switched(db, table, |table|, Target, true) == (Ok((At(Source), |table|)), db)
  {
    SidesCoincide(db, table);
    CountsDecideTables(db, table, |table|);
    SwitchIsExact(db, table, |table|, Target, true);
    var after := Switched(db, table, |table|, Target, true).1;
    forall id | id in db ensures after[id] == db[id] {
      assert RowAt(db[id], table[id], Target) && RowAt(after[id], table[id], Target);
      assert after[id].storagePath == db[id].storagePath;
    }
    assert after == db;
  }

  /** A switch towards the side where the table already is leaves it, and moves rows only if none has to move. */
  lemma SettledSwitch(db: Db, table: Table, desired: Side)
    requires AllAt(db, table, desired)
    ensures var (r, after) := Switched(db, table, |table|, desired, true);
      && r.Ok? && after == db
      && r.value.1 == if desired == Source || SomeMove(table) then 0 else |table|
  {
    assert |db| == |db.Keys| == |table.Keys| == |table|;
    CountsDecideTables(db, table, |table|);
    SwitchIsExact(db, table, |table|, desired, true);
    if desired == Target && |table| > 0 {
      if SomeMove(table) {
        var id :| id in table && table[id].sourceLocator != table[id].targetKey;
        assert RowAt(db[id], table[id], Target) && !RowAt(db[id], table[id], Source);
      } else {
        UnmovedSwitch(db, table);
      }
    }
  }

  /**
   * Repeating an executed switch changes no row, with one exception: a repeated cutover of a
   * non-empty manifest whose every locator already equals its target key reports all rows again,
   * because the source count is consulted first. The table itself is a fixed point either way.
   */
  lemma SwitchIsIdempotent(db: Db, table: Table, count: nat, desired: Side)
    requires Switched(db, table, count, desired, true).0.Ok?
    ensures var once := Switched(db, table, count, desired, true).1;
      var (r, twice) := Switched(once, table, count, desired, true);
      && r.Ok? && twice == once
      && (r.value.1 == 0 <==> desired == Source || count == 0 || SomeMove(table))
  {
    SwitchIsExact(db, table, count, desired, true);
    CountsDecideTables(db, table, count);
    var once := Switched(db, table, count, desired, true).1;
    SettledSwitch(once, table, desired);
  }
}
