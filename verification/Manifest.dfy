/** The manifest: how it is generated from `file_contents` and how it is accepted again. */
module Manifest {
  import opened Blobs
  import opened Outcomes
  import opened MigrationTypes
  import opened Collections
  import opened Text
  import opened ObjectKeys
  import opened DatabaseSwitch

  const MANIFEST_KIND := "disk-final-blob-manifest"
  const MANIFEST_VERSION := 1

  datatype Header = Header(
    generatedAt: string,
    localRoot: string,
    pathBase: string,
    bucket: string,
    objectPrefix: string,
    objectCount: int)

  /** The file's first line, then one record a line. */
  datatype ManifestFile = ManifestFile(kind: string, version: int, header: Header, lines: seq<Record>)

  /**
   * Where the blobs are: `resolved` is the file system's stable path resolution, defined on the
   * locators of regular files below the local root.
   */
  datatype Site = Site(resolved: map<string, Path>, files: map<Path, Bytes>)

  /** What the generator finds at the paths it is given; `appears`: the manifest is there by the time it is linked. */
  datatype Surroundings = Surroundings(
    manifestExists: bool,
    parentIsDirectory: bool,
    rootIsDirectory: bool,
    baseIsDirectory: bool,
    appears: bool)

  datatype Arguments = Arguments(
    generatedAt: string,
    localRoot: string,
    pathBase: string,
    bucket: string,
    objectPrefix: string,
    found: Surroundings)

  datatype Entry = Entry(id: int, row: Row)

  /** Resolution yields paths of the root's own components. */
  ghost predicate ResolvesCleanly(site: Site) {
    forall locator :: locator in site.resolved ==> CleanPath(site.resolved[locator])
  }

  function ResolveSourcePath(site: Site, locator: string): Result<Path, MigrationError> {
    if locator == "" || |locator| > MAX_STORAGE_PATH_LENGTH || '\0' in locator then Fail(SourceUnavailable)
    else if locator !in site.resolved || site.resolved[locator] !in site.files then Fail(SourceUnavailable)
    else Ok(site.resolved[locator])
  }

  /** The blanks Python's `str.strip` removes. */
  predicate IsPythonSpace(c: char) {
    || '\t' <= c <= '\r' || '\U{1c}' <= c <= ' ' || c == '\U{85}' || c == '\U{a0}'
    || c == '\U{1680}' || '\U{2000}' <= c <= '\U{200a}' || c == '\U{2028}' || c == '\U{2029}'
    || c == '\U{202f}' || c == '\U{205f}' || c == '\U{3000}'
  }

  function PyStrip(s: string): string {
    if s != "" && IsPythonSpace(s[0]) then PyStrip(s[1..])
    else if s != "" && IsPythonSpace(s[|s| - 1]) then PyStrip(s[..|s| - 1])
    else s
  }

  /** `SELECT ... ORDER BY id` over the snapshot. */
  ghost predicate IsScan(db: Db, entries: seq<Entry>) {
    && |entries| == |db|
    && (forall k :: 0 <= k < |entries| ==> entries[k].id in db && db[entries[k].id] == entries[k].row)
    && (forall i, j :: 0 <= i < j < |entries| ==> entries[i].id < entries[j].id)
  }

  /** The record a well-formed row is written as. */
  function RecordFor(prefix: string, site: Site, entry: Entry): Record
    requires ResolveSourcePath(site, entry.row.storagePath).Ok?
  {
    Record(
      entry.id,
      entry.row.storagePath,
      Join(ResolveSourcePath(site, entry.row.storagePath).value),
      entry.row.size,
      PyStrip(entry.row.md5),
      PyStrip(entry.row.sha256),
      KeyText(prefix, PyStrip(entry.row.sha256)))
  }

  predicate RowAccepted(prefix: string, site: Site, entry: Entry) {
    && entry.id > 0
    && entry.row.size >= 0
    && IsLowerHex(PyStrip(entry.row.md5), 32)
    && IsLowerHex(PyStrip(entry.row.sha256), 64)
    && var source := ResolveSourcePath(site, entry.row.storagePath);
    && source.Ok?
    && |site.files[source.value]| == entry.row.size
    && TargetKeyFor(prefix, PyStrip(entry.row.sha256)).Ok?
  }

  /** Row `k` shares neither digest nor source locator with an earlier row. */
  predicate FreshRow(entries: seq<Entry>, k: nat)
    requires k < |entries|
  {
    forall i :: 0 <= i < k ==>
      && PyStrip(entries[i].row.sha256) != PyStrip(entries[k].row.sha256)
      && entries[i].row.storagePath != entries[k].row.storagePath
  }

  /** Row `k` passes every check of the generator's loop. */
  predicate RowPasses(prefix: string, site: Site, entries: seq<Entry>, k: nat)
    requires k < |entries|
  {
    RowAccepted(prefix, site, entries[k]) && FreshRow(entries, k)
  }

  predicate AllRowsPass(prefix: string, site: Site, entries: seq<Entry>) {
    forall k :: 0 <= k < |entries| ==> RowPasses(prefix, site, entries, k)
  }

  /** Everything `generate_manifest` insists on before it publishes. */
  predicate Publishable(args: Arguments, site: Site, count: int, entries: seq<Entry>) {
    && args.found == Surroundings(false, true, true, true, false)
    && args.bucket != ""
    && NormalizeObjectPrefix(args.objectPrefix).Ok?
    && var prefix := NormalizeObjectPrefix(args.objectPrefix).value;
    && AllRowsPass(prefix, site, entries)
    && |entries| == count
  }

  /** The lines are the records of the first rows, in order. */
  ghost predicate WrittenFrom(prefix: string, site: Site, entries: seq<Entry>, lines: seq<Record>) {
    && |lines| <= |entries|
    && forall k :: 0 <= k < |lines| ==>
         RowPasses(prefix, site, entries, k) && lines[k] == RecordFor(prefix, site, entries[k])
  }

  ghost predicate Remembers(seen: map<string, int>, met: seq<string>) {
    forall x :: x in seen <==> x in met
  }

  lemma RememberOne(seen: map<string, int>, met: seq<string>, x: string, id: int)
    requires Remembers(seen, met)
    ensures Remembers(seen[x := id], met + [x])
  {
  }

  /** The digests and the locators of the rows before `n`. */
  ghost predicate Met(entries: seq<Entry>, n: nat, digests: seq<string>, locators: seq<string>) {
    && n <= |entries| && |digests| == n == |locators|
    && forall i :: 0 <= i < n ==>
         PyStrip(entries[i].row.sha256) == digests[i] && entries[i].row.storagePath == locators[i]
  }

  lemma FreshWhenNotMet(entries: seq<Entry>, n: nat, digests: seq<string>, locators: seq<string>)
    requires n < |entries| && Met(entries, n, digests, locators)
    ensures FreshRow(entries, n) <==>
      PyStrip(entries[n].row.sha256) !in digests && entries[n].row.storagePath !in locators
  {
    if PyStrip(entries[n].row.sha256) in digests {
      var i :| 0 <= i < n && digests[i] == PyStrip(entries[n].row.sha256);
    }
  }

  /** One turn of the generator's loop, up to the written line. */
  method CheckRow(prefix: string, site: Site, entry: Entry, seenSha256: map<string, int>, seenSources: map<string, int>)
    returns (r: Result<Record, MigrationError>)
    ensures r.Ok? <==>
      && RowAccepted(prefix, site, entry)
      && PyStrip(entry.row.sha256) !in seenSha256 && entry.row.storagePath !in seenSources
    ensures r.Ok? ==> r.value == RecordFor(prefix, site, entry)
  {
    var md5, sha256 := PyStrip(entry.row.md5), PyStrip(entry.row.sha256);
    if entry.id <= 0 || entry.row.size < 0 || !IsLowerHex(md5, 32) || !IsLowerHex(sha256, 64) {
      return Fail(InvalidRow);
    }
    if sha256 in seenSha256 {
      return Fail(DuplicateHash);
    }
    if entry.row.storagePath in seenSources {
      return Fail(DuplicateSource);
    }
    var source := ResolveSourcePath(site, entry.row.storagePath);
    if source.Fail? {
      return Fail(source.error);
    }
    if |site.files[source.value]| != entry.row.size {
      return Fail(SourceUnavailable);
    }
    var key := TargetKeyFor(prefix, sha256);
    if key.Fail? {
      return Fail(key.error);
    }
    return Ok(
      Record(entry.id, entry.row.storagePath, Join(source.value), entry.row.size, md5, sha256, key.value));
  }

  method WriteLines(prefix: string, site: Site, entries: seq<Entry>) returns (r: Result<seq<Record>, MigrationError>)
    ensures r.Ok? <==> AllRowsPass(prefix, site, entries)
    ensures r.Ok? ==> |r.value| == |entries| && WrittenFrom(prefix, site, entries, r.value)
  {
    var lines: seq<Record> := [];
    var seenSha256: map<string, int> := map[];
    var seenSources: map<string, int> := map[];
    ghost var digests: seq<string>, locators: seq<string> := [], [];
    var written := 0;
    while written < |entries|
      invariant 0 <= written <= |entries|
      invariant |lines| == written && WrittenFrom(prefix, site, entries, lines)
      invariant Met(entries, written, digests, locators)
      invariant Remembers(seenSha256, digests) && Remembers(seenSources, locators)
    {
      var checked := CheckRow(prefix, site, entries[written], seenSha256, seenSources);
      FreshWhenNotMet(entries, written, digests, locators);
      if checked.Fail? {
        assert !RowPasses(prefix, site, entries, written);
        return Fail(checked.error);
      }
      lines := lines + [checked.value];
      RememberOne(seenSha256, digests, checked.value.sha256, entries[written].id);
      RememberOne(seenSources, locators, checked.value.sourceLocator, entries[written].id);
      seenSha256 := seenSha256[checked.value.sha256 := entries[written].id];
      seenSources := seenSources[checked.value.sourceLocator := entries[written].id];
      digests, locators := digests + [checked.value.sha256], locators + [checked.value.sourceLocator];
      written := written + 1;
    }
    return Ok(lines);
  }

  method GenerateManifest(args: Arguments, site: Site, count: int, entries: seq<Entry>)
    returns (r: Result<ManifestFile, MigrationError>)
    ensures r.Ok? <==> Publishable(args, site, count, entries)
    ensures r.Ok? ==>
      && !args.found.manifestExists && args.found.parentIsDirectory && !args.found.appears
      && args.found.rootIsDirectory && args.found.baseIsDirectory
      && args.bucket != "" && |entries| == count
    ensures r.Ok? ==>
      var prefix := NormalizeObjectPrefix(args.objectPrefix).value;
      && r.value.kind == MANIFEST_KIND && r.value.version == MANIFEST_VERSION
      && r.value.header ==
         Header(args.generatedAt, args.localRoot, args.pathBase, args.bucket, prefix, |entries|)
      && |r.value.lines| == |entries|
      && WrittenFrom(prefix, site, entries, r.value.lines)
  {
    if args.found.manifestExists || !args.found.parentIsDirectory {
      return Fail(UnpublishableManifest);
    }
    if !args.found.rootIsDirectory || !args.found.baseIsDirectory {
      return Fail(SourceUnavailable);
    }
    var normalized := NormalizeObjectPrefix(args.objectPrefix);
    if normalized.Fail? {
      return Fail(normalized.error);
    }
    var prefix := normalized.value;
    if args.bucket == "" {
      return Fail(InvalidArgument);
    }
    var lines := WriteLines(prefix, site, entries);
    if lines.Fail? {
      return Fail(lines.error);
    }
    if |lines.value| != count {
      return Fail(SnapshotChanged);
    }
    if args.found.appears {
      return Fail(UnpublishableManifest);
    }
    return Ok(ManifestFile(
      MANIFEST_KIND, MANIFEST_VERSION,
      Header(args.generatedAt, args.localRoot, args.pathBase, args.bucket, prefix, count), lines.value));
  }

  predicate IsAbsolute(path: string) {
    path != "" && path[0] == '/'
  }

  function ParseManifestHeader(file: ManifestFile): Result<Header, MigrationError> {
    if file.kind != MANIFEST_KIND || file.version != MANIFEST_VERSION then Fail(InvalidHeader)
    else match NormalizeObjectPrefix(file.header.objectPrefix)
      case Fail(e) => Fail(e)
      case Ok(prefix) =>
        if !IsAbsolute(file.header.localRoot) || !IsAbsolute(file.header.pathBase) then Fail(InvalidHeader)
        else if file.header.bucket == "" || file.header.objectCount < 0 then Fail(InvalidHeader)
        else Ok(file.header.(objectPrefix := prefix))
  }

  predicate RecordAccepted(prefix: string, record: Record) {
    && record.size >= 0
    && IsLowerHex(record.md5, 32)
    && IsLowerHex(record.sha256, 64)
    && TargetKeyFor(prefix, record.sha256) == Ok(record.targetKey)
    && record.sourceLocator != ""
    && |record.sourceLocator| <= MAX_STORAGE_PATH_LENGTH
  }

  function PreviousId(records: seq<Record>, k: nat): int
    requires k <= |records|
  {
    if k == 0 then 0 else records[k - 1].contentId
  }

  /** Line `k` passes every check of the reader's loop. */
  predicate LinePasses(prefix: string, records: seq<Record>, k: nat)
    requires k < |records|
  {
    && RecordAccepted(prefix, records[k])
    && PreviousId(records, k) < records[k].contentId
    && forall i :: 0 <= i < k ==> records[i].targetKey != records[k].targetKey
  }

  predicate RecordsAccepted(prefix: string, records: seq<Record>) {
    forall k :: 0 <= k < |records| ==> LinePasses(prefix, records, k)
  }

  /** Everything `load_manifest` insists on. */
  predicate Acceptable(file: ManifestFile) {
    && ParseManifestHeader(file).Ok?
    && RecordsAccepted(ParseManifestHeader(file).value.objectPrefix, file.lines)
    && |file.lines| == file.header.objectCount
  }

  ghost predicate MetTargets(records: seq<Record>, n: nat, targets: seq<string>) {
    n <= |records| && |targets| == n && forall i :: 0 <= i < n ==> records[i].targetKey == targets[i]
  }

  lemma LinePassesWhenNotMet(prefix: string, records: seq<Record>, n: nat, targets: seq<string>)
    requires n < |records| && MetTargets(records, n, targets)
    ensures LinePasses(prefix, records, n) <==>
      && RecordAccepted(prefix, records[n])
      && PreviousId(records, n) < records[n].contentId && records[n].targetKey !in targets
  {
    if records[n].targetKey in targets {
      var i :| 0 <= i < n && targets[i] == records[n].targetKey;
    }
  }

  /** One turn of the reader's loop. */
  method CheckLine(prefix: string, record: Record, previousId: int, seenTargets: map<string, int>)
    returns (r: Result<(), MigrationError>)
    ensures r.Ok? <==>
      RecordAccepted(prefix, record) && previousId < record.contentId && record.targetKey !in seenTargets
  {
    if record.contentId <= previousId || record.size < 0 {
      return Fail(InvalidRecord);
    }
    if !IsLowerHex(record.md5, 32) || !IsLowerHex(record.sha256, 64) {
      return Fail(InvalidRecord);
    }
    var expected := TargetKeyFor(prefix, record.sha256);
    if expected.Fail? {
      return Fail(expected.error);
    }
    if record.targetKey != expected.value {
      return Fail(InvalidRecord);
    }
    if record.sourceLocator == "" || |record.sourceLocator| > MAX_STORAGE_PATH_LENGTH {
      return Fail(InvalidRecord);
    }
    if record.targetKey in seenTargets {
      return Fail(DuplicateTarget);
    }
    return Ok(());
  }

  method ReadLines(prefix: string, lines: seq<Record>) returns (r: Result<nat, MigrationError>)
    ensures r.Ok? <==> RecordsAccepted(prefix, lines)
    ensures r.Ok? ==> r.value == |lines|
  {
    var previousId := 0;
    var seenTargets: map<string, int> := map[];
    ghost var targets: seq<string> := [];
    var count := 0;
    while count < |lines|
      invariant 0 <= count <= |lines|
      invariant previousId == PreviousId(lines, count)
      invariant forall k :: 0 <= k < count ==> LinePasses(prefix, lines, k)
      invariant MetTargets(lines, count, targets) && Remembers(seenTargets, targets)
    {
      var record := lines[count];
      var checked := CheckLine(prefix, record, previousId, seenTargets);
      LinePassesWhenNotMet(prefix, lines, count, targets);
      if checked.Fail? {
        assert !LinePasses(prefix, lines, count);
        return Fail(checked.error);
      }
      RememberOne(seenTargets, targets, record.targetKey, record.contentId);
      seenTargets := seenTargets[record.targetKey := record.contentId];
      targets := targets + [record.targetKey];
      previousId := record.contentId;
      count := count + 1;
    }
    return Ok(count);
  }

  method LoadManifest(file: ManifestFile) returns (r: Result<(Header, seq<Record>), MigrationError>)
    ensures r.Ok? <==> Acceptable(file)
    ensures r.Ok? ==> r.value == (ParseManifestHeader(file).value, file.lines)
  {
    var parsed := ParseManifestHeader(file);
    if parsed.Fail? {
      return Fail(parsed.error);
    }
    var count := ReadLines(parsed.value.objectPrefix, file.lines);
    if count.Fail? {
      return Fail(count.error);
    }
    if count.value != parsed.value.objectCount {
      return Fail(CountMismatch);
    }
    return Ok((parsed.value, file.lines));
  }

  lemma {:induction false} IdsAreOrdered(prefix: string, records: seq<Record>, i: nat, j: nat)
    requires RecordsAccepted(prefix, records) && i < j < |records|
    ensures records[i].contentId < records[j].contentId
    decreases j
  {
    assert LinePasses(prefix, records, j);
    if i < j - 1 {
      IdsAreOrdered(prefix, records, i, j - 1);
    }
  }

  /** Every accepted manifest loads into the keyed temporary table, one row for each record. */
  lemma AcceptedManifestIsKeyed(file: ManifestFile)
    requires Acceptable(file)
    ensures KeyedOnce(file.lines)
    ensures |TableOf(file.lines)| == |file.lines| == file.header.objectCount
  {
    forall i, j | 0 <= i < j < |file.lines|
      ensures file.lines[i].contentId != file.lines[j].contentId
      ensures file.lines[i].targetKey != file.lines[j].targetKey
    {
      assert LinePasses(ParseManifestHeader(file).value.objectPrefix, file.lines, j);
      IdsAreOrdered(ParseManifestHeader(file).value.objectPrefix, file.lines, i, j);
    }
    TableSize(file.lines);
  }

  lemma {:induction false} Largest(ids: set<int>) returns (largest: int)
    requires ids != {}
    ensures largest in ids && forall id :: id in ids ==> id <= largest
    decreases |ids|
  {
    var first := Inhabitant(ids);
    var rest := ids - {first};
    assert forall id :: id in ids ==> id == first || id in rest;
    largest := first;
    if rest != {} {
      var other := Largest(rest);
      largest := if other > first then other else first;
    }
  }

  /** Every table has a scan in id order, so the statements about scans speak of every table. */
  lemma {:induction false} ScanExists(db: Db) returns (entries: seq<Entry>)
    ensures IsScan(db, entries)
    decreases |db|
  {
    if db == map[] {
      entries := [];
    } else {
      var largest := Largest(db.Keys);
      var rest := db - {largest};
      assert rest.Keys == db.Keys - {largest};
      assert |rest| == |rest.Keys| && |db| == |db.Keys|;
      entries := ScanExists(rest);
      forall k | 0 <= k < |entries| ensures entries[k].id < largest {
        assert entries[k].id in rest;
      }
      entries := entries + [Entry(largest, db[largest])];
    }
  }

  /** Whatever the generator publishes from a scan, the reader accepts and reads back unchanged. */
  lemma WriterReaderAgree(args: Arguments, site: Site, db: Db, entries: seq<Entry>, file: ManifestFile)
    requires IsScan(db, entries) && Publishable(args, site, |db|, entries)
    requires IsAbsolute(args.localRoot) && IsAbsolute(args.pathBase)
    requires var prefix := NormalizeObjectPrefix(args.objectPrefix).value;
      && file.kind == MANIFEST_KIND && file.version == MANIFEST_VERSION
      && file.header == Header(args.generatedAt, args.localRoot, args.pathBase, args.bucket, prefix, |entries|)
      && |file.lines| == |entries| && WrittenFrom(prefix, site, entries, file.lines)
    ensures Acceptable(file) && ParseManifestHeader(file) == Ok(file.header)
  {
    var prefix := NormalizeObjectPrefix(args.objectPrefix).value;
    NormalizeIsIdempotent(args.objectPrefix);
    forall k | 0 <= k < |file.lines| ensures LinePasses(prefix, file.lines, k) {
      assert RowPasses(prefix, site, entries, k);
      if k > 0 {
        assert RowPasses(prefix, site, entries, k - 1);
      }
      forall i | 0 <= i < k ensures file.lines[i].targetKey != file.lines[k].targetKey {
        assert RowPasses(prefix, site, entries, i);
        if file.lines[i].targetKey == file.lines[k].targetKey {
          TargetKeyInjective(prefix, file.lines[i].sha256, file.lines[k].sha256);
        }
      }
    }
  }

  /** A record's source as `copy` and `rollback` find it again. */
  function SourceContent(files: map<Path, Bytes>, record: Record): Result<Bytes, MigrationError> {
    if !SafeRelativePath(record.sourceRelativePath) then Fail(SourceUnavailable)
    else if PathParts(record.sourceRelativePath) !in files then Fail(SourceUnavailable)
    else Ok(files[PathParts(record.sourceRelativePath)])
  }

  /** `copy` and `rollback` open exactly the file that the row's locator resolves to. */
  lemma RecordsNameTheirSources(prefix: string, site: Site, entries: seq<Entry>, lines: seq<Record>, k: nat)
    requires ResolvesCleanly(site) && WrittenFrom(prefix, site, entries, lines) && k < |lines|
    ensures entries[k].row.storagePath in site.resolved
    ensures site.resolved[entries[k].row.storagePath] == PathParts(lines[k].sourceRelativePath)
    ensures SourceContent(site.files, lines[k]).Ok?
    ensures |SourceContent(site.files, lines[k]).value| == entries[k].row.size
  {
    assert RowPasses(prefix, site, entries, k);
    RelativePathRoundTrip(site.resolved[entries[k].row.storagePath]);
  }

  /** The columns' declared widths, CHAR(32) and CHAR(64). */
  predicate FitsColumns(db: Db) {
    forall id :: id in db ==> |db[id].md5| == 32 && |db[id].sha256| == 64
  }

  lemma {:induction false} StripShortens(s: string)
    ensures |PyStrip(s)| <= |s| && (|PyStrip(s)| == |s| ==> PyStrip(s) == s)
  {
    if s != "" && IsPythonSpace(s[0]) {
      StripShortens(s[1..]);
    } else if s != "" && IsPythonSpace(s[|s| - 1]) {
      StripShortens(s[..|s| - 1]);
    }
  }

  /** A digest that fills its column is untouched by either side's trimming. */
  lemma FullDigestIsUntrimmed(s: string, width: nat)
    requires width > 0 && |s| == width && IsLowerHex(PyStrip(s), width)
    ensures PyStrip(s) == s == BTrim(s)
  {
    StripShortens(s);
    assert IsLowerHexDigit(s[0]) && IsLowerHexDigit(s[|s| - 1]);
  }

  /** The generated manifest classifies the table it was generated from as not yet moved. */
  lemma FreshManifestIsAtSource(args: Arguments, site: Site, db: Db, entries: seq<Entry>, file: ManifestFile)
    requires IsScan(db, entries) && Publishable(args, site, |db|, entries) && FitsColumns(db)
    requires Acceptable(file)
    requires |file.lines| == |entries|
    requires WrittenFrom(NormalizeObjectPrefix(args.objectPrefix).value, site, entries, file.lines)
    ensures AllAt(db, TableOf(file.lines), Source)
    ensures ClassifyDatabaseState(db, TableOf(file.lines), |db|) == Ok(if |db| == 0 then Empty else At(Source))
  {
    var prefix := NormalizeObjectPrefix(args.objectPrefix).value;
    var table := TableOf(file.lines);
    AcceptedManifestIsKeyed(file);
    assert |table.Keys| == |table| == |db| == |db.Keys|;
    forall id | id in table ensures id in db && RowAt(db[id], table[id], Source) {
      TableOnlyHoldsRecords(file.lines, id);
      var k :| 0 <= k < |file.lines| && file.lines[k].contentId == id;
      TableLookup(file.lines, k);
      assert RowPasses(prefix, site, entries, k);
      FullDigestIsUntrimmed(entries[k].row.md5, 32);
      FullDigestIsUntrimmed(entries[k].row.sha256, 64);
    }
    SubsetOfSameSize(table.Keys, db.Keys);
    CountsDecideTables(db, table, |db|);
  }

  /** A one-line manifest whose blob keeps its locator: it already is the target key. */
  function KeptLocator(md5: string, sha256: string, size: nat): ManifestFile {
    var key := KeyText("objects", sha256);
    ManifestFile(
      MANIFEST_KIND, MANIFEST_VERSION, Header("", "/", "/", "bucket", "objects", 1),
      [Record(1, key, key, size, md5, sha256, key)])
  }

  lemma ObjectsIsNormal()
    ensures NormalizeObjectPrefix("objects") == Ok("objects")
  {
    var prefix := "objects";
    assert StripLeading(prefix) == prefix && StripTrailing(prefix) == prefix;
    assert SafeSegment(prefix);
    SplitPlain(prefix);
  }

  lemma KeptLocatorIsAccepted(md5: string, sha256: string, size: nat)
    requires IsLowerHex(md5, 32) && IsLowerHex(sha256, 64)
    ensures Acceptable(KeptLocator(md5, sha256, size))
  {
    var file, prefix := KeptLocator(md5, sha256, size), "objects";
    ObjectsIsNormal();
    assert ParseManifestHeader(file) == Ok(file.header);
    assert |KeyText(prefix, sha256)| == |prefix| + 79;
    assert RecordAccepted(prefix, file.lines[0]);
    assert LinePasses(prefix, file.lines, 0);
  }

  lemma CanonicalDigestIsUntrimmed(s: string, width: nat)
    requires width > 0 && IsLowerHex(s, width)
    ensures BTrim(s) == s
  {
    assert IsLowerHexDigit(s[0]) && IsLowerHexDigit(s[|s| - 1]);
  }

  lemma KeptLocatorIsAtSource(md5: string, sha256: string, size: nat, db: Db)
    requires IsLowerHex(md5, 32) && IsLowerHex(sha256, 64)
    requires db == map[1 := Row(md5, sha256, size, KeyText("objects", sha256), None, 1, "")]
    ensures var table := TableOf(KeptLocator(md5, sha256, size).lines);
      |table| == 1 && AllAt(db, table, Source) && !SomeMove(table)
  {
    var lines := KeptLocator(md5, sha256, size).lines;
    assert lines[..0] == [];
    assert TableOf(lines) == map[1 := lines[0]];
    CanonicalDigestIsUntrimmed(md5, 32);
    CanonicalDigestIsUntrimmed(sha256, 64);
  }

  /**
   * The exception to idempotence is real: for a table whose one row keeps its locator, the manifest
   * is accepted, the first cutover reports one row moved, and so does the second.
   */
  lemma RepeatedCutoverMayReportRows(md5: string, sha256: string, size: nat)
    requires IsLowerHex(md5, 32) && IsLowerHex(sha256, 64)
    ensures var file := KeptLocator(md5, sha256, size);
      var db: Db := map[1 := Row(md5, sha256, size, KeyText("objects", sha256), None, 1, "")];
      var table := TableOf(file.lines);
      var (first, once) := Switched(db, table, 1, Target, true);
      && Acceptable(file) && FitsColumns(db) && AllAt(db, table, Source)
      && once == db && first == Ok((At(Source), 1))
      && Switched(once, table, 1, Target, true).0 == first
  {
    var file := KeptLocator(md5, sha256, size);
    var db: Db := map[1 := Row(md5, sha256, size, KeyText("objects", sha256), None, 1, "")];
    var table := TableOf(file.lines);
    KeptLocatorIsAccepted(md5, sha256, size);
    KeptLocatorIsAtSource(md5, sha256, size, db);
    SidesCoincide(db, table);
    UnmovedSwitch(db, table);
  }

  /** The key's pieces: those of the prefix, "sha256", two digits, and the digest's file name. */
  predicate HasKeyPieces(key: string, prefix: string, sha256: string)
    requires |sha256| == 64
  {
    Split(key) == Split(prefix) + ["sha256", sha256[..2], sha256 + ".bin"]
  }

  /** A record as it must look on its own, in terms of its fields' text. */
  predicate WellFormed(prefix: string, record: Record) {
    && record.size >= 0
    && IsDigest(record.md5, 32) && IsDigest(record.sha256, 64)
    && HasKeyPieces(record.targetKey, prefix, record.sha256) && |record.targetKey| <= 512
    && 1 <= |record.sourceLocator| <= 512
  }

  lemma RecordAcceptedIs(prefix: string, record: Record)
    ensures RecordAccepted(prefix, record) <==> WellFormed(prefix, record)
  {
    DigestIs(record.md5, 32);
    DigestIs(record.sha256, 64);
    if IsLowerHex(record.sha256, 64) {
      KeyOfPieces(record.targetKey, prefix, record.sha256);
    }
  }

  /** Ids are positive and strictly increase; no two records share a target key. */
  predicate Ordered(records: seq<Record>) {
    && (forall k :: 0 <= k < |records| ==> records[k].contentId > 0)
    && (forall i, j :: 0 <= i < j < |records| ==>
         records[i].contentId < records[j].contentId && records[i].targetKey != records[j].targetKey)
  }

  lemma OrderedIs(prefix: string, records: seq<Record>)
    ensures RecordsAccepted(prefix, records) <==>
      Ordered(records) && forall k :: 0 <= k < |records| ==> WellFormed(prefix, records[k])
  {
    forall k | 0 <= k < |records| ensures RecordAccepted(prefix, records[k]) <==> WellFormed(prefix, records[k]) {
      RecordAcceptedIs(prefix, records[k]);
    }
    if RecordsAccepted(prefix, records) {
      forall k | 0 <= k < |records| ensures records[k].contentId > 0 && WellFormed(prefix, records[k]) {
        assert LinePasses(prefix, records, k);
        if k > 0 {
          assert LinePasses(prefix, records, 0);
          IdsAreOrdered(prefix, records, 0, k);
        }
      }
      forall i, j | 0 <= i < j < |records|
        ensures records[i].contentId < records[j].contentId && records[i].targetKey != records[j].targetKey
      {
        assert LinePasses(prefix, records, j);
        IdsAreOrdered(prefix, records, i, j);
      }
    }
    if Ordered(records) && forall k :: 0 <= k < |records| ==> WellFormed(prefix, records[k]) {
      forall k | 0 <= k < |records| ensures LinePasses(prefix, records, k) {
        assert WellFormed(prefix, records[k]);
      }
    }
  }

  /** What an accepted manifest is, in terms of its fields' text; the key's pieces are those of the stripped prefix. */
  lemma AcceptedManifestIs(file: ManifestFile, lead: string, core: string, trail: string)
    requires AllSlashes(lead) && AllSlashes(trail) && file.header.objectPrefix == lead + core + trail
    requires core == "" || (core[0] != '/' && core[|core| - 1] != '/')
    ensures Acceptable(file) <==>
      && file.kind == "disk-final-blob-manifest" && file.version == 1
      && NormalizeObjectPrefix(file.header.objectPrefix).Ok?
      && file.header.localRoot != "" && file.header.localRoot[0] == '/'
      && file.header.pathBase != "" && file.header.pathBase[0] == '/'
      && file.header.bucket != ""
      && |file.lines| == file.header.objectCount
      && Ordered(file.lines)
      && forall k :: 0 <= k < |file.lines| ==> WellFormed(core, file.lines[k])
  {
    NormalizesExactly(lead, core, trail);
    OrderedIs(core, file.lines);
  }

  /** A row as the generator demands it, in terms of its fields' text. */
  predicate RowWellFormed(core: string, site: Site, entry: Entry) {
    && entry.id > 0
    && IsDigest(PyStrip(entry.row.md5), 32) && IsDigest(PyStrip(entry.row.sha256), 64)
    && 1 <= |entry.row.storagePath| <= 512 && '\0' !in entry.row.storagePath
    && entry.row.storagePath in site.resolved
    && site.resolved[entry.row.storagePath] in site.files
    && entry.row.size == |site.files[site.resolved[entry.row.storagePath]]|
    && |core| + 79 <= 512
  }

  lemma RowAcceptedIs(core: string, site: Site, entry: Entry)
    ensures RowAccepted(core, site, entry) <==> RowWellFormed(core, site, entry)
  {
    DigestIs(PyStrip(entry.row.md5), 32);
    DigestIs(PyStrip(entry.row.sha256), 64);
    if IsLowerHex(PyStrip(entry.row.sha256), 64) {
      KeyPieces(core, PyStrip(entry.row.sha256));
    }
  }

  /** A table is written exactly when its rows are well formed and no two share a digest or a locator. */
  lemma PassingRowsAre(core: string, site: Site, entries: seq<Entry>)
    ensures AllRowsPass(core, site, entries) <==>
      && (forall k :: 0 <= k < |entries| ==> RowWellFormed(core, site, entries[k]))
      && (forall i, j :: 0 <= i < j < |entries| ==>
           && PyStrip(entries[i].row.sha256) != PyStrip(entries[j].row.sha256)
           && entries[i].row.storagePath != entries[j].row.storagePath)
  {
    forall k | 0 <= k < |entries|
      ensures RowPasses(core, site, entries, k) <==>
        RowWellFormed(core, site, entries[k]) && FreshRow(entries, k)
    {
      RowAcceptedIs(core, site, entries[k]);
    }
    if forall i, j :: 0 <= i < j < |entries| ==>
         && PyStrip(entries[i].row.sha256) != PyStrip(entries[j].row.sha256)
         && entries[i].row.storagePath != entries[j].row.storagePath
    {
      assert forall k :: 0 <= k < |entries| ==> FreshRow(entries, k);
    }
    if AllRowsPass(core, site, entries) {
      forall i, j | 0 <= i < j < |entries|
        ensures PyStrip(entries[i].row.sha256) != PyStrip(entries[j].row.sha256)
        ensures entries[i].row.storagePath != entries[j].row.storagePath
      {
        assert RowPasses(core, site, entries, j);
      }
    }
  }

  /** Every line the generator writes is its row, field by field, with the key the service itself uses. */
  lemma WrittenLinesAre(core: string, site: Site, entries: seq<Entry>, lines: seq<Record>, k: nat)
    requires WrittenFrom(core, site, entries, lines) && k < |lines|
    ensures var line, row := lines[k], entries[k].row;
      && line.contentId == entries[k].id && line.sourceLocator == row.storagePath && line.size == row.size
      && line.md5 == PyStrip(row.md5) && line.sha256 == PyStrip(row.sha256) && |line.sha256| == 64
      && HasKeyPieces(line.targetKey, core, line.sha256) && |line.targetKey| <= 512
  {
    assert RowPasses(core, site, entries, k);
    KeyPieces(core, PyStrip(entries[k].row.sha256));
  }

  predicate AllBlanks(s: string) {
    forall k :: 0 <= k < |s| ==> s[k] == ' '
  }

  lemma {:induction false} PaddingStripped(front: string, s: string, back: string)
    requires AllBlanks(front) && AllBlanks(back)
    requires s != "" && !IsPythonSpace(s[0]) && !IsPythonSpace(s[|s| - 1])
    ensures PyStrip(front + s + back) == s && BTrim(front + s + back) == s
    decreases |front| + |back|
  {
    var text := front + s + back;
    if front != "" {
      assert text[0] == ' ' && text[1..] == front[1..] + s + back;
      PaddingStripped(front[1..], s, back);
    } else if back != "" {
      var n := |back| - 1;
      assert text[0] == s[0] && text[|text| - 1] == ' ' && text[..|text| - 1] == front + s + back[..n];
      PaddingStripped(front, s, back[..n]);
    } else {
      assert text == s;
    }
  }

  /** A digest padded with blanks, as a wider column returns it, is the digest again for both sides. */
  lemma PaddedDigestIsTrimmed(front: string, digest: string, back: string, width: nat)
    requires AllBlanks(front) && AllBlanks(back) && width > 0 && IsLowerHex(digest, width)
    ensures PyStrip(front + digest + back) == digest == BTrim(front + digest + back)
  {
    assert IsLowerHexDigit(digest[0]) && IsLowerHexDigit(digest[|digest| - 1]);
    PaddingStripped(front, digest, back);
  }

  /**
   * A record's source is found exactly if its path is not absolute, never steps up, and leads from the
   * root down to one of the files below it; whatever is read is that file.
   */
  lemma SourceIsBelowRoot(files: map<Path, Bytes>, record: Record, root: Path)
    ensures var relative, source := record.sourceRelativePath, SourceContent(files, record);
      && (source.Ok? <==>
           && !(relative != "" && relative[0] == '/')
           && ".." !in Split(relative)
           && PathParts(relative) != [] && PathParts(relative) in files)
      && (source.Ok? ==>
           Walk(root, Split(relative)) == root + PathParts(relative) && source.value == files[PathParts(relative)])
  {
    var relative := record.sourceRelativePath;
    UnsafePathsAre(relative);
    NothingSignificant(Split(relative));
    if SafeRelativePath(relative) {
      SafePathStaysBelow(root, relative);
    }
  }
}
