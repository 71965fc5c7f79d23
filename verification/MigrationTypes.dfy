/** Entities shared by the final-blob migration: table rows, manifest records and blobs. */
module MigrationTypes {
  import opened Blobs
  import opened Outcomes

  /** A local file below the local root, as the parts of its relative path. */
  type Path = seq<string>

  /** MD5 and SHA-256 as lower-case hex digests; nothing is assumed about them. */
  datatype Hashes = Hashes(md5: Bytes -> string, sha256: Bytes -> string)

  /** A row of `file_contents` without its primary key. */
  datatype Row = Row(
    md5: string,
    sha256: string,
    size: int,
    storagePath: string,
    mimeType: Option<string>,
    refCount: int,
    createdAt: string)

  type Db = map<int, Row>

  datatype Record = Record(
    contentId: int,
    sourceLocator: string,
    sourceRelativePath: string,
    size: int,
    md5: string,
    sha256: string,
    targetKey: string)

  /** Which of a record's two locations a `storage_path` names. */
  datatype Side = Source | Target

  function Other(side: Side): Side {
    if side == Source then Target else Source
  }

  datatype MigrationError =
    | InvalidArgument
    | UnpublishableManifest
    | UnsafePrefix
    | KeyTooLong
    | InvalidRow
    | DuplicateHash
    | DuplicateSource
    | SourceUnavailable
    | SnapshotChanged
    | InvalidHeader
    | InvalidRecord
    | DuplicateTarget
    | CountMismatch
    | ConstraintViolated
    | SetDiffers
    | DriftedOrMixed
    | SwitchCountMismatch
    | LockUnavailable
    | HashMismatch
    | TargetSizeMismatch
    | TargetMissing
    | CheckpointInUse
    | CheckpointInvalid
    | NotVerified

  /** How far a copy that ends well has gone: through everything, or to its cap if that comes first. */
  predicate StopsAtCap(records: nat, cap: Option<nat>, processed: nat) {
    match cap
    case None => processed == records
    case Some(limit) => processed <= limit && (processed == records || (processed < records && processed == limit))
  }

  const MAX_STORAGE_PATH_LENGTH := 512

  /** Size, MD5 and SHA-256 of the content all equal those of the record. */
  predicate ContentMatches(hashes: Hashes, record: Record, content: Bytes) {
    |content| == record.size && hashes.md5(content) == record.md5 && hashes.sha256(content) == record.sha256
  }
}
