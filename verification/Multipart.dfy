/** The part size of a multipart upload. */
module Multipart {
  import opened Arithmetic

  const MIB: nat := 1024 * 1024
  const DEFAULT_MULTIPART_CHUNK_BYTES: nat := 64 * MIB
  const MAX_MULTIPART_PARTS: nat := 10000

  function MultipartChunkSize(size: nat): nat {
    var minimum := CeilDiv(size, MAX_MULTIPART_PARTS);
    var rounded := CeilDiv(minimum, MIB) * MIB;
    if rounded > DEFAULT_MULTIPART_CHUNK_BYTES then rounded else DEFAULT_MULTIPART_CHUNK_BYTES
  }

  /** Whole MiB, no smaller than the default, and few enough parts. */
  predicate Usable(chunk: nat, size: nat) {
    && chunk >= 67_108_864
    && chunk % 1_048_576 == 0
    && CeilDiv(size, chunk) <= 10_000
  }

  /** A multiple of 1 MiB holds a ten-thousandth of the object exactly when it has the rounded-up number of units. */
  lemma UnitsDecide(size: nat, units: nat)
    ensures CeilDiv(size, MAX_MULTIPART_PARTS) <= units * MIB
      <==> CeilDiv(CeilDiv(size, MAX_MULTIPART_PARTS), MIB) <= units
  {
    CeilDivBound(CeilDiv(size, MAX_MULTIPART_PARTS), MIB, units);
  }

  /** Few enough parts means parts of at least a ten-thousandth. */
  lemma PartsDecide(size: nat, chunk: nat)
    requires chunk > 0
    ensures CeilDiv(size, chunk) <= MAX_MULTIPART_PARTS <==> CeilDiv(size, MAX_MULTIPART_PARTS) <= chunk
  {
    CeilDivBound(size, chunk, MAX_MULTIPART_PARTS);
    CeilDivBound(size, MAX_MULTIPART_PARTS, chunk);
  }

  /** The chosen size is usable and is the least usable one, for every object size. */
  lemma ChunkSizeIsLeastUsable(size: nat)
    ensures Usable(MultipartChunkSize(size), size)
    ensures forall chunk: nat :: Usable(chunk, size) ==> MultipartChunkSize(size) <= chunk
  {
    var units := CeilDiv(CeilDiv(size, MAX_MULTIPART_PARTS), MIB);
    UnitsDecide(size, units);
    PartsDecide(size, MultipartChunkSize(size));
    forall chunk: nat | Usable(chunk, size) ensures MultipartChunkSize(size) <= chunk {
      PartsDecide(size, chunk);
      UnitsDecide(size, chunk / MIB);
    }
  }
}
