/** Names the migration builds and checks: digests, object prefixes, target keys, relative paths. */
module ObjectKeys {
  import opened Outcomes
  import opened MigrationTypes
  import opened Text

  predicate IsLowerHex(value: string, length: nat) {
    |value| == length && forall k :: 0 <= k < |value| ==> IsLowerHexDigit(value[k])
  }

  function StripLeading(s: string): string {
    if s != "" && s[0] == '/' then StripLeading(s[1..]) else s
  }

  function StripTrailing(s: string): string {
    if s != "" && s[|s| - 1] == '/' then StripTrailing(s[..|s| - 1]) else s
  }

  predicate IsAsciiAlphanumeric(c: char) {
    'a' <= c <= 'z' || 'A' <= c <= 'Z' || IsDigit(c)
  }

  predicate SafeCharacter(c: char) {
    IsAsciiAlphanumeric(c) || c == '.' || c == '_' || c == '-'
  }

  predicate SafeSegment(segment: string) {
    && segment != "" && segment != "." && segment != ".."
    && forall k :: 0 <= k < |segment| ==> SafeCharacter(segment[k])
  }

  function NormalizeObjectPrefix(value: string): Result<string, MigrationError> {
    var prefix := StripTrailing(StripLeading(value));
    if prefix == "" || |prefix| > 1024 || '\\' in prefix then Fail(UnsafePrefix)
    else
      var segments := Split(prefix);
      if forall k :: 0 <= k < |segments| ==> SafeSegment(segments[k]) then Ok(prefix) else Fail(UnsafePrefix)
  }

  /** Python's `s[:2]`. */
  function FirstTwo(s: string): string {
    if |s| < 2 then s else s[..2]
  }

  function KeyText(prefix: string, sha256: string): string {
    prefix + "/sha256/" + FirstTwo(sha256) + "/" + sha256 + ".bin"
  }

  function TargetKeyFor(prefix: string, sha256: string): Result<string, MigrationError> {
    var key := KeyText(prefix, sha256);
    if |key| > MAX_STORAGE_PATH_LENGTH then Fail(KeyTooLong) else Ok(key)
  }

  function Significant(parts: seq<string>): Path {
    if parts == [] then []
    else if parts[0] == "" || parts[0] == "." then Significant(parts[1..])
    else [parts[0]] + Significant(parts[1..])
  }

  /** The parts of a POSIX relative path: empty and "." components vanish. */
  function PathParts(relative: string): Path {
    Significant(Split(relative))
  }

  /** A component of a resolved path. */
  predicate CleanComponent(part: string) {
    part != "" && part != "." && part != ".." && '/' !in part
  }

  predicate CleanPath(path: Path) {
    path != [] && forall k :: 0 <= k < |path| ==> CleanComponent(path[k])
  }

  /** What a record's relative source path must look like before it is joined to the root. */
  predicate SafeRelativePath(relative: string) {
    && !(relative != "" && relative[0] == '/')
    && PathParts(relative) != []
    && ".." !in PathParts(relative)
  }

  lemma {:induction false} NoLeadingSlash(s: string)
    ensures var t := StripLeading(s); t == "" || t[0] != '/'
  {
    if s != "" && s[0] == '/' {
      NoLeadingSlash(s[1..]);
    }
  }

  lemma {:induction false} TrailingKeepsFront(s: string)
    ensures StripTrailing(s) <= s
    ensures var t := StripTrailing(s); t == "" || t[|t| - 1] != '/'
  {
    if s != "" && s[|s| - 1] == '/' {
      TrailingKeepsFront(s[..|s| - 1]);
    }
  }

  /** The reader normalises a prefix the writer has already normalised: nothing changes. */
  lemma NormalizeIsIdempotent(value: string)
    ensures var once := NormalizeObjectPrefix(value);
      once.Ok? ==> NormalizeObjectPrefix(once.value) == once
  {
    NoLeadingSlash(value);
    TrailingKeepsFront(StripLeading(value));
  }

  /** Under one prefix, distinct digests have distinct keys. */
  lemma TargetKeyInjective(prefix: string, a: string, b: string)
    requires IsLowerHex(a, 64) && IsLowerHex(b, 64)
    requires KeyText(prefix, a) == KeyText(prefix, b)
    ensures a == b
  {
    var front := |prefix| + |"/sha256/"| + 3;
    assert forall s: string :: |s| == 64 ==> KeyText(prefix, s)[front..front + 64] == s;
  }

  lemma {:induction false} CleanPartsSurvive(path: Path)
    requires forall k :: 0 <= k < |path| ==> CleanComponent(path[k])
    ensures Significant(path) == path
  {
    if path != [] {
      CleanPartsSurvive(path[1..]);
      assert [path[0]] + path[1..] == path;
    }
  }

  /** A resolved path written into a record is read back as the same path, and is accepted. */
  lemma RelativePathRoundTrip(path: Path)
    requires CleanPath(path)
    ensures SafeRelativePath(Join(path)) && PathParts(Join(path)) == path
  {
    forall k | 0 <= k < |path| ensures '/' !in path[k] && path[k] != ".." {
      assert CleanComponent(path[k]);
    }
    SplitJoin(path);
    CleanPartsSurvive(path);
    assert CleanComponent(path[0]);
    if |path| > 1 {
      assert Join(path)[0] == path[0][0];
    }
  }

  predicate IsHexDigit(c: char) {
    exists d :: 0 <= d < 16 && "0123456789abcdef"[d] == c
  }

  lemma HexDigitsAre(c: char)
    ensures IsLowerHexDigit(c) <==> IsHexDigit(c)
  {
    var digits := "0123456789abcdef";
    if IsDigit(c) {
      assert digits[c as int - '0' as int] == c;
    } else if IsLowerHexDigit(c) {
      assert digits[c as int - 'a' as int + 10] == c;
    }
  }

  /** A digest as the tool demands it: so many characters, each one of the sixteen lower-case hex digits. */
  predicate IsDigest(s: string, width: nat) {
    |s| == width && forall k :: 0 <= k < |s| ==> IsHexDigit(s[k])
  }

  lemma DigestIs(s: string, width: nat)
    ensures IsLowerHex(s, width) <==> IsDigest(s, width)
  {
    forall k | 0 <= k < |s| ensures IsLowerHexDigit(s[k]) <==> IsHexDigit(s[k]) {
      HexDigitsAre(s[k]);
    }
  }

  lemma SplitNames(prefix: string, first: string, second: string, third: string)
    requires '/' !in first && '/' !in second && '/' !in third
    ensures Split(prefix + "/" + (first + "/" + (second + "/" + third))) == Split(prefix) + [first, second, third]
  {
    SplitPlain(third);
    SplitPiece(second, third);
    SplitPiece(first, second + "/" + third);
    SplitConcatenation(prefix, first + "/" + (second + "/" + third));
  }

  lemma KeyGroups(prefix: string, first: string, second: string, third: string, key: string)
    requires key == prefix + ("/" + first + "/") + second + "/" + third
    ensures key == prefix + "/" + (first + "/" + (second + "/" + third))
  {
  }

  /** A target key is the prefix followed by "sha256", the digest's first two digits, and the digest's file. */
  lemma KeyPieces(prefix: string, sha256: string)
    requires IsLowerHex(sha256, 64)
    ensures Split(KeyText(prefix, sha256)) == Split(prefix) + ["sha256", sha256[..2], sha256 + ".bin"]
    ensures |KeyText(prefix, sha256)| == |prefix| + 79
  {
    var directory, name := sha256[..2], sha256 + ".bin";
    assert forall k :: 0 <= k < |sha256| ==> IsLowerHexDigit(sha256[k]);
    assert "/sha256/" == "/" + "sha256" + "/";
    KeyGroups(prefix, "sha256", directory, name, KeyText(prefix, sha256));
    SplitNames(prefix, "sha256", directory, name);
  }

  /** The pieces determine the key, so a text with the pieces of a target key is the target key. */
  lemma KeyOfPieces(key: string, prefix: string, sha256: string)
    requires IsLowerHex(sha256, 64)
    ensures key == KeyText(prefix, sha256) <==>
      Split(key) == Split(prefix) + ["sha256", sha256[..2], sha256 + ".bin"]
  {
    KeyPieces(prefix, sha256);
    JoinSplit(key);
    JoinSplit(KeyText(prefix, sha256));
  }

  predicate AllSlashes(s: string) {
    forall k :: 0 <= k < |s| ==> s[k] == '/'
  }

  lemma {:induction false} LeadStripped(lead: string, rest: string)
    requires AllSlashes(lead) && (rest == "" || rest[0] != '/')
    ensures StripLeading(lead + rest) == rest
  {
    if lead == "" {
      assert lead + rest == rest;
    } else {
      assert (lead + rest)[1..] == lead[1..] + rest;
      LeadStripped(lead[1..], rest);
    }
  }

  lemma {:induction false} TrailStripped(front: string, trail: string)
    requires AllSlashes(trail) && (front == "" || front[|front| - 1] != '/')
    ensures StripTrailing(front + trail) == front
  {
    if trail == "" {
      assert front + trail == front;
    } else {
      var n := |trail| - 1;
      assert (front + trail)[..|front + trail| - 1] == front + trail[..n];
      TrailStripped(front, trail[..n]);
    }
  }

  /** Every character of a name is a slash or in one of its pieces. */
  lemma {:induction false} PiecesHoldCharacters(s: string, i: nat) returns (k: nat)
    requires i < |s| && s[i] != '/'
    ensures k < |Split(s)| && s[i] in Split(s)[k]
  {
    var rest := Split(s[1..]);
    if i == 0 {
      k := 0;
    } else {
      k := PiecesHoldCharacters(s[1..], i - 1);
      if s[0] == '/' {
        k := k + 1;
      }
    }
  }

  lemma BackslashIsUnsafe(core: string)
    requires '\\' in core
    ensures exists k :: 0 <= k < |Split(core)| && !SafeSegment(Split(core)[k])
  {
    var i :| 0 <= i < |core| && core[i] == '\\';
    var k := PiecesHoldCharacters(core, i);
    assert !SafeSegment(Split(core)[k]);
  }

  lemma SafeSegmentIs(piece: string)
    ensures SafeSegment(piece) <==>
      && piece != "" && piece != "." && piece != ".."
      && forall c :: c in piece ==>
           'a' <= c <= 'z' || 'A' <= c <= 'Z' || '0' <= c <= '9' || c == '.' || c == '_' || c == '-'
  {
    assert forall k :: 0 <= k < |piece| ==> piece[k] in piece;
  }

  lemma StrippedCore(lead: string, core: string, trail: string)
    requires AllSlashes(lead) && AllSlashes(trail)
    requires core == "" || (core[0] != '/' && core[|core| - 1] != '/')
    ensures StripTrailing(StripLeading(lead + core + trail)) == core
  {
    if core == "" {
      assert AllSlashes(lead + trail) && lead + core + trail == lead + trail;
      LeadStripped(lead + trail, "");
      assert lead + trail + "" == lead + trail;
    } else {
      assert lead + core + trail == lead + (core + trail);
      LeadStripped(lead, core + trail);
      TrailStripped(core, trail);
    }
  }

  /**
   * A prefix is accepted exactly when, without the slashes around it, it is 1 to 1024 characters of
   * non-empty pieces of ASCII letters, digits, dots, underscores and dashes, none "." or "..".
   */
  lemma NormalizesExactly(lead: string, core: string, trail: string)
    requires AllSlashes(lead) && AllSlashes(trail)
    requires core == "" || (core[0] != '/' && core[|core| - 1] != '/')
    ensures var r := NormalizeObjectPrefix(lead + core + trail);
      && (r.Ok? ==> r.value == core)
      && (r.Ok? <==>
           && 1 <= |core| <= 1024
           && forall piece :: piece in Split(core) ==>
                && piece != "" && piece != "." && piece != ".."
                && forall c :: c in piece ==>
                     'a' <= c <= 'z' || 'A' <= c <= 'Z' || '0' <= c <= '9' || c == '.' || c == '_' || c == '-')
  {
    StrippedCore(lead, core, trail);
    forall piece { SafeSegmentIs(piece); }
    assert (forall k :: 0 <= k < |Split(core)| ==> SafeSegment(Split(core)[k])) <==>
      forall piece :: piece in Split(core) ==> SafeSegment(piece);
    if '\\' in core {
      BackslashIsUnsafe(core);
    }
  }

  /** Walking a relative path from a directory as a file system does: ".." goes up, "" and "." stay. */
  function Walk(at: Path, parts: seq<string>): Path
    decreases parts
  {
    if parts == [] then at
    else if parts[0] == "" || parts[0] == "." then Walk(at, parts[1..])
    else if parts[0] == ".." then Walk(if at == [] then [] else at[..|at| - 1], parts[1..])
    else Walk(at + [parts[0]], parts[1..])
  }

  lemma {:induction false} WalkDescends(at: Path, parts: seq<string>)
    requires ".." !in Significant(parts)
    ensures Walk(at, parts) == at + Significant(parts)
    decreases parts
  {
    if parts != [] {
      var below := if parts[0] == "" || parts[0] == "." then at else at + [parts[0]];
      WalkDescends(below, parts[1..]);
    }
  }

  /** An accepted relative path is not absolute and leads from any root to its parts below that root. */
  lemma SafePathStaysBelow(root: Path, relative: string)
    requires SafeRelativePath(relative)
    ensures relative != "" && relative[0] != '/'
    ensures PathParts(relative) != [] && Walk(root, Split(relative)) == root + PathParts(relative)
  {
    WalkDescends(root, Split(relative));
  }

  lemma {:induction false} DotDotIsSignificant(parts: seq<string>)
    ensures ".." in Significant(parts) <==> ".." in parts
  {
    if parts != [] {
      DotDotIsSignificant(parts[1..]);
      assert parts == [parts[0]] + parts[1..];
    }
  }

  lemma {:induction false} NothingSignificant(parts: seq<string>)
    ensures Significant(parts) == [] <==> forall k :: 0 <= k < |parts| ==> parts[k] == "" || parts[k] == "."
  {
    if parts != [] {
      NothingSignificant(parts[1..]);
      assert forall k :: 0 < k < |parts| ==> parts[k] == parts[1..][k - 1];
      assert forall k :: 0 <= k < |parts| - 1 ==> parts[1..][k] == parts[k + 1];
    }
  }

  /** A relative path is refused exactly if it is absolute, steps up, or names nothing. */
  lemma UnsafePathsAre(relative: string)
    ensures !SafeRelativePath(relative) <==>
      || (relative != "" && relative[0] == '/')
      || ".." in Split(relative)
      || forall k :: 0 <= k < |Split(relative)| ==> Split(relative)[k] == "" || Split(relative)[k] == "."
  {
    DotDotIsSignificant(Split(relative));
    NothingSignificant(Split(relative));
  }

  /** Every text is slashes, a core, and slashes. */
  lemma {:induction false} EveryTextHasCore(value: string) returns (lead: string, core: string, trail: string)
    ensures value == lead + core + trail && AllSlashes(lead) && AllSlashes(trail)
    ensures core == "" || (core[0] != '/' && core[|core| - 1] != '/')
  {
    if value == "" {
      lead, core, trail := "", "", "";
    } else if value[0] == '/' {
      lead, core, trail := EveryTextHasCore(value[1..]);
      lead := "/" + lead;
    } else if value[|value| - 1] == '/' {
      lead, core, trail := EveryTextHasCore(value[..|value| - 1]);
      trail := trail + "/";
    } else {
      lead, core, trail := "", value, "";
    }
  }
}
