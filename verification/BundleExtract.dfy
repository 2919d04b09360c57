// Validation of an expanded archive against its manifest (scripts/src/bundle.rs).
module BundleExtract {
  import opened Wrappers
  import opened Bytes
  import opened BundleManifest

  const MANIFEST_PATH := "bundle-manifest.json"
  const MAX_MANIFEST_BYTES: nat := 16 * 1024 * 1024

  datatype EntryKind = RegularEntry | DirectoryEntry | SymlinkEntry | OtherEntry

  datatype ArchiveEntry = ArchiveEntry(path: string, kind: EntryKind, bytes: seq<byte>, linkName: Option<string>)

  // ------------------------------------------------------------------ validation

  /** The manifest entry for a path, as the linear search finds it. */
  function Find(files: seq<ManifestEntry>, path: string): (r: Option<ManifestEntry>)
    ensures r.Some? ==> r.value in files && r.value.path == path
    ensures r.None? ==> forall e | e in files :: e.path != path
  {
    if files == [] then None
    else if files[0].path == path then Some(files[0])
    else Find(files[1..], path)
  }

  predicate Matches(entry: ArchiveEntry, expected: ManifestEntry, sha256: seq<byte> -> string) {
    match expected
    case File(_, size, hash) => entry.kind.RegularEntry? && |entry.bytes| == size && sha256(entry.bytes) == hash
    case Directory(_) => entry.kind.DirectoryEntry?
    case Symlink(_, target) => entry.kind.SymlinkEntry? && entry.linkName == Some(target)
  }

  predicate DistinctPaths(entries: seq<ArchiveEntry>) {
    forall i, j | 0 <= i < j < |entries| :: entries[i].path != entries[j].path
  }

  function Paths(entries: seq<ArchiveEntry>): set<string> { set e | e in entries :: e.path }

  function ManifestPaths(files: seq<ManifestEntry>): set<string> { set e | e in files :: e.path }

  predicate IsExpected(entry: ArchiveEntry, files: seq<ManifestEntry>, sha256: seq<byte> -> string) {
    Find(files, entry.path).Some? && Matches(entry, Find(files, entry.path).value, sha256)
  }

  predicate AllExpected(rest: seq<ArchiveEntry>, files: seq<ManifestEntry>, sha256: seq<byte> -> string) {
    forall e | e in rest :: IsExpected(e, files, sha256)
  }

  lemma AllExpectedStep(rest: seq<ArchiveEntry>, n: nat, files: seq<ManifestEntry>, sha256: seq<byte> -> string)
    requires n < |rest| && AllExpected(rest[..n], files, sha256) && IsExpected(rest[n], files, sha256)
    ensures AllExpected(rest[..n + 1], files, sha256)
  {
  }

  /** The payload entries and the manifest entries correspond one to one. */
  predicate Corresponds(rest: seq<ArchiveEntry>, files: seq<ManifestEntry>, sha256: seq<byte> -> string) {
    && DistinctPaths(rest)
    && AllExpected(rest, files, sha256)
    && ManifestPaths(files) <= Paths(rest)
  }

  method ValidateEntryContent(entry: ArchiveEntry, expected: ManifestEntry, sha256: seq<byte> -> string)
      returns (r: Result<(), BundleError>)
    ensures r.Ok? <==> Matches(entry, expected, sha256)
  {
    match expected {
      case File(path, size, hash) =>
        if !entry.kind.RegularEntry? { return Err(EntryMismatch(path)); }
        if |entry.bytes| != size { return Err(FileSizeMismatch(path)); }
        if sha256(entry.bytes) != hash { return Err(FileHashMismatch(path)); }
      case Directory(path) =>
        if !entry.kind.DirectoryEntry? { return Err(EntryMismatch(path)); }
      case Symlink(path, target) =>
        if !entry.kind.SymlinkEntry? { return Err(EntryMismatch(path)); }
        if entry.linkName != Some(target) { return Err(UnsafeLink(path)); }
    }
    return Ok(());
  }

  lemma PathsStep(rest: seq<ArchiveEntry>, n: nat)
    requires n < |rest| && DistinctPaths(rest[..n])
    ensures Paths(rest[..n + 1]) == Paths(rest[..n]) + {rest[n].path}
    ensures rest[n].path in Paths(rest[..n]) ==> !DistinctPaths(rest)
    ensures rest[n].path !in Paths(rest[..n]) ==> DistinctPaths(rest[..n + 1])
  {
    assert rest[..n + 1] == rest[..n] + [rest[n]];
    if rest[n].path in Paths(rest[..n]) {
      var k :| 0 <= k < n && rest[..n][k].path == rest[n].path;
      assert rest[k].path == rest[n].path;
    } else {
      forall k | 0 <= k < n ensures rest[k].path != rest[n].path { assert rest[..n][k] in rest[..n]; }
    }
  }

  lemma {:induction false} ManifestPathsCount(files: seq<ManifestEntry>)
    ensures |ManifestPaths(files)| <= |files|
  {
    if files != [] {
      ManifestPathsCount(files[1..]);
      assert files == [files[0]] + files[1..];
      assert ManifestPaths(files) == {files[0].path} + ManifestPaths(files[1..]);
    }
  }

  lemma PayloadFitsLimit(rest: seq<ArchiveEntry>, files: seq<ManifestEntry>, sha256: seq<byte> -> string)
    requires |files| <= MAX_ENTRIES && AllExpected(rest, files, sha256)
    ensures |Paths(rest)| <= MAX_ENTRIES
  {
    ManifestPathsCount(files);
    assert Paths(rest) <= ManifestPaths(files);
    SubsetSize(Paths(rest), ManifestPaths(files));
  }

  method ValidateExpected(entry: ArchiveEntry, files: seq<ManifestEntry>, sha256: seq<byte> -> string)
      returns (r: Result<(), BundleError>)
    ensures r.Ok? <==> IsExpected(entry, files, sha256)
  {
    var expected := Find(files, entry.path);
    if expected.None? { return Err(UnexpectedArchiveEntry(entry.path)); }
    r := ValidateEntryContent(entry, expected.value, sha256);
  }

  /** Every payload entry once, expected and matching; then every manifest entry seen. */
  method ValidatePayload(rest: seq<ArchiveEntry>, files: seq<ManifestEntry>, sha256: seq<byte> -> string)
      returns (r: Result<(), BundleError>)
    requires |files| <= MAX_ENTRIES && forall e | e in files :: ValidRelativePath(e.path)
    ensures r.Ok? <==> Corresponds(rest, files, sha256)
  {
    var seen: set<string> := {};
    for n := 0 to |rest|
      invariant seen == Paths(rest[..n]) && DistinctPaths(rest[..n])
      invariant AllExpected(rest[..n], files, sha256)
    {
      var entry := rest[n];
      if !ValidRelativePath(entry.path) {
        assert !IsExpected(entry, files, sha256);
        return Err(UnsafePath(entry.path));
      }
      PathsStep(rest, n);
      if entry.path in seen { return Err(DuplicateArchiveEntry(entry.path)); }
      seen := seen + {entry.path};
      var expected := ValidateExpected(entry, files, sha256);
      if |seen| > MAX_ENTRIES {
        if expected.Ok? { AllExpectedStep(rest, n, files, sha256); PayloadFitsLimit(rest[..n + 1], files, sha256); }
        return Err(InvalidArchive("archive entry limit exceeded"));
      }
      if expected.Err? { return expected; }
      AllExpectedStep(rest, n, files, sha256);
    }
    assert rest[..|rest|] == rest;
    if missing :| missing in files && missing.path !in seen { return Err(MissingArchiveEntry(missing.path)); }
    return Ok(());
  }

  /** What `validate_expanded_archive` accepts, for a given manifest decoder and hash. */
  ghost predicate IsBundle(entries: seq<ArchiveEntry>, doc: Document, decode: seq<byte> -> Option<Document>,
      sha256: seq<byte> -> string) {
    && entries != [] && entries[0].path == MANIFEST_PATH && entries[0].kind.RegularEntry?
    && |entries[0].bytes| <= MAX_MANIFEST_BYTES && decode(entries[0].bytes) == Some(doc)
    && IsManifest(doc) && Corresponds(entries[1..], doc.files, sha256)
  }

  method ValidateExpandedArchive(entries: seq<ArchiveEntry>, decode: seq<byte> -> Option<Document>,
      sha256: seq<byte> -> string)
    returns (r: Result<Document, BundleError>)
    ensures r.Ok? ==> IsBundle(entries, r.value, decode, sha256)
    ensures r.Err? ==> forall doc :: !IsBundle(entries, doc, decode, sha256)
  {
    if entries == [] { return Err(ManifestMustBeFirst); }
    var first := entries[0];
    if first.path != MANIFEST_PATH || !first.kind.RegularEntry? { return Err(ManifestMustBeFirst); }
    if |first.bytes| > MAX_MANIFEST_BYTES { return Err(InvalidManifest("manifest exceeds size limit")); }
    var decoded := decode(first.bytes);
    if decoded.None? { return Err(InvalidManifest("undecodable")); }
    var valid := ValidateManifest(decoded.value);
    if valid.Err? { return Err(valid.error); }
    var payload := ValidatePayload(entries[1..], decoded.value.files, sha256);
    if payload.Err? { return Err(payload.error); }
    return Ok(decoded.value);
  }
}
