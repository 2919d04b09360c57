// Bundle paths, links and the canonical manifest (scripts/src/bundle.rs).
module BundleManifest {
  import opened Wrappers
  import opened Bytes
  import opened Text

  // ---------------------------------------------------------------------- paths

  datatype Component = RootDir | CurDir | ParentDir | Normal(name: string)

  /** `Path::components`: empty pieces vanish, and so does `.` except as the first piece of a relative path. */
  function Components(s: string): seq<Component> {
    if s != "" && s[0] == '/' then [RootDir] + Pieces(Split(s[1..], '/'), false) else Pieces(Split(s, '/'), true)
  }

  function Piece(part: string, first: bool): seq<Component> {
    if part == "" then []
    else if part == "." then (if first then [CurDir] else [])
    else if part == ".." then [ParentDir]
    else [Normal(part)]
  }

  function Pieces(parts: seq<string>, first: bool): seq<Component> {
    if parts == [] then [] else Piece(parts[0], first) + Pieces(parts[1..], false)
  }

  function NormalNames(components: seq<Component>): seq<string> {
    if components == [] then []
    else (if components[0].Normal? then [components[0].name] else []) + NormalNames(components[1..])
  }

  /** `validate_relative_path`, test by test. */
  predicate ValidRelativePath(value: string) {
    && value != ""
    && value[|value| - 1] != '/'
    && value[0] != '/'
    && (forall c | c in Components(value) :: c.Normal?)
    && Join(NormalNames(Components(value)), '/') == value
  }

  predicate IsPlainName(name: string) { name != "" && name != "." && name != ".." }

  lemma {:induction false} PlainPieces(parts: seq<string>, first: bool)
    requires forall p | p in parts :: IsPlainName(p)
    ensures NormalNames(Pieces(parts, first)) == parts
    ensures forall c | c in Pieces(parts, first) :: c.Normal?
  {
    if parts != [] {
      PlainPieces(parts[1..], false);
      var rest := Pieces(parts[1..], false);
      assert parts[0] in parts;
      assert Pieces(parts, first) == [Normal(parts[0])] + rest;
      assert ([Normal(parts[0])] + rest)[1..] == rest;
    }
  }

  lemma {:induction false} NormalNamesArePlain(parts: seq<string>, first: bool)
    ensures forall n | n in NormalNames(Pieces(parts, first)) :: IsPlainName(n) && n in parts
  {
    if parts != [] {
      NormalNamesArePlain(parts[1..], false);
      var piece, rest := Piece(parts[0], first), Pieces(parts[1..], false);
      if piece == [] {
        assert piece + rest == rest;
      } else {
        assert (piece + rest)[1..] == rest;
      }
    }
  }

  lemma EdgesOfSplit(value: string)
    ensures value == "" ==> "" in Split(value, '/')
    ensures value != "" && value[0] == '/' ==> "" in Split(value, '/')
    ensures value != "" && value[|value| - 1] == '/' ==> "" in Split(value, '/')
  {
    assert value == "" ==> Split(value, '/')[0] == "";
    if value != "" && value[|value| - 1] == '/' {
      assert value == value[..|value| - 1] + ['/'] + "";
      SplitConcat(value[..|value| - 1], "", '/');
    }
  }

  /** A path is accepted exactly when each of its pieces is a plain name. */
  lemma RelativePathIsPlain(value: string)
    ensures ValidRelativePath(value) <==> forall p | p in Split(value, '/') :: IsPlainName(p)
  {
    var parts := Split(value, '/');
    JoinSplit(value, '/');
    EdgesOfSplit(value);
    if forall p | p in parts :: IsPlainName(p) {
      PlainPieces(parts, true);
    }
    if ValidRelativePath(value) {
      var names := NormalNames(Components(value));
      NormalNamesArePlain(parts, true);
      SplitHasNoSeparator(value, '/');
      SplitJoin(names, '/');
      assert names == parts;
    }
  }

  predicate IsDescendant(candidate: string, ancestor: string) {
    ancestor <= candidate && |candidate| > |ancestor| && candidate[|ancestor|] == '/'
  }

  /** The textual test decides ancestry in the tree. */
  lemma DescendantIsBelow(candidate: string, ancestor: string)
    ensures IsDescendant(candidate, ancestor) <==> Split(ancestor, '/') < Split(candidate, '/')
  {
    if IsDescendant(candidate, ancestor) { BelowByText(candidate, ancestor); }
    if Split(ancestor, '/') < Split(candidate, '/') { BelowByParts(candidate, ancestor); }
  }

  lemma BelowByText(candidate: string, ancestor: string)
    requires IsDescendant(candidate, ancestor)
    ensures Split(ancestor, '/') < Split(candidate, '/')
  {
    var rest := candidate[|ancestor| + 1..];
    assert candidate == ancestor + ['/'] + rest;
    SplitConcat(ancestor, rest, '/');
  }

  lemma BelowByParts(candidate: string, ancestor: string)
    requires Split(ancestor, '/') < Split(candidate, '/')
    ensures IsDescendant(candidate, ancestor)
  {
    var a, c := Split(ancestor, '/'), Split(candidate, '/');
    JoinSplit(ancestor, '/');
    JoinSplit(candidate, '/');
    var rest := c[|a|..];
    assert c == a + rest;
    JoinConcat(a, rest, '/');
    assert candidate == ancestor + ['/'] + Join(rest, '/');
  }

  /** A descendant sorts after its ancestor, so a scan of the later entries finds every one. */
  lemma DescendantIsLater(candidate: string, ancestor: string)
    requires IsDescendant(candidate, ancestor)
    ensures Less(ancestor, candidate)
  {
    PrefixIsLess(ancestor, candidate);
  }

  // ---------------------------------------------------------------------- links

  datatype BundleError =
    | InvalidArchive(detail: string) | ManifestMustBeFirst | InvalidManifest(detail: string) | NonCanonicalManifest
    | UnsafePath(path: string) | DuplicateArchiveEntry(path: string) | UnsafeLink(path: string)
    | SymlinkAncestor(path: string) | UnexpectedArchiveEntry(path: string) | MissingArchiveEntry(path: string)
    | EntryMismatch(path: string) | FileSizeMismatch(path: string) | FileHashMismatch(path: string)
    | TrailingArchiveData | Io(detail: string)

  function Rise(c: Component): int {
    match c case Normal(_) => 1 case ParentDir => -1 case _ => 0
  }

  /** How far below the root a walk of the components ends, the root itself being zero. */
  function Depth(start: int, components: seq<Component>): int
    decreases |components|
  {
    if components == [] then start else Depth(start + Rise(components[0]), components[1..])
  }

  function ParentDepth(path: string): nat { |Split(path, '/')| - 1 }

  /** Read as text, the target never climbs above the root of the tree at any point. */
  predicate StaysInside(path: string, target: string) {
    && target != "" && target[0] != '/'
    && forall k | 0 <= k <= |Components(target)| :: Depth(ParentDepth(path), Components(target)[..k]) >= 0
  }

  /** The running test of the code. */
  predicate NeverClimbs(depth: nat, components: seq<Component>)
    decreases |components|
  {
    components == [] || (depth + Rise(components[0]) >= 0 && NeverClimbs(depth + Rise(components[0]), components[1..]))
  }

  lemma {:induction false} NeverClimbsIsEveryPrefix(depth: nat, components: seq<Component>)
    ensures NeverClimbs(depth, components) <==> forall k | 0 <= k <= |components| :: Depth(depth, components[..k]) >= 0
    decreases |components|
  {
    if components != [] {
      var next := depth + Rise(components[0]);
      forall k | 0 < k <= |components| ensures Depth(depth, components[..k]) == Depth(next, components[1..][..k - 1]) {
        assert components[..k][1..] == components[1..][..k - 1];
      }
      assert Depth(next, components[1..][..0]) == next;
      if next >= 0 {
        NeverClimbsIsEveryPrefix(next, components[1..]);
        if forall k | 0 <= k <= |components| :: Depth(depth, components[..k]) >= 0 {
          forall k | 0 <= k <= |components[1..]| ensures Depth(next, components[1..][..k]) >= 0 {
            assert Depth(depth, components[..k + 1]) >= 0;
          }
        }
      } else {
        assert Depth(depth, components[..1]) == next;
      }
    }
  }

  method WalkTarget(start: nat, components: seq<Component>) returns (inside: bool)
    ensures inside <==> NeverClimbs(start, components)
  {
    var depth := start;
    for n := 0 to |components|
      invariant NeverClimbs(start, components) <==> NeverClimbs(depth, components[n..])
    {
      assert components[n..][1..] == components[n + 1..];
      if components[n].Normal? {
        depth := depth + 1;
      } else if components[n].ParentDir? {
        if depth == 0 { return false; }
        depth := depth - 1;
      }
    }
    return true;
  }

  /** `validate_link` on a path already accepted. Roots cannot occur in a target that does not start with `/`. */
  method ValidateLink(path: string, target: string) returns (r: Result<(), BundleError>)
    requires ValidRelativePath(path)
    ensures r.Ok? <==> StaysInside(path, target)
  {
    if target == "" || target[0] == '/' { return Err(UnsafeLink(path)); }
    var components := Components(target);
    NeverClimbsIsEveryPrefix(ParentDepth(path), components);
    var inside := WalkTarget(ParentDepth(path), components);
    if !inside { return Err(UnsafeLink(path)); }
    return Ok(());
  }

  // ------------------------------------------------------------------- manifest

  const BUNDLE_PLATFORM := "linux/arm64"
  const MAX_ENTRIES: nat := 1_000_000
  const MAX_EXPANDED_BYTES: nat := 64 * 1024 * 1024 * 1024
  type U64 = n: int | 0 <= n <= 0xFFFF_FFFF_FFFF_FFFF

  datatype ManifestEntry =
    | File(path: string, size: U64, sha256: string)
    | Directory(path: string)
    | Symlink(path: string, target: string)

  datatype Document = Document(version: nat, platform: string, files: seq<ManifestEntry>)

  predicate IsLowerSha256(value: string) {
    |value| == 64 && IsHexDigits(value)
  }

  function SizeOf(e: ManifestEntry): nat { if e.File? then e.size else 0 }

  function TotalSize(files: seq<ManifestEntry>): nat {
    if files == [] then 0 else TotalSize(files[..|files| - 1]) + SizeOf(files[|files| - 1])
  }

  /** What a canonical manifest is, without reference to the order in which it is checked. */
  ghost predicate IsCanonical(files: seq<ManifestEntry>) {
    && (forall e | e in files :: ValidRelativePath(e.path))
    && (forall i, j | 0 <= i < j < |files| :: Less(files[i].path, files[j].path))
    && (forall e | e in files && e.File? :: IsLowerSha256(e.sha256))
    && (forall e | e in files && e.Symlink? :: StaysInside(e.path, e.target))
    && (forall a, b | a in files && b in files && a.Symlink? :: !IsDescendant(b.path, a.path))
  }

  ghost predicate IsManifest(doc: Document) {
    && doc.version == 1 && doc.platform == BUNDLE_PLATFORM && |doc.files| <= MAX_ENTRIES
    && IsCanonical(doc.files)
    && TotalSize(doc.files) <= MAX_EXPANDED_BYTES
  }

  /** The test the loop applies to one entry: it looks one entry back for order and forward for descendants. */
  predicate EntryAccepted(files: seq<ManifestEntry>, n: nat)
    requires n < |files|
  {
    var e := files[n];
    && ValidRelativePath(e.path)
    && (n > 0 ==> Less(files[n - 1].path, e.path))
    && (e.File? ==> IsLowerSha256(e.sha256))
    && (e.Symlink?
      ==> StaysInside(e.path, e.target) && forall k | n < k < |files| :: !IsDescendant(files[k].path, e.path))
  }

  predicate AllAccepted(files: seq<ManifestEntry>) {
    forall n | 0 <= n < |files| :: EntryAccepted(files, n)
  }

  lemma {:induction false} AdjacentOrderIsTotal(files: seq<ManifestEntry>, i: nat, j: nat)
    requires i < j < |files| && forall n | 0 < n < |files| :: Less(files[n - 1].path, files[n].path)
    ensures Less(files[i].path, files[j].path)
  {
    if i < j - 1 {
      AdjacentOrderIsTotal(files, i, j - 1);
      LessTransitive(files[i].path, files[j - 1].path, files[j].path);
    }
  }

  /** The forward scan misses nothing: descendants of a symlink can only come later in a sorted manifest. */
  lemma ForwardScanIsComplete(files: seq<ManifestEntry>)
    ensures AllAccepted(files) <==> IsCanonical(files)
  {
    if AllAccepted(files) {
      forall i, j | 0 <= i < j < |files| ensures Less(files[i].path, files[j].path) {
        forall n | 0 < n < |files| ensures Less(files[n - 1].path, files[n].path) { assert EntryAccepted(files, n); }
        AdjacentOrderIsTotal(files, i, j);
      }
      forall i, j | 0 <= i < |files| && 0 <= j < |files| && files[i].Symlink?
        ensures !IsDescendant(files[j].path, files[i].path)
      {
        assert EntryAccepted(files, i);
        if j < i { NotBelowLater(files[i].path, files[j].path); }
      }
      forall e | e in files
        ensures ValidRelativePath(e.path) && (e.File? ==> IsLowerSha256(e.sha256))
          && (e.Symlink? ==> StaysInside(e.path, e.target))
      {
        var n :| 0 <= n < |files| && files[n] == e;
        assert EntryAccepted(files, n);
      }
    }
  }

  lemma NotBelowLater(later: string, earlier: string)
    requires Less(earlier, later)
    ensures !IsDescendant(earlier, later)
  {
    if IsDescendant(earlier, later) {
      DescendantIsLater(earlier, later);
      LessTransitive(earlier, later, earlier);
      LessIrreflexive(earlier);
    }
  }

  lemma {:induction false} TotalSizeGrows(files: seq<ManifestEntry>, n: nat)
    requires n <= |files|
    ensures TotalSize(files[..n]) <= TotalSize(files)
  {
    if n < |files| {
      TotalSizeGrows(files[..|files| - 1], n);
      assert files[..|files| - 1][..n] == files[..n];
    } else {
      assert files[..n] == files;
    }
  }

  lemma TotalSizeStep(files: seq<ManifestEntry>, n: nat)
    requires n < |files|
    ensures TotalSize(files[..n + 1]) == TotalSize(files[..n]) + SizeOf(files[n])
  {
    assert files[..n + 1][..n] == files[..n];
  }

  method ValidateEntry(files: seq<ManifestEntry>, n: nat) returns (r: Result<(), BundleError>)
    requires n < |files|
    ensures r.Ok? <==> EntryAccepted(files, n)
  {
    var entry := files[n];
    if !ValidRelativePath(entry.path) { return Err(UnsafePath(entry.path)); }
    if n > 0 && !Less(files[n - 1].path, entry.path) { return Err(NonCanonicalManifest); }
    match entry {
      case File(_, _, sha256) =>
        if !IsLowerSha256(sha256) { return Err(InvalidManifest("invalid SHA-256")); }
      case Directory(_) =>
      case Symlink(path, target) =>
        var link := ValidateLink(path, target);
        if link.Err? { return link; }
        if exists k | n < k < |files| :: IsDescendant(files[k].path, path) { return Err(SymlinkAncestor(path)); }
    }
    return Ok(());
  }

  /** The checked addition of one entry's size. */
  method AddSize(files: seq<ManifestEntry>, n: nat, expanded: nat) returns (sum: Option<nat>)
    requires n < |files| && expanded == TotalSize(files[..n])
    ensures sum.None? ==> TotalSize(files) > U64_MAX
    ensures sum.Some? ==> sum.value == TotalSize(files[..n + 1]) <= U64_MAX
  {
    TotalSizeStep(files, n);
    if expanded + SizeOf(files[n]) > U64_MAX {
      TotalSizeGrows(files, n + 1);
      return None;
    }
    return Some(expanded + SizeOf(files[n]));
  }

  /** The loop over the entries, with the running total of file sizes. */
  method ValidateEntries(files: seq<ManifestEntry>) returns (r: Result<nat, BundleError>)
    ensures r.Ok? <==> AllAccepted(files) && TotalSize(files) <= U64_MAX
    ensures r.Ok? ==> r.value == TotalSize(files)
  {
    var expanded: nat := 0;
    for n := 0 to |files|
      invariant forall k | 0 <= k < n :: EntryAccepted(files, k)
      invariant expanded == TotalSize(files[..n]) <= U64_MAX
    {
      var entry := ValidateEntry(files, n);
      if entry.Err? { return Err(entry.error); }
      var sum := AddSize(files, n, expanded);
      if sum.None? { return Err(InvalidManifest("expanded size overflow")); }
      expanded := sum.value;
    }
    assert files[..|files|] == files;
    return Ok(expanded);
  }

  method ValidateManifest(doc: Document) returns (r: Result<(), BundleError>)
    ensures r.Ok? <==> IsManifest(doc)
  {
    if doc.version != 1 || doc.platform != BUNDLE_PLATFORM {
      return Err(InvalidManifest("unsupported version or platform"));
    }
    if |doc.files| > MAX_ENTRIES { return Err(InvalidManifest("manifest entry limit exceeded")); }
    ForwardScanIsComplete(doc.files);
    var expanded := ValidateEntries(doc.files);
    if expanded.Err? { return Err(expanded.error); }
    if expanded.value > MAX_EXPANDED_BYTES { return Err(InvalidManifest("expanded file size limit exceeded")); }
    return Ok(());
  }
}
