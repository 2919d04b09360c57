// Fetching and installing the engine's boot artifacts (crates/gascan-core/src/engine_artifacts.rs): everything is
// staged and verified beside the live paths, and only then promoted. A disk is the contents of its files.
module Fetch {
  import opened Wrappers
  import opened Bytes

  type File = seq<byte>

  /** A path below the artifact root, by component. */
  type Path = seq<string>

  type Disk = map<Path, File>

  const KERNEL: Path := ["vmlinux"]
  const VMINIT: Path := ["vminit"]
  const STAGING: Path := [".staging"]
  const STAGED_KERNEL: Path := [".staging", "vmlinux"]
  const UNPACKED: Path := [".staging", "unpacked"]
  const STAGED_VMINIT: Path := [".staging", "unpacked", "vminit"]

  datatype Content = Content(bytes: nat, sha256: string)

  /** An asset is named by a plain file name; what it holds has its own length and digest. */
  datatype Artifact = Artifact(asset: string, download: Content, content: Content)

  datatype Pin = Pin(kernel: Artifact, vminit: Artifact)

  datatype ArtifactError = Download(asset: string) | Digest(what: string) | Unpack(asset: string) | Io

  /** Digests and the decoding of an image index are taken from outside. */
  datatype Formats = Formats(sha256: File -> string, index: File -> Option<seq<Descriptor>>)

  /** A manifest descriptor; a missing digest reads as the empty string. */
  datatype Descriptor = Descriptor(digest: string, size: Option<nat>)

  /** What a tool reports and what it leaves at the place it was told to write. */
  datatype Tool = Tool(ok: bool, written: Option<File>)

  datatype Untar = Untar(ok: bool, written: map<Path, File>)

  /**
   * How every outside step of one fetch turns out. A removal is given by the paths it fails to remove.
   */
  datatype World = World(
    rootReady: bool, clearing: set<Path>, stagingCreated: bool,
    kernelDownload: Tool, gunzip: Tool,
    vminitDownload: Tool, unpackedCreated: bool, untar: Untar,
    kernelRemoved: bool, vminitRemoval: set<Path>, kernelRenamed: bool, vminitRenamed: bool,
    cleanup: set<Path>)

  // --------------------------------------------------------------------------- contents

  function Look(d: Disk, p: Path): Option<File> { if p in d then Some(d[p]) else None }

  predicate Empty(d: Disk, dir: Path) { forall p | p in d :: !(dir <= p) }

  function Written(d: Disk, p: Path, file: Option<File>): (e: Disk)
    ensures Look(e, p) == file && forall q | q != p :: Look(e, q) == Look(d, q)
  {
    if file.Some? then d[p := file.value] else d - {p}
  }

  /** Everything under `dir` goes, except what survives a failed removal. */
  function Removed(d: Disk, dir: Path, survivors: set<Path>): (e: Disk)
    ensures forall q :: Look(e, q) == if dir <= q && q !in survivors then None else Look(d, q)
  {
    map q | q in d && (dir <= q ==> q in survivors) :: d[q]
  }

  /** `dir` gains the extracted files, each under its own relative path. */
  function Unpacked(d: Disk, dir: Path, tree: map<Path, File>): (e: Disk)
    ensures forall q | !(dir <= q) :: Look(e, q) == Look(d, q)
    ensures forall r | r in tree :: Look(e, dir + r) == Some(tree[r])
  {
    var placed := set r | r in tree :: dir + r;
    assert forall r | r in tree :: dir + r in placed && (dir + r)[|dir|..] == r;
    map q | q in d.Keys + placed :: if q in placed then tree[q[|dir|..]] else d[q]
  }

  /** Moves a whole directory onto a path nothing lies under. */
  function Renamed(d: Disk, from: Path, to: Path): (e: Disk)
    requires Empty(d, to) && !(from <= to) && !(to <= from)
    ensures forall r :: Look(e, to + r) == Look(d, from + r)
    ensures forall q | !(from <= q) && !(to <= q) :: Look(e, q) == Look(d, q)
    ensures Empty(e, from)
  {
    var moved := Moved(d, from, to);
    map q | q in d.Keys + moved && !(from <= q) :: if to <= q then d[from + q[|to|..]] else d[q]
  }

  /** Where the files under `from` go when it becomes `to`. */
  function Moved(d: Disk, from: Path, to: Path): (moved: set<Path>)
    ensures forall q | q in moved :: to <= q && from + q[|to|..] in d
    ensures forall r | from + r in d :: to + r in moved
  {
    assert forall p | p in d && from <= p :: from + p[|from|..] == p && (to + p[|from|..])[|to|..] == p[|from|..];
    assert forall r | from + r in d :: from <= from + r && (from + r)[|from|..] == r;
    set p | p in d && from <= p :: to + p[|from|..]
  }

  // ----------------------------------------------------------------------- verification

  predicate FileOk(formats: Formats, file: Option<File>, expected: Content) {
    file.Some? && |file.value| == expected.bytes && formats.sha256(file.value) == expected.sha256
  }

  /** `require_file`: the length first, then the digest. */
  method RequireFile(formats: Formats, file: Option<File>, what: string, expected: Content)
      returns (r: Result<(), ArtifactError>)
    ensures r.Ok? <==> FileOk(formats, file, expected)
  {
    if file.None? { return Err(Io); }
    if |file.value| != expected.bytes { return Err(Digest(what + " length")); }
    if formats.sha256(file.value) != expected.sha256 { return Err(Digest(what + " sha256")); }
    return Ok(());
  }

  /** The index names one manifest, the expected one, and the blob of that name is what its name says. */
  predicate LayoutOk(formats: Formats, d: Disk, dir: Path, expected: Content) {
    && var index := Look(d, dir + ["index.json"]);
    && index.Some?
    && formats.index(index.value) == Some([Descriptor("sha256:" + expected.sha256, Some(expected.bytes))])
    && FileOk(formats, Look(d, dir + ["blobs", "sha256", expected.sha256]), expected)
  }

  /** `require_oci_manifest` */
  method RequireOciManifest(formats: Formats, d: Disk, dir: Path, expected: Content)
      returns (r: Result<(), ArtifactError>)
    ensures r.Ok? <==> LayoutOk(formats, d, dir, expected)
  {
    var index := Look(d, dir + ["index.json"]);
    if index.None? { return Err(Io); }
    var manifests := formats.index(index.value);
    if manifests.None? || |manifests.value| != 1 { return Err(Unpack("index.json")); }
    var manifest := manifests.value[0];
    if manifest.digest != "sha256:" + expected.sha256 { return Err(Digest("vminit OCI manifest digest")); }
    if manifest.size != Some(expected.bytes) { return Err(Digest("vminit OCI manifest size")); }
    assert manifests.value == [Descriptor("sha256:" + expected.sha256, Some(expected.bytes))];
    r := RequireFile(formats, Look(d, dir + ["blobs", "sha256", expected.sha256]), "vminit OCI manifest blob",
      expected);
  }

  /** `verify_installed` */
  method VerifyInstalled(formats: Formats, pin: Pin, d: Disk) returns (r: Result<(), ArtifactError>)
    ensures r.Ok? <==> Installed(formats, pin, d)
  {
    r := RequireFile(formats, Look(d, KERNEL), "the installed kernel", pin.kernel.content);
    if r.Ok? { r := RequireOciManifest(formats, d, VMINIT, pin.vminit.content); }
  }

  ghost predicate Installed(formats: Formats, pin: Pin, d: Disk) {
    FileOk(formats, Look(d, KERNEL), pin.kernel.content) && LayoutOk(formats, d, VMINIT, pin.vminit.content)
  }

  // ------------------------------------------------------------------------- live paths

  predicate IsLive(p: Path) { p == KERNEL || VMINIT <= p }

  ghost predicate SameLive(d: Disk, e: Disk) { forall p | IsLive(p) :: Look(d, p) == Look(e, p) }

  lemma StagedIsNotLive(p: Path)
    requires STAGING <= p
    ensures !IsLive(p)
  {
    assert p[0] == ".staging";
  }

  lemma StagedNames(asset: string)
    ensures STAGING + [asset] == STAGED_KERNEL <==> asset == "vmlinux"
    ensures !(UNPACKED <= STAGED_KERNEL) && STAGING <= UNPACKED && STAGING <= STAGED_VMINIT
  {
    assert (STAGING + [asset])[1] == asset && STAGED_KERNEL[1] == "vmlinux" && |"vmlinux"| == 7;
    assert UNPACKED[1] == "unpacked" && |"unpacked"| == 8;
  }

  ghost predicate IsNew(d: Disk, staged: Disk)
      { forall r: Path :: Look(d, VMINIT + r) == Look(staged, STAGED_VMINIT + r) }

  /** The live layout is the old one. */
  ghost predicate IsOld(d: Disk, base: Disk) { forall p | VMINIT <= p :: Look(d, p) == Look(base, p) }

  /** The live layout is what a removal cut short has left of the old one. */
  ghost predicate PartOfOld(d: Disk, base: Disk)
      { forall p | VMINIT <= p :: Look(d, p) == None || Look(d, p) == Look(base, p) }

  /**
   * What a crash may leave: the old kernel, none or the staged one, and the old layout, none or the staged one.
   * A removal that stops half way leaves part of the old layout instead.
   */
  ghost predicate Safe(d: Disk, base: Disk, staged: Disk, clean: bool) {
    && (Look(d, KERNEL) == Look(base, KERNEL) || Look(d, KERNEL) == None
      || Look(d, KERNEL) == Look(staged, STAGED_KERNEL))
    && (IsNew(d, staged) || OldOrLess(d, base, clean))
  }

  ghost predicate OldOrLess(d: Disk, base: Disk, clean: bool) {
    if clean then IsOld(d, base) || Empty(d, VMINIT) else PartOfOld(d, base)
  }

  lemma SameLayout(d: Disk, e: Disk, base: Disk, clean: bool)
    requires OldOrLess(d, base, clean) && forall p | VMINIT <= p :: Look(d, p) == Look(e, p)
    ensures OldOrLess(e, base, clean)
  {
    assert forall p | p in e && VMINIT <= p :: Look(d, p) == Look(e, p) && p in d;
  }

  /** Removing the live layout takes all of it or none of it. */
  ghost predicate CleanRemoval(base: Disk, survivors: set<Path>) {
    || (forall p | p in base && VMINIT <= p :: p in survivors)
    || (forall p | p in base && VMINIT <= p :: p !in survivors)
  }

  lemma UntouchedIsSafe(d: Disk, base: Disk, staged: Disk, clean: bool)
    requires SameLive(d, base)
    ensures Safe(d, base, staged, clean)
  {
    assert IsLive(KERNEL);
    assert forall p | VMINIT <= p :: IsLive(p);
  }

  lemma LayoutRemoved(d: Disk, base: Disk, survivors: set<Path>)
    requires IsOld(d, base)
    ensures OldOrLess(Removed(d, VMINIT, survivors), base, CleanRemoval(base, survivors))
  {
    var e := Removed(d, VMINIT, survivors);
    forall p | VMINIT <= p ensures Look(e, p) == None || Look(e, p) == Look(base, p) {
      assert Look(d, p) == Look(base, p);
    }
    if forall p | p in base && VMINIT <= p :: p in survivors {
      forall p | VMINIT <= p ensures Look(e, p) == Look(base, p) { assert Look(d, p) == Look(base, p); }
    } else if forall p | p in base && VMINIT <= p :: p !in survivors {
      forall p | VMINIT <= p ensures Look(e, p) == None { assert Look(d, p) == Look(base, p); }
    }
  }

  lemma LivePaths()
    ensures !(VMINIT <= KERNEL) && !(STAGING <= KERNEL) && !(VMINIT <= STAGED_KERNEL)
      && !(STAGED_VMINIT <= STAGED_KERNEL)
    ensures !(STAGED_VMINIT <= VMINIT) && !(VMINIT <= STAGED_VMINIT) && !(STAGED_VMINIT <= KERNEL)
    ensures KERNEL != STAGED_KERNEL
    ensures forall r: Path :: !(VMINIT <= STAGED_VMINIT + r)
  {
    assert forall r: Path :: (STAGED_VMINIT + r)[0] == ".staging";
    assert KERNEL[0] == "vmlinux" && VMINIT[0] == "vminit" && STAGING[0] == ".staging" && |".staging"| == 8;
    assert STAGED_KERNEL[1] == "vmlinux" && STAGED_VMINIT[1] == "unpacked" && |"unpacked"| == 8 && |"vmlinux"| == 7;
  }

  /** Only the live paths matter. */
  lemma SafeIsLive(d: Disk, e: Disk, base: Disk, staged: Disk, clean: bool)
    requires Safe(d, base, staged, clean) && SameLive(e, d)
    ensures Safe(e, base, staged, clean)
  {
    assert IsLive(KERNEL) && forall p | VMINIT <= p :: IsLive(p);
    assert forall r: Path :: IsLive(VMINIT + r);
    if OldOrLess(d, base, clean) { SameLayout(d, e, base, clean); }
  }

  // ------------------------------------------------------------------- what tools deliver

  /** What promotion starts from. */
  ghost predicate Verified(formats: Formats, pin: Pin, staged: Disk) {
    && FileOk(formats, Look(staged, STAGED_KERNEL), StagedKernel(pin))
    && LayoutOk(formats, staged, STAGED_VMINIT, pin.vminit.content)
  }

  predicate AllArrives(formats: Formats, pin: Pin, world: World) {
    && KernelArrives(formats, pin, world.kernelDownload, world.gunzip)
    && VminitArrives(formats, pin, world.vminitDownload, world.unpackedCreated, world.untar)
    && world.vminitRemoval == {} && world.kernelRenamed && world.vminitRenamed
  }

  /** The staging directory could be set up. */
  predicate Smooth(world: World) { world.rootReady && world.clearing == {} && world.stagingCreated }

  predicate KernelArrives(formats: Formats, pin: Pin, download: Tool, gunzip: Tool) {
    && download.ok && FileOk(formats, download.written, pin.kernel.download)
    && gunzip.ok && FileOk(formats, gunzip.written, pin.kernel.content)
  }

  predicate VminitArrives(formats: Formats, pin: Pin, download: Tool, created: bool, untar: Untar) {
    && download.ok && FileOk(formats, download.written, pin.vminit.download)
    && created && untar.ok && LayoutIn(formats, untar.written, pin.vminit.content)
  }

  /** The extracted files hold a good layout under `vminit`. */
  predicate LayoutIn(formats: Formats, tree: map<Path, File>, expected: Content) {
    && ["vminit", "index.json"] in tree
    && ["vminit", "blobs", "sha256", expected.sha256] in tree
    && LayoutOk(formats, tree, VMINIT, expected)
  }

  lemma LayoutArrives(formats: Formats, e: Disk, tree: map<Path, File>, expected: Content)
    requires LayoutIn(formats, tree, expected) && forall r | r in tree :: Look(e, UNPACKED + r) == Some(tree[r])
    ensures LayoutOk(formats, e, STAGED_VMINIT, expected)
  {
    var index, blob: Path := ["vminit", "index.json"], ["vminit", "blobs", "sha256", expected.sha256];
    assert VMINIT + ["index.json"] == index && VMINIT + ["blobs", "sha256", expected.sha256] == blob;
    assert STAGED_VMINIT + ["index.json"] == UNPACKED + index;
    assert STAGED_VMINIT + ["blobs", "sha256", expected.sha256] == UNPACKED + blob;
  }

  // ------------------------------------------------------------------------- operations

  /** What a fetch does to the disk, one operation at a time; each comes with how it turns out. */
  datatype Op =
    | Deliver(path: Path, written: Option<File>)
    | Extract(tree: map<Path, File>)
    | Discard(dir: Path, survivors: set<Path>)
    | RemoveKernel(removed: bool)
    | MoveKernel
    | MoveLayout

  function Effect(op: Op, d: Disk): Disk {
    match op
    case Deliver(path, written) => Written(d, path, written)
    case Extract(tree) => Unpacked(d, UNPACKED, tree)
    case Discard(dir, survivors) => Removed(d, dir, survivors)
    case RemoveKernel(removed) => if removed then Written(d, KERNEL, None) else d
    case MoveKernel => Written(Written(d, STAGED_KERNEL, None), KERNEL, Look(d, STAGED_KERNEL))
    case MoveLayout =>
      if Empty(d, VMINIT) then
        assert !(STAGED_VMINIT <= VMINIT) && !(VMINIT <= STAGED_VMINIT) by { LivePaths(); }
        Renamed(d, STAGED_VMINIT, VMINIT)
      else d
  }

  /** The disk after these operations. */
  function Final(d: Disk, ops: seq<Op>): Disk {
    if ops == [] then d else Effect(ops[|ops| - 1], Final(d, ops[..|ops| - 1]))
  }

  lemma {:induction false} FinalOnce(d: Disk, ops: seq<Op>, op: Op)
    ensures Final(d, ops + [op]) == Effect(op, Final(d, ops))
  {
    assert (ops + [op])[..|ops|] == ops;
  }

  lemma {:induction false} FinalConcat(d: Disk, a: seq<Op>, b: seq<Op>)
    ensures Final(d, a + b) == Final(Final(d, a), b)
  {
    if b == [] {
      assert a + b == a;
    } else {
      var init := b[..|b| - 1];
      FinalConcat(d, a, init);
      assert (a + b)[..|a + b| - 1] == a + init && (a + b)[|a + b| - 1] == b[|b| - 1];
    }
  }

  // ------------------------------------------------------------------ the order of a fetch

  /** The kernel: download, and unless the asset is not what was pinned, decompress. */
  function KernelOps(formats: Formats, pin: Pin, download: Tool, gunzip: Tool): seq<Op> {
    [Deliver(STAGING + [pin.kernel.asset], download.written)]
    + (if download.ok && FileOk(formats, download.written, pin.kernel.download) then
         [Deliver(STAGED_KERNEL, gunzip.written)]
       else [])
  }

  /** vminit: download, and unless the asset is not what was pinned, unpack. */
  function VminitOps(formats: Formats, pin: Pin, download: Tool, created: bool, untar: Untar): seq<Op> {
    [Deliver(STAGING + [pin.vminit.asset], download.written)]
    + (if download.ok && FileOk(formats, download.written, pin.vminit.download) && created then
         [Extract(untar.written)]
       else [])
  }

  /** Promotion: both live paths go, then both staged ones take their places. A removal may fail unnoticed. */
  function PromoteOps(world: World, d: Disk): seq<Op> {
    [RemoveKernel(world.kernelRemoved)] + [Discard(VMINIT, world.vminitRemoval)]
    + (if !world.kernelRenamed then []
       else [MoveKernel] + (if LayoutMoves(world, d) then [MoveLayout] else []))
  }

  /** Nothing is left where the staged layout has to go. */
  predicate LayoutMoves(world: World, d: Disk) {
    world.vminitRenamed && Empty(Removed(d, VMINIT, world.vminitRemoval), VMINIT)
  }

  predicate Promoted(world: World, d: Disk) { world.kernelRenamed && LayoutMoves(world, d) }

  /** The staging directory could be emptied and made again. */
  predicate Ready(world: World, d: Disk) {
    world.rootReady && world.stagingCreated && Empty(Removed(d, STAGING, world.clearing), STAGING)
  }

  /** Everything before promotion: what is left of an earlier run goes, then both artifacts are staged. */
  function StageOps(formats: Formats, pin: Pin, world: World, d: Disk): seq<Op> {
    if !world.rootReady then []
    else
      var cleared := [Discard(STAGING, world.clearing)];
      if !Ready(world, d) then cleared
      else
        var kernel := KernelOps(formats, pin, world.kernelDownload, world.gunzip);
        if !KernelArrives(formats, pin, world.kernelDownload, world.gunzip) then cleared + kernel
        else cleared + kernel + VminitOps(formats, pin, world.vminitDownload, world.unpackedCreated, world.untar)
  }

  /** The disk when everything is staged, or when staging has stopped. */
  function StagedDisk(formats: Formats, pin: Pin, world: World, d: Disk): Disk {
    Final(d, StageOps(formats, pin, world, d))
  }

  /** The layout of the staged vminit is looked at on the disk it was unpacked to. */
  predicate Promotes(formats: Formats, pin: Pin, world: World, d: Disk) {
    && Ready(world, d) && KernelArrives(formats, pin, world.kernelDownload, world.gunzip)
    && var download := world.vminitDownload;
    && download.ok && FileOk(formats, download.written, pin.vminit.download)
    && world.unpackedCreated && world.untar.ok
    && LayoutOk(formats, StagedDisk(formats, pin, world, d), STAGED_VMINIT, pin.vminit.content)
  }

  /** What follows staging: promotion if there is one, and cleaning up. */
  function AfterStaging(formats: Formats, pin: Pin, world: World, d: Disk): seq<Op> {
    Promoting(formats, pin, world, d) + (if Ready(world, d) then [Discard(STAGING, world.cleanup)] else [])
  }

  function Promoting(formats: Formats, pin: Pin, world: World, d: Disk): seq<Op> {
    if Promotes(formats, pin, world, d) then PromoteOps(world, StagedDisk(formats, pin, world, d)) else []
  }

  /** Everything a fetch does, in order: staging, promotion once everything is verified, and cleaning up. */
  function FetchOps(formats: Formats, pin: Pin, world: World, d: Disk): seq<Op> {
    StageOps(formats, pin, world, d) + AfterStaging(formats, pin, world, d)
  }

  // --------------------------------------------------------------------- what that means

  /** The operation cannot reach outside the staging directory. */
  predicate IsStaging(op: Op) {
    || (op.Deliver? && STAGING <= op.path)
    || op.Extract?
    || (op.Discard? && op.dir == STAGING)
  }

  lemma StagingOpKeepsLive(op: Op, d: Disk)
    requires IsStaging(op)
    ensures SameLive(Effect(op, d), d)
  {
    assert STAGING <= UNPACKED;
    forall p | IsLive(p) ensures Look(Effect(op, d), p) == Look(d, p) {
      if STAGING <= p { StagedIsNotLive(p); }
    }
  }

  lemma {:induction false} StagingKeepsLive(d: Disk, ops: seq<Op>)
    requires forall op | op in ops :: IsStaging(op)
    ensures SameLive(Final(d, ops), d)
  {
    if ops != [] {
      var init := ops[..|ops| - 1];
      StagingKeepsLive(d, init);
      StagingOpKeepsLive(ops[|ops| - 1], Final(d, init));
    }
  }

  lemma StageOpsAreStaging(formats: Formats, pin: Pin, world: World, d: Disk)
    ensures forall op | op in StageOps(formats, pin, world, d) :: IsStaging(op)
  {
    assert STAGING <= STAGED_KERNEL;
  }

  /** Before promotion begins, at every point between two operations, nothing live has changed. */
  lemma {:induction false} NothingLiveIsStaged(formats: Formats, pin: Pin, world: World, d: Disk, n: nat)
    requires n <= |StageOps(formats, pin, world, d)|
    ensures SameLive(Final(d, StageOps(formats, pin, world, d)[..n]), d)
  {
    StageOpsAreStaging(formats, pin, world, d);
    StagingKeepsLive(d, StageOps(formats, pin, world, d)[..n]);
  }

  /**
   * What the staged kernel has been verified against when it is promoted: the kernel's own content, unless the vminit
   * asset has that name too and its download has replaced the file.
   */
  function StagedKernel(pin: Pin): Content {
    if pin.vminit.asset == "vmlinux" then pin.vminit.download else pin.kernel.content
  }

  /** What is promoted has been verified. */
  lemma {:induction false} PromotedIsVerified(formats: Formats, pin: Pin, world: World, d: Disk)
    requires Promotes(formats, pin, world, d)
    ensures Verified(formats, pin, StagedDisk(formats, pin, world, d))
  {
    var cleared := [Discard(STAGING, world.clearing)];
    var kernel := KernelOps(formats, pin, world.kernelDownload, world.gunzip);
    var vminit := VminitOps(formats, pin, world.vminitDownload, world.unpackedCreated, world.untar);
    assert StageOps(formats, pin, world, d) == cleared + kernel + vminit;
    FinalConcat(d, cleared + kernel, vminit);
    FinalConcat(d, cleared, kernel);
    KernelIsStaged(formats, pin, world.kernelDownload, world.gunzip, Final(d, cleared));
    KernelStaysStaged(formats, pin, world.vminitDownload, world.unpackedCreated, world.untar,
      Final(Final(d, cleared), kernel));
  }

  lemma {:induction false} KernelIsStaged(formats: Formats, pin: Pin, download: Tool, gunzip: Tool, d: Disk)
    requires KernelArrives(formats, pin, download, gunzip)
    ensures Look(Final(d, KernelOps(formats, pin, download, gunzip)), STAGED_KERNEL) == gunzip.written
  {
    var first := [Deliver(STAGING + [pin.kernel.asset], download.written)];
    FinalOnce(d, first, Deliver(STAGED_KERNEL, gunzip.written));
  }

  lemma {:induction false} KernelStaysStaged(formats: Formats, pin: Pin, download: Tool, created: bool, untar: Untar,
      d: Disk)
    requires download.ok && FileOk(formats, download.written, pin.vminit.download) && created
    ensures var e := Final(d, VminitOps(formats, pin, download, created, untar));
      Look(e, STAGED_KERNEL) == if pin.vminit.asset == "vmlinux" then download.written else Look(d, STAGED_KERNEL)
  {
    var deliver := Deliver(STAGING + [pin.vminit.asset], download.written);
    StagedNames(pin.vminit.asset);
    FinalOnce(d, [deliver], Extract(untar.written));
    FinalOnce(d, [], deliver);
    assert [] + [deliver] == [deliver];
  }

  /** The disk at each point of a promotion that starts from `d`. */
  ghost predicate PromotionIsSafe(world: World, d: Disk, base: Disk, n: nat)
    requires n <= |PromoteOps(world, d)|
  {
    Safe(Final(d, PromoteOps(world, d)[..n]), base, d, CleanRemoval(base, world.vminitRemoval))
  }

  /** At every point of a promotion each live path holds its old content, nothing, or what was staged. */
  lemma {:induction false} EveryPointIsSafe(world: World, d: Disk, base: Disk, n: nat)
    requires SameLive(d, base) && n <= |PromoteOps(world, d)|
    ensures PromotionIsSafe(world, d, base, n)
  {
    var ops, clean := PromoteOps(world, d), CleanRemoval(base, world.vminitRemoval);
    var d1 := Effect(RemoveKernel(world.kernelRemoved), d);
    var d2 := Effect(Discard(VMINIT, world.vminitRemoval), d1);
    var d3 := Effect(MoveKernel, d2);
    PointsOfPromotion(world, d, n);
    UntouchedIsSafe(d, base, d, clean);
    KernelGone(world.kernelRemoved, d, base, clean);
    LayoutGone(world.vminitRemoval, d, d1, base);
    KernelMoved(d, d2, base, clean);
    if n == 4 { LayoutMoved(d, d3, base, clean); }
  }

  lemma {:induction false} PointsOfPromotion(world: World, d: Disk, n: nat)
    requires n <= |PromoteOps(world, d)|
    ensures var d1 := Effect(RemoveKernel(world.kernelRemoved), d);
      var d2 := Effect(Discard(VMINIT, world.vminitRemoval), d1);
      var d3 := Effect(MoveKernel, d2);
      Final(d, PromoteOps(world, d)[..n])
        == if n == 0 then d else if n == 1 then d1 else if n == 2 then d2 else if n == 3 then d3
           else Effect(MoveLayout, d3)
  {
    var ops := PromoteOps(world, d);
    if n > 0 {
      PointsOfPromotion(world, d, n - 1);
      assert ops[..n] == ops[..n - 1] + [ops[n - 1]];
      FinalOnce(d, ops[..n - 1], ops[n - 1]);
    }
  }

  /** What was staged is still where it was staged. */
  ghost predicate StillStaged(d: Disk, staged: Disk) {
    && Look(d, STAGED_KERNEL) == Look(staged, STAGED_KERNEL)
    && forall r: Path :: Look(d, STAGED_VMINIT + r) == Look(staged, STAGED_VMINIT + r)
  }

  lemma KernelGone(removed: bool, d: Disk, base: Disk, clean: bool)
    requires SameLive(d, base)
    ensures var e := Effect(RemoveKernel(removed), d);
      && Safe(e, base, d, clean) && StillStaged(e, d) && IsOld(e, base)
      && (Look(e, KERNEL) == None || Look(e, KERNEL) == Look(base, KERNEL))
  {
    LivePaths();
    assert IsLive(KERNEL) && forall p | VMINIT <= p :: IsLive(p);
    assert OldOrLess(Effect(RemoveKernel(removed), d), base, clean);
  }

  lemma LayoutGone(survivors: set<Path>, staged: Disk, d: Disk, base: Disk)
    requires IsOld(d, base) && StillStaged(d, staged)
    requires Look(d, KERNEL) == None || Look(d, KERNEL) == Look(base, KERNEL)
    ensures var e, clean := Effect(Discard(VMINIT, survivors), d), CleanRemoval(base, survivors);
      && Safe(e, base, staged, clean) && StillStaged(e, staged) && OldOrLess(e, base, clean)
      && (Look(e, KERNEL) == None || Look(e, KERNEL) == Look(base, KERNEL))
  {
    LivePaths();
    LayoutRemoved(d, base, survivors);
  }

  lemma KernelMoved(staged: Disk, d: Disk, base: Disk, clean: bool)
    requires OldOrLess(d, base, clean) && StillStaged(d, staged)
    ensures var e := Effect(MoveKernel, d);
      && Safe(e, base, staged, clean) && Look(e, KERNEL) == Look(staged, STAGED_KERNEL)
      && (forall r: Path :: Look(e, STAGED_VMINIT + r) == Look(staged, STAGED_VMINIT + r))
      && (forall p | VMINIT <= p :: Look(e, p) == Look(d, p))
  {
    LivePaths();
    SameLayout(d, Effect(MoveKernel, d), base, clean);
  }

  lemma LayoutMoved(staged: Disk, d: Disk, base: Disk, clean: bool)
    requires Empty(d, VMINIT) && Look(d, KERNEL) == Look(staged, STAGED_KERNEL)
    requires forall r: Path :: Look(d, STAGED_VMINIT + r) == Look(staged, STAGED_VMINIT + r)
    ensures var e := Effect(MoveLayout, d);
      Safe(e, base, staged, clean) && Look(e, KERNEL) == Look(staged, STAGED_KERNEL) && IsNew(e, staged)
  {
    LivePaths();
  }

  lemma NewIsInstalled(formats: Formats, pin: Pin, d: Disk, staged: Disk)
    requires Verified(formats, pin, staged) && Look(d, KERNEL) == Look(staged, STAGED_KERNEL) && IsNew(d, staged)
    ensures Installed(formats, pin, d) <==> StagedKernel(pin) == pin.kernel.content
  {
    assert Look(d, VMINIT + ["index.json"]) == Look(staged, STAGED_VMINIT + ["index.json"]);
    var blob: Path := ["blobs", "sha256", pin.vminit.content.sha256];
    assert Look(d, VMINIT + blob) == Look(staged, STAGED_VMINIT + blob);
  }

  /**
   * Crash safety. Wherever a fetch is cut off between two operations: if it never gets to promotion nothing live has
   * changed, and otherwise each live path holds its old content, nothing, or what was verified.
   */
  lemma {:induction false} CrashSafe(formats: Formats, pin: Pin, world: World, d: Disk, n: nat)
    requires n <= |FetchOps(formats, pin, world, d)|
    ensures IsSafePoint(formats, pin, world, d, Final(d, FetchOps(formats, pin, world, d)[..n]))
  {
    var stage, rest := StageOps(formats, pin, world, d), AfterStaging(formats, pin, world, d);
    PrefixFinal(d, stage, rest, n);
    if n <= |stage| {
      NothingLiveIsStaged(formats, pin, world, d, n);
      UntouchedPoint(formats, pin, world, d, Final(d, stage[..n]));
    } else {
      assert stage[..|stage|] == stage;
      NothingLiveIsStaged(formats, pin, world, d, |stage|);
      AfterStagingIsSafe(formats, pin, world, d, n - |stage|);
    }
  }

  lemma {:induction false} PrefixFinal(d: Disk, a: seq<Op>, b: seq<Op>, n: nat)
    requires n <= |a + b|
    ensures Final(d, (a + b)[..n]) == if n <= |a| then Final(d, a[..n]) else Final(Final(d, a), b[..n - |a|])
  {
    if n <= |a| {
      assert (a + b)[..n] == a[..n];
    } else {
      assert (a + b)[..n] == a + b[..n - |a|];
      FinalConcat(d, a, b[..n - |a|]);
    }
  }

  ghost predicate IsSafePoint(formats: Formats, pin: Pin, world: World, d: Disk, e: Disk) {
    if Promotes(formats, pin, world, d) then
      Safe(e, d, StagedDisk(formats, pin, world, d), CleanRemoval(d, world.vminitRemoval))
    else SameLive(e, d)
  }

  lemma UntouchedPoint(formats: Formats, pin: Pin, world: World, d: Disk, e: Disk)
    requires SameLive(e, d)
    ensures IsSafePoint(formats, pin, world, d, e)
  {
    UntouchedIsSafe(e, d, StagedDisk(formats, pin, world, d), CleanRemoval(d, world.vminitRemoval));
  }

  lemma {:induction false} AfterStagingIsSafe(formats: Formats, pin: Pin, world: World, d: Disk, n: nat)
    requires n <= |AfterStaging(formats, pin, world, d)| && SameLive(StagedDisk(formats, pin, world, d), d)
    ensures IsSafePoint(formats, pin, world, d,
      Final(StagedDisk(formats, pin, world, d), AfterStaging(formats, pin, world, d)[..n]))
  {
    var staged, promote := StagedDisk(formats, pin, world, d), Promoting(formats, pin, world, d);
    var clean := Discard(STAGING, world.cleanup);
    PrefixFinal(staged, promote, if Ready(world, d) then [clean] else [], n);
    if n <= |promote| {
      PromotionPoint(formats, pin, world, d, n);
    } else {
      FinalOnce(Final(staged, promote), [], clean);
      assert [clean][..1] == [] + [clean];
      assert promote[..|promote|] == promote;
      PromotionPoint(formats, pin, world, d, |promote|);
      CleanedPoint(formats, pin, world, d, Final(staged, promote));
    }
  }

  lemma {:induction false} PromotionPoint(formats: Formats, pin: Pin, world: World, d: Disk, n: nat)
    requires SameLive(StagedDisk(formats, pin, world, d), d) && n <= |Promoting(formats, pin, world, d)|
    ensures IsSafePoint(formats, pin, world, d,
      Final(StagedDisk(formats, pin, world, d), Promoting(formats, pin, world, d)[..n]))
  {
    if Promotes(formats, pin, world, d) {
      EveryPointIsSafe(world, StagedDisk(formats, pin, world, d), d, n);
    } else {
      UntouchedPoint(formats, pin, world, d, StagedDisk(formats, pin, world, d));
    }
  }

  lemma CleanedPoint(formats: Formats, pin: Pin, world: World, d: Disk, e: Disk)
    requires IsSafePoint(formats, pin, world, d, e)
    ensures IsSafePoint(formats, pin, world, d, Effect(Discard(STAGING, world.cleanup), e))
  {
    var cleaned := Effect(Discard(STAGING, world.cleanup), e);
    StagingOpKeepsLive(Discard(STAGING, world.cleanup), e);
    if Promotes(formats, pin, world, d) {
      SafeIsLive(e, cleaned, d, StagedDisk(formats, pin, world, d), CleanRemoval(d, world.vminitRemoval));
    }
  }

  /** When everything is promoted, what is installed is what was verified. */
  lemma {:induction false} PromotionInstalls(formats: Formats, pin: Pin, world: World, d: Disk)
    requires Promotes(formats, pin, world, d) && Promoted(world, StagedDisk(formats, pin, world, d))
    ensures Installed(formats, pin, Final(d, FetchOps(formats, pin, world, d)))
      <==> StagedKernel(pin) == pin.kernel.content
  {
    var staged := StagedDisk(formats, pin, world, d);
    var promote, clean := PromoteOps(world, staged), Discard(STAGING, world.cleanup);
    FinalConcat(d, StageOps(formats, pin, world, d), promote + [clean]);
    var e := Final(staged, promote);
    FinalOnce(staged, promote, clean);
    PromotionPlaces(world, staged);
    StagingOpKeepsLive(clean, e);
    assert IsLive(KERNEL) && forall r: Path :: IsLive(VMINIT + r);
    PromotedIsVerified(formats, pin, world, d);
    NewIsInstalled(formats, pin, Effect(clean, e), staged);
  }

  lemma {:induction false} PromotionPlaces(world: World, d: Disk)
    requires Promoted(world, d)
    ensures var e := Final(d, PromoteOps(world, d)); Look(e, KERNEL) == Look(d, STAGED_KERNEL) && IsNew(e, d)
  {
    var d3 := AllButTheLayout(world, d);
    AllOfPromotion(world, d);
    LayoutMoved(d, d3, d, true);
  }

  lemma {:induction false} AllOfPromotion(world: World, d: Disk)
    requires Promoted(world, d)
    ensures Final(d, PromoteOps(world, d)) == Effect(MoveLayout,
      Effect(MoveKernel, Effect(Discard(VMINIT, world.vminitRemoval), Effect(RemoveKernel(world.kernelRemoved), d))))
  {
    var ops := PromoteOps(world, d);
    assert ops[..4] == ops;
    PointsOfPromotion(world, d, 4);
  }

  /** The disk when the kernel has been moved and nothing is in the layout's way. */
  lemma {:induction false} AllButTheLayout(world: World, d: Disk) returns (d3: Disk)
    requires Promoted(world, d)
    ensures d3 == Effect(MoveKernel,
      Effect(Discard(VMINIT, world.vminitRemoval), Effect(RemoveKernel(world.kernelRemoved), d)))
    ensures Empty(d3, VMINIT) && Look(d3, KERNEL) == Look(d, STAGED_KERNEL)
    ensures forall r: Path :: Look(d3, STAGED_VMINIT + r) == Look(d, STAGED_VMINIT + r)
  {
    var d1 := Effect(RemoveKernel(world.kernelRemoved), d);
    var d2 := Effect(Discard(VMINIT, world.vminitRemoval), d1);
    d3 := Effect(MoveKernel, d2);
    KernelGone(world.kernelRemoved, d, d, true);
    LayoutGone(world.vminitRemoval, d, d1, d);
    KernelMoved(d, d2, d, CleanRemoval(d, world.vminitRemoval));
    LayoutRoom(world, d);
  }

  /** A world in which nothing fails and everything arrives as pinned: the fetch is promoted. */
  lemma {:induction false} SmoothIsPromoted(formats: Formats, pin: Pin, world: World, d: Disk)
    requires Smooth(world) && AllArrives(formats, pin, world)
    ensures Promotes(formats, pin, world, d) && Promoted(world, StagedDisk(formats, pin, world, d))
  {
    var ops := StageOps(formats, pin, world, d);
    var init := ops[..|ops| - 1];
    assert ops == init + [Extract(world.untar.written)];
    FinalOnce(d, init, Extract(world.untar.written));
    LayoutArrives(formats, StagedDisk(formats, pin, world, d), world.untar.written, pin.vminit.content);
  }

  /** Once staging was set up, what is cleaned up whole leaves nothing behind, however the fetch went. */
  lemma {:induction false} NothingStaysStaged(formats: Formats, pin: Pin, world: World, d: Disk)
    requires Ready(world, d) && world.cleanup == {}
    ensures Empty(Final(d, FetchOps(formats, pin, world, d)), STAGING)
  {
    DiscardedAtTheEnd(d, StageOps(formats, pin, world, d), Promoting(formats, pin, world, d));
  }

  lemma {:induction false} DiscardedAtTheEnd(d: Disk, a: seq<Op>, b: seq<Op>)
    ensures Empty(Final(d, a + (b + [Discard(STAGING, {})])), STAGING)
  {
    assert a + (b + [Discard(STAGING, {})]) == a + b + [Discard(STAGING, {})];
    FinalOnce(d, a + b, Discard(STAGING, {}));
    var e := Final(d, a + b);
    assert forall p | STAGING <= p :: Look(Removed(e, STAGING, {}), p) == None;
  }

  // -------------------------------------------------------------------------------- run

  class Installer {
    const formats: Formats
    const pin: Pin
    const base: Disk
    /** All the operations so far. The disk is what they have made of `base`. */
    var operations: seq<Op>

    constructor (formats: Formats, pin: Pin, base: Disk)
      ensures this.formats == formats && this.pin == pin && this.base == base && operations == []
    {
      this.formats, this.pin, this.base, this.operations := formats, pin, base, [];
    }

    function Now(): Disk
      reads this
    {
      Final(base, operations)
    }

    method Act(op: Op)
      modifies this
      ensures operations == old(operations) + [op] && Now() == Effect(op, old(Now()))
    {
      FinalOnce(base, operations, op);
      operations := operations + [op];
    }

    /** The kernel: download, check the asset, decompress, check what came out. */
    method StageKernel(download: Tool, gunzip: Tool) returns (r: Result<(), ArtifactError>)
      modifies this
      ensures operations == old(operations) + KernelOps(formats, pin, download, gunzip)
      ensures r.Ok? <==> KernelArrives(formats, pin, download, gunzip)
    {
      var asset := STAGING + [pin.kernel.asset];
      Act(Deliver(asset, download.written));
      if !download.ok { return Err(Download(pin.kernel.asset)); }
      r := RequireFile(formats, Look(Now(), asset), pin.kernel.asset, pin.kernel.download);
      if r.Err? { return; }
      Act(Deliver(STAGED_KERNEL, gunzip.written));
      if !gunzip.ok { return Err(Unpack(pin.kernel.asset)); }
      r := RequireFile(formats, Look(Now(), STAGED_KERNEL), "the uncompressed kernel", pin.kernel.content);
    }

    /** vminit: download, check the asset, unpack, check the manifest inside. */
    method StageVminit(download: Tool, created: bool, untar: Untar) returns (r: Result<(), ArtifactError>)
      modifies this
      ensures operations == old(operations) + VminitOps(formats, pin, download, created, untar)
      ensures r.Ok? <==>
        && download.ok && FileOk(formats, download.written, pin.vminit.download) && created && untar.ok
        && LayoutOk(formats, Now(), STAGED_VMINIT, pin.vminit.content)
    {
      var asset := STAGING + [pin.vminit.asset];
      Act(Deliver(asset, download.written));
      if !download.ok { return Err(Download(pin.vminit.asset)); }
      r := RequireFile(formats, Look(Now(), asset), pin.vminit.asset, pin.vminit.download);
      if r.Err? { return; }
      if !created { return Err(Io); }
      Act(Extract(untar.written));
      if !untar.ok { return Err(Unpack(pin.vminit.asset)); }
      r := RequireOciManifest(formats, Now(), STAGED_VMINIT, pin.vminit.content);
    }

    /** Promotion. A removal that fails is not reported; each rename may fail. */
    method Promote(world: World) returns (r: Result<(), ArtifactError>)
      modifies this
      ensures operations == old(operations) + PromoteOps(world, old(Now()))
      ensures r.Ok? <==> Promoted(world, old(Now()))
    {
      ghost var d := Now();
      Act(RemoveKernel(world.kernelRemoved));
      Act(Discard(VMINIT, world.vminitRemoval));
      if !world.kernelRenamed { return Err(Io); }
      Act(MoveKernel);
      LayoutRoom(world, d);
      if !world.vminitRenamed || !Empty(Now(), VMINIT) { return Err(Io); }
      Act(MoveLayout);
      return Ok(());
    }

    method FetchInto(world: World) returns (r: Result<(), ArtifactError>)
      requires operations == [Discard(STAGING, world.clearing)] && Ready(world, base)
      modifies this
      ensures var staged := StagedDisk(formats, pin, world, base);
        && operations == StageOps(formats, pin, world, base) + Promoting(formats, pin, world, base)
        && (r.Ok? <==> Promotes(formats, pin, world, base) && Promoted(world, staged))
    {
      r := StageKernel(world.kernelDownload, world.gunzip);
      if r.Err? { return; }
      r := StageVminit(world.vminitDownload, world.unpackedCreated, world.untar);
      if r.Err? { return; }
      r := Promote(world);
    }

    /** The staging directory starts empty and is removed on the way out, whatever happened. */
    method Fetch(world: World) returns (r: Result<(), ArtifactError>)
      requires operations == []
      modifies this
      ensures operations == FetchOps(formats, pin, world, base)
      ensures r.Ok? <==>
        Promotes(formats, pin, world, base) && Promoted(world, StagedDisk(formats, pin, world, base))
    {
      if !Ready(world, base) { NotReady(formats, pin, world, base); }
      if !world.rootReady { return Err(Io); }
      assert [] + [Discard(STAGING, world.clearing)] == [Discard(STAGING, world.clearing)];
      Act(Discard(STAGING, world.clearing));
      if !world.stagingCreated || !Empty(Now(), STAGING) { return Err(Io); }
      r := FetchInto(world);
      WholeFetch(formats, pin, world, base);
      Act(Discard(STAGING, world.cleanup));
    }
  }

  lemma {:induction false} NotReady(formats: Formats, pin: Pin, world: World, d: Disk)
    requires !Ready(world, d)
    ensures FetchOps(formats, pin, world, d) == if world.rootReady then [Discard(STAGING, world.clearing)] else []
  {
  }

  lemma {:induction false} WholeFetch(formats: Formats, pin: Pin, world: World, d: Disk)
    requires Ready(world, d)
    ensures FetchOps(formats, pin, world, d) == StageOps(formats, pin, world, d) + Promoting(formats, pin, world, d)
      + [Discard(STAGING, world.cleanup)]
  {
    var a, b, c := StageOps(formats, pin, world, d), Promoting(formats, pin, world, d),
      [Discard(STAGING, world.cleanup)];
    assert a + (b + c) == a + b + c;
  }

  lemma LayoutRoom(world: World, d: Disk)
    ensures var d2 := Effect(Discard(VMINIT, world.vminitRemoval), Effect(RemoveKernel(world.kernelRemoved), d));
      Empty(Effect(MoveKernel, d2), VMINIT) <==> Empty(Removed(d, VMINIT, world.vminitRemoval), VMINIT)
  {
    var removed := Removed(d, VMINIT, world.vminitRemoval);
    var d2 := Effect(Discard(VMINIT, world.vminitRemoval), Effect(RemoveKernel(world.kernelRemoved), d));
    var d3 := Effect(MoveKernel, d2);
    LivePaths();
    assert forall p | VMINIT <= p :: Look(d3, p) == Look(removed, p);
    assert forall p | VMINIT <= p :: (p in d3 <==> Look(d3, p).Some?) && (p in removed <==> Look(removed, p).Some?);
  }

  /**
   * One whole fetch: the operations it makes, in order, and the disk they leave. Cut off after any of them, it leaves a
   * safe disk; it succeeds exactly when everything arrives as pinned, verifies and can be moved; and then the
   * installation verifies, unless the vminit asset is named like the staged kernel and is not that kernel.
   */
  method Run(formats: Formats, pin: Pin, world: World, before: Disk)
    returns (r: Result<(), ArtifactError>, after: Disk, operations: seq<Op>)
    ensures operations == FetchOps(formats, pin, world, before) && after == Final(before, operations)
    ensures r.Ok? <==>
      Promotes(formats, pin, world, before) && Promoted(world, StagedDisk(formats, pin, world, before))
    ensures Promotes(formats, pin, world, before) ==> Verified(formats, pin, StagedDisk(formats, pin, world, before))
    ensures forall n | 0 <= n <= |operations| ::
      IsSafePoint(formats, pin, world, before, Final(before, operations[..n]))
    ensures r.Ok? ==>
      (Installed(formats, pin, after) <==> pin.vminit.asset != "vmlinux" || pin.vminit.download == pin.kernel.content)
    ensures Smooth(world) && AllArrives(formats, pin, world) ==> r.Ok?
    ensures Ready(world, before) && world.cleanup == {} ==> Empty(after, STAGING)
  {
    var installer := new Installer(formats, pin, before);
    r := installer.Fetch(world);
    after, operations := installer.Now(), installer.operations;
    forall n | 0 <= n <= |operations|
      ensures IsSafePoint(formats, pin, world, before, Final(before, operations[..n]))
    {
      CrashSafe(formats, pin, world, before, n);
    }
    if Promotes(formats, pin, world, before) { PromotedIsVerified(formats, pin, world, before); }
    if r.Ok? { PromotionInstalls(formats, pin, world, before); }
    if Smooth(world) && AllArrives(formats, pin, world) { SmoothIsPromoted(formats, pin, world, before); }
    if Ready(world, before) && world.cleanup == {} { NothingStaysStaged(formats, pin, world, before); }
  }

  /** The clash does happen, whatever the digest: every step succeeds and what is installed does not verify. */
  method NameClashInstallsWrongKernel(sha256: File -> string)
    returns (r: Result<(), ArtifactError>, after: Disk, formats: Formats, pin: Pin)
    ensures formats.sha256 == sha256 && r.Ok? && !Installed(formats, pin, after)
  {
    var kernel, layout := Content(1, sha256([0])), Content(2, sha256([0, 0]));
    var f := Formats(sha256, _ => Some([Descriptor("sha256:" + layout.sha256, Some(2))]));
    var p := Pin(Artifact("vmlinux.gz", kernel, kernel), Artifact("vmlinux", layout, layout));
    var tree: map<Path, File> := map[["vminit", "index.json"] := [],
      ["vminit", "blobs", "sha256", layout.sha256] := [0, 0]];
    var world := World(true, {}, true, Tool(true, Some([0])), Tool(true, Some([0])), Tool(true, Some([0, 0])), true,
                       Untar(true, tree), true, {}, true, true, {});
    assert VMINIT + ["index.json"] == ["vminit", "index.json"];
    assert VMINIT + ["blobs", "sha256", layout.sha256] == ["vminit", "blobs", "sha256", layout.sha256];
    assert LayoutIn(f, tree, layout);
    var operations;
    r, after, operations := Run(f, p, world, map[]);
    formats, pin := f, p;
  }
}
