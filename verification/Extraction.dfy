// The staged tree that the two extraction passes build (scripts/src/bundle.rs, `extract_pass`).
module Extraction {
  import opened Wrappers
  import opened Bytes
  import opened Text
  import opened BundleManifest
  import opened BundleExtract

  /** A location in the tree, from the root down. */
  type Place = seq<string>

  datatype Node = Dir | FileNode(bytes: seq<byte>) | Link(target: string)

  type Tree = map<Place, Node>

  /** Something the archive asks for at a place. */
  datatype Item = Item(place: Place, node: Node)

  // --------------------------------------------------------- what the tree should be

  /** The place is the item's own or lies above it, short of the root. */
  predicate Covers(place: Place, item: Item) { place != [] && place <= item.place }

  /** Exactly the items and the directories above them. */
  ghost predicate Exact(tree: Tree, items: set<Item>) {
    && (forall k | k in tree :: exists i | i in items :: Covers(k, i))
    && (forall i, k {:trigger Covers(k, i)} | i in items && Covers(k, i) :: k in tree)
    && (forall i, k | i in items && k in tree && k == i.place :: tree[k] == i.node)
    && (forall k | k in tree :: tree[k] == Dir || Item(k, tree[k]) in items)
  }

  /** The items determine the tree, so the order in which they were placed cannot matter. */
  lemma ExactIsUnique(a: Tree, b: Tree, items: set<Item>)
    requires Exact(a, items) && Exact(b, items)
    ensures a == b
  {
    Contained(a, b, items);
    Contained(b, a, items);
  }

  lemma Contained(a: Tree, b: Tree, items: set<Item>)
    requires Exact(a, items) && Exact(b, items)
    ensures a.Keys <= b.Keys && forall k | k in a && a[k] != Dir :: b[k] == a[k]
  {
    forall k | k in a ensures k in b {
      var i :| i in items && Covers(k, i);
    }
  }

  /** Something other than a directory sits above the other. */
  predicate Conflict(a: Item, b: Item) {
    (!a.node.Dir? && a.place < b.place) || (!b.node.Dir? && b.place < a.place)
  }

  ghost predicate ConflictFree(items: set<Item>) {
    forall a, b | a in items && b in items :: !Conflict(a, b)
  }

  // --------------------------------------------------------------- one placement

  /** Every directory on the way is there or can be made. */
  predicate CanEnter(tree: Tree, place: Place) {
    forall n | 0 < n <= |place| :: place[..n] in tree ==> tree[place[..n]] == Dir
  }

  function WithDirs(tree: Tree, place: Place): Tree {
    tree + map k | k in Above(place) :: Dir
  }

  /** The place and everything above it, short of the root. */
  function Above(place: Place): set<Place> {
    set n | 0 < n <= |place| :: place[..n]
  }

  function Parent(place: Place): Place
    requires place != []
  {
    place[..|place| - 1]
  }

  predicate CanPlace(tree: Tree, item: Item)
    requires item.place != []
  {
    if item.node.Dir? then CanEnter(tree, item.place) else CanEnter(tree, Parent(item.place)) && item.place !in tree
  }

  function PlaceItem(tree: Tree, item: Item): Tree
    requires item.place != []
  {
    if item.node.Dir? then WithDirs(tree, item.place) else WithDirs(tree, Parent(item.place))[item.place := item.node]
  }

  lemma AboveParent(place: Place)
    requires place != []
    ensures Above(place) == Above(Parent(place)) + {place} && place !in Above(Parent(place))
  {
    assert place[..|place|] == place;
    forall n | 0 < n <= |place| - 1 ensures Parent(place)[..n] == place[..n] {}
  }

  lemma AboveIsCovered(place: Place, k: Place)
    ensures k in Above(place) <==> k != [] && k <= place
  {
    if k != [] && k <= place { assert place[..|k|] == k; }
  }

  lemma EnterableDirs(tree: Tree, place: Place)
    requires CanEnter(tree, place)
    ensures forall k | k in tree && k in Above(place) :: tree[k] == Dir
  {
    forall k | k in tree && k in Above(place) ensures tree[k] == Dir {
      var n :| 0 < n <= |place| && place[..n] == k;
    }
  }

  lemma PlaceItemView(tree: Tree, item: Item)
    requires item.place != [] && CanPlace(tree, item)
    ensures var after := PlaceItem(tree, item);
      && after.Keys == tree.Keys + Above(item.place)
      && (forall k | k in tree :: after[k] == tree[k])
      && item.place in after && after[item.place] == item.node
      && (forall k | k in after && k !in tree && k != item.place :: after[k] == Dir)
  {
    AboveParent(item.place);
    EnterableDirs(tree, if item.node.Dir? then item.place else Parent(item.place));
  }

  /** A successful placement adds the item and the directories above it, nothing else. */
  lemma PlacementKeepsExact(tree: Tree, items: set<Item>, item: Item)
    requires Exact(tree, items) && item.place != [] && CanPlace(tree, item)
    ensures Exact(PlaceItem(tree, item), items + {item})
  {
    PlaceItemView(tree, item);
    var after, all := PlaceItem(tree, item), items + {item};
    forall k | k in after ensures exists i | i in all :: Covers(k, i) {
      if k in tree {
        var i :| i in items && Covers(k, i);
        assert i in all;
      } else {
        AboveIsCovered(item.place, k);
        assert item in all && Covers(k, item);
      }
    }
    forall i, k | i in all && Covers(k, i) ensures k in after {
      AboveIsCovered(item.place, k);
    }
    forall i, k | i in all && k in after && k == i.place ensures after[k] == i.node {
      assert Covers(k, i) by { if i != item { var j :| j in all && Covers(k, j); } }
    }
  }

  /** A placement fails exactly when the item conflicts with one already placed. */
  lemma PlacementFailsOnConflict(tree: Tree, items: set<Item>, item: Item)
    requires Exact(tree, items) && item.place != [] && forall i | i in items :: i.place != [] && i.place != item.place
    ensures CanPlace(tree, item) <==> forall i | i in items :: !Conflict(i, item)
  {
    if CanPlace(tree, item) {
      forall i | i in items ensures !Conflict(i, item) { PlacedMeansClear(tree, items, item, i); }
    } else {
      var bad := BlockedBy(tree, items, item);
    }
  }

  lemma PlacedMeansClear(tree: Tree, items: set<Item>, item: Item, i: Item)
    requires Exact(tree, items) && item.place != [] && CanPlace(tree, item) && i in items && i.place != []
    ensures !Conflict(i, item)
  {
    assert Covers(i.place, i);
    if i.place < item.place {
      var n := |i.place|;
      assert Parent(item.place)[..n] == item.place[..n] == i.place;
    } else if item.place < i.place {
      assert Covers(item.place, i);
      assert item.place[..|item.place|] == item.place;
    }
  }

  lemma BlockedBy(tree: Tree, items: set<Item>, item: Item) returns (i: Item)
    requires Exact(tree, items) && item.place != [] && forall i | i in items :: i.place != [] && i.place != item.place
    requires !CanPlace(tree, item)
    ensures i in items && Conflict(i, item)
  {
    if !item.node.Dir? && item.place in tree {
      i :| i in items && Covers(item.place, i);
    } else {
      var way := if item.node.Dir? then item.place else Parent(item.place);
      var n :| 0 < n <= |way| && way[..n] in tree && tree[way[..n]] != Dir;
      i := Item(way[..n], tree[way[..n]]);
      assert way[..n] == item.place[..n];
      assert i.place != item.place;
    }
  }

  // ------------------------------------------------------- from entries to items

  function ItemFor(entry: ArchiveEntry, expected: ManifestEntry): Item {
    Item(Split(entry.path, '/'),
         match expected
         case File(_, _, _) => FileNode(entry.bytes)
         case Directory(_) => Dir
         case Symlink(_, target) => Link(target))
  }

  predicate Selected(entry: ArchiveEntry, files: seq<ManifestEntry>, links: bool) {
    Find(files, entry.path).Some? && Find(files, entry.path).value.Symlink? == links
  }

  /** What one pass places: links in the second pass, everything else in the first. */
  function ItemsOf(rest: seq<ArchiveEntry>, files: seq<ManifestEntry>, links: bool): set<Item> {
    set e | e in rest && Selected(e, files, links) :: ItemFor(e, Find(files, e.path).value)
  }

  lemma ItemsStep(rest: seq<ArchiveEntry>, n: nat, files: seq<ManifestEntry>, links: bool)
    requires n < |rest|
    ensures ItemsOf(rest[..n + 1], files, links) == ItemsOf(rest[..n], files, links) +
      (if Selected(rest[n], files, links) then {ItemFor(rest[n], Find(files, rest[n].path).value)} else {})
    ensures ItemsOf(rest[..n + 1], files, links) <= ItemsOf(rest, files, links)
  {
    assert rest[..n + 1] == rest[..n] + [rest[n]];
  }

  /** Distinct paths name distinct places. */
  lemma PlacesAreDistinct(a: string, b: string)
    requires a != b
    ensures Split(a, '/') != Split(b, '/')
  {
    JoinSplit(a, '/');
    JoinSplit(b, '/');
  }

  lemma NewPlace(rest: seq<ArchiveEntry>, n: nat, files: seq<ManifestEntry>, links: bool, items: set<Item>)
    requires DistinctPaths(rest) && n < |rest| && Selected(rest[n], files, links)
    requires items <= ItemsOf(rest, files, !links) + ItemsOf(rest[..n], files, links)
    ensures forall i | i in items :: i.place != [] && i.place != Split(rest[n].path, '/')
  {
    forall i | i in items ensures i.place != [] && i.place != Split(rest[n].path, '/') {
      var e: ArchiveEntry;
      if i in ItemsOf(rest, files, !links) {
        e :| e in rest && Selected(e, files, !links) && i == ItemFor(e, Find(files, e.path).value);
      } else {
        e :| e in rest[..n] && Selected(e, files, links) && i == ItemFor(e, Find(files, e.path).value);
        var k :| 0 <= k < n && rest[..n][k] == e;
        assert rest[k] == e;
      }
      PlacesAreDistinct(e.path, rest[n].path);
    }
  }

  predicate Ready(rest: seq<ArchiveEntry>, files: seq<ManifestEntry>) {
    forall e | e in rest :: IsReady(e, files)
  }

  predicate IsReady(e: ArchiveEntry, files: seq<ManifestEntry>) {
    && ValidRelativePath(e.path) && Find(files, e.path).Some?
    && (Find(files, e.path).value.File? ==> |e.bytes| == Find(files, e.path).value.size)
  }

  lemma ConflictFreeStep(items: set<Item>, item: Item)
    ensures ConflictFree(items + {item}) <==> ConflictFree(items) && forall i | i in items :: !Conflict(i, item)
  {
    if ConflictFree(items + {item}) {
      forall i | i in items ensures !Conflict(i, item) { assert i in items + {item} && item in items + {item}; }
    }
  }

  lemma ConflictStays(items: set<Item>, more: set<Item>)
    requires items <= more && !ConflictFree(items)
    ensures !ConflictFree(more)
  {
  }

  // ------------------------------------------------------------------- the object

  class Staging {
    var tree: Tree

    constructor ()
      ensures tree == map[]
    {
      tree := map[];
    }

    /** Creates what is missing on the way down and refuses to pass through anything but a directory. */
    method EnsureDirectoryPath(place: Place) returns (ok: bool)
      modifies this
      ensures ok <==> CanEnter(old(tree), place)
      ensures ok ==> tree == WithDirs(old(tree), place)
    {
      for n := 0 to |place|
        invariant CanEnter(old(tree), place[..n]) && tree == WithDirs(old(tree), place[..n])
      {
        var next := place[..n + 1];
        DirsStep(old(tree), place, n);
        if next !in tree { tree := tree[next := Dir]; }
        if tree[next] != Dir {
          assert next == place[..n + 1];
          return false;
        }
      }
      assert place[..|place|] == place;
      return true;
    }

    /** A directory, or a new file or link in an existing or new directory. */
    method PlaceNode(item: Item) returns (ok: bool)
      requires item.place != []
      modifies this
      ensures ok <==> CanPlace(old(tree), item)
      ensures ok ==> tree == PlaceItem(old(tree), item)
    {
      if item.node.Dir? {
        ok := EnsureDirectoryPath(item.place);
        return;
      }
      AboveParent(item.place);
      ok := EnsureDirectoryPath(Parent(item.place));
      if !ok { return; }
      if item.place in tree { return false; }
      tree := tree[item.place := item.node];
    }

    /** One entry of a pass: looked up again, skipped when it belongs to the other pass, else placed. */
    method ExtractEntry(entry: ArchiveEntry, files: seq<ManifestEntry>, links: bool)
        returns (r: Result<(), BundleError>)
      modifies this
      ensures IsReady(entry, files) ==> (r.Ok? <==> Fits(old(tree), entry, files, links))
      ensures !ValidRelativePath(entry.path) || Find(files, entry.path).None? ==> r.Err?
      ensures r.Ok? ==> tree == After(old(tree), entry, files, links)
    {
      if !ValidRelativePath(entry.path) { return Err(UnsafePath(entry.path)); }
      var expected := Find(files, entry.path);
      if expected.None? { return Err(UnexpectedArchiveEntry(entry.path)); }
      if expected.value.Symlink? != links { return Ok(()); }
      var placed := PlaceNode(ItemFor(entry, expected.value));
      if !placed { return Err(Io(entry.path)); }
      if expected.value.File? && |entry.bytes| != expected.value.size { return Err(FileSizeMismatch(entry.path)); }
      return Ok(());
    }

    /**
     * One pass over the payload. It succeeds exactly when no item conflicts with another or with what is there, and
     * then leaves exactly the old and the new items with the directories above them.
     */
    method ExtractPass(rest: seq<ArchiveEntry>, files: seq<ManifestEntry>, links: bool, ghost placed: set<Item>)
        returns (r: Result<(), BundleError>)
      requires DistinctPaths(rest) && Ready(rest, files)
      requires placed <= ItemsOf(rest, files, !links) && Exact(tree, placed) && ConflictFree(placed)
      modifies this
      ensures r.Ok? <==> ConflictFree(placed + ItemsOf(rest, files, links))
      ensures r.Ok? ==> Exact(tree, placed + ItemsOf(rest, files, links))
    {
      assert placed + ItemsOf(rest[..0], files, links) == placed;
      for n := 0 to |rest|
        invariant Progress(tree, placed, rest, n, files, links)
      {
        assert IsReady(rest[n], files);
        PassStep(tree, placed, rest, n, files, links);
        var step := ExtractEntry(rest[n], files, links);
        if step.Err? { return step; }
      }
      assert rest[..|rest|] == rest;
      return Ok(());
    }
  }

  /** An entry of the other pass always fits. */
  predicate Fits(tree: Tree, entry: ArchiveEntry, files: seq<ManifestEntry>, links: bool) {
    Selected(entry, files, links) ==> CanPlace(tree, ItemFor(entry, Find(files, entry.path).value))
  }

  function After(tree: Tree, entry: ArchiveEntry, files: seq<ManifestEntry>, links: bool): Tree {
    if Selected(entry, files, links) then PlaceItem(tree, ItemFor(entry, Find(files, entry.path).value)) else tree
  }

  /** The state of a pass after `n` entries. */
  ghost predicate Progress(tree: Tree, placed: set<Item>, rest: seq<ArchiveEntry>, n: nat, files: seq<ManifestEntry>,
      links: bool)
    requires n <= |rest|
  {
    var items := placed + ItemsOf(rest[..n], files, links);
    Exact(tree, items) && ConflictFree(items)
  }

  lemma PassStep(tree: Tree, placed: set<Item>, rest: seq<ArchiveEntry>, n: nat, files: seq<ManifestEntry>, links: bool)
    requires n < |rest| && DistinctPaths(rest) && placed <= ItemsOf(rest, files, !links)
    requires Progress(tree, placed, rest, n, files, links)
    ensures Fits(tree, rest[n], files, links)
      ==> Progress(After(tree, rest[n], files, links), placed, rest, n + 1, files, links)
    ensures !Fits(tree, rest[n], files, links) ==> !ConflictFree(placed + ItemsOf(rest, files, links))
  {
    var items, next := placed + ItemsOf(rest[..n], files, links), placed + ItemsOf(rest[..n + 1], files, links);
    ItemsStep(rest, n, files, links);
    if Selected(rest[n], files, links) {
      var item := ItemFor(rest[n], Find(files, rest[n].path).value);
      NewPlace(rest, n, files, links, items);
      assert next == items + {item};
      PlacementFailsOnConflict(tree, items, item);
      ConflictFreeStep(items, item);
      if CanPlace(tree, item) {
        PlacementKeepsExact(tree, items, item);
      } else {
        ConflictStays(next, placed + ItemsOf(rest, files, links));
      }
    } else {
      assert next == items;
    }
  }

  // ----------------------------------------------------- the tree the manifest asks for

  /** A node that satisfies a manifest entry. */
  predicate Satisfies(node: Node, entry: ManifestEntry, sha256: seq<byte> -> string) {
    match entry
    case File(_, size, hash) => node.FileNode? && |node.bytes| == size && sha256(node.bytes) == hash
    case Directory(_) => node.Dir?
    case Symlink(_, target) => node == Link(target)
  }

  function PlaceOf(entry: ManifestEntry): Place { Split(entry.path, '/') }

  predicate LeadsTo(place: Place, entry: ManifestEntry) { place != [] && place <= PlaceOf(entry) }

  /** The manifest's entries and their implied parent directories, and nothing more. */
  ghost predicate IsManifestTree(tree: Tree, files: seq<ManifestEntry>, sha256: seq<byte> -> string) {
    && (forall k | k in tree :: exists e | e in files :: LeadsTo(k, e))
    && (forall e, k {:trigger LeadsTo(k, e)} | e in files && LeadsTo(k, e) :: k in tree)
    && (forall e, k | e in files && k in tree && k == PlaceOf(e) :: Satisfies(tree[k], e, sha256))
    && (forall k | k in tree :: tree[k] == Dir || exists e | e in files :: k == PlaceOf(e))
  }

  /** No regular file sits above another entry. */
  ghost predicate NoFileAbove(files: seq<ManifestEntry>) {
    forall a, b | a in files && b in files && a.File? :: !IsDescendant(b.path, a.path)
  }

  /** Validation alone does not rule such a manifest out: a file can be listed below another file. */
  lemma ManifestMayPutFileBelowFile(digest: string)
    requires IsLowerSha256(digest)
    ensures var files := [File("a", 0, digest), File("a/b", 0, digest)];
      IsManifest(Document(1, BUNDLE_PLATFORM, files)) && !NoFileAbove(files)
  {
    var files := [File("a", 0, digest), File("a/b", 0, digest)];
    NestedPaths();
    PrefixIsLess("a", "a/b");
    TwoFilesAreManifest("a", "a/b", digest);
    assert files[0] in files && files[1] in files && IsDescendant(files[1].path, files[0].path);
  }

  lemma TwoFilesAreManifest(first: string, second: string, digest: string)
    requires ValidRelativePath(first) && ValidRelativePath(second) && Less(first, second) && IsLowerSha256(digest)
    ensures IsManifest(Document(1, BUNDLE_PLATFORM, [File(first, 0, digest), File(second, 0, digest)]))
  {
    var files := [File(first, 0, digest), File(second, 0, digest)];
    assert files[..1] == [files[0]] && [files[0]][..0] == [];
    assert TotalSize([files[0]]) == 0;
  }

  lemma NestedPaths()
    ensures ValidRelativePath("a") && ValidRelativePath("a/b")
  {
    SplitAtom("a", '/');
    SplitAtom("b", '/');
    RelativePathIsPlain("a");
    SplitConcat("a", "b", '/');
    assert "a" + ['/'] + "b" == "a/b";
    RelativePathIsPlain("a/b");
  }

  function AllItems(rest: seq<ArchiveEntry>, files: seq<ManifestEntry>): set<Item> {
    ItemsOf(rest, files, false) + ItemsOf(rest, files, true)
  }

  lemma EntryOf(rest: seq<ArchiveEntry>, files: seq<ManifestEntry>, sha256: seq<byte> -> string, i: Item)
      returns (m: ManifestEntry)
    requires Corresponds(rest, files, sha256) && i in AllItems(rest, files)
    ensures m in files && PlaceOf(m) == i.place && Satisfies(i.node, m, sha256)
  {
    var e :| e in rest && Find(files, e.path).Some? && i == ItemFor(e, Find(files, e.path).value);
    m := Find(files, e.path).value;
    assert IsExpected(e, files, sha256);
  }

  lemma ItemOf(rest: seq<ArchiveEntry>, files: seq<ManifestEntry>, sha256: seq<byte> -> string, m: ManifestEntry)
      returns (i: Item)
    requires Corresponds(rest, files, sha256) && m in files && IsCanonical(files)
    ensures i in AllItems(rest, files) && PlaceOf(m) == i.place && Satisfies(i.node, m, sha256)
  {
    assert m.path in ManifestPaths(files);
    var e :| e in rest && e.path == m.path;
    assert IsExpected(e, files, sha256);
    PathsAreUnique(files, m, Find(files, e.path).value);
    i := ItemFor(e, m);
    assert Selected(e, files, m.Symlink?);
  }

  lemma PathsAreUnique(files: seq<ManifestEntry>, a: ManifestEntry, b: ManifestEntry)
    requires IsCanonical(files) && a in files && b in files && a.path == b.path
    ensures a == b
  {
    var i :| 0 <= i < |files| && files[i] == a;
    var j :| 0 <= j < |files| && files[j] == b;
    LessIrreflexive(a.path);
  }

  /** Among the entries of a canonical manifest only files can be in the way. */
  lemma ConflictsAreFilesAbove(rest: seq<ArchiveEntry>, files: seq<ManifestEntry>, sha256: seq<byte> -> string)
    requires Corresponds(rest, files, sha256) && IsCanonical(files)
    ensures ConflictFree(AllItems(rest, files)) <==> NoFileAbove(files)
  {
    var items := AllItems(rest, files);
    if NoFileAbove(files) {
      forall a, b | a in items && b in items && !a.node.Dir? ensures !(a.place < b.place) {
        var ma := EntryOf(rest, files, sha256, a);
        var mb := EntryOf(rest, files, sha256, b);
        DescendantIsBelow(mb.path, ma.path);
      }
    }
    if ConflictFree(items) {
      forall ma, mb | ma in files && mb in files && ma.File? ensures !IsDescendant(mb.path, ma.path) {
        var a := ItemOf(rest, files, sha256, ma);
        var b := ItemOf(rest, files, sha256, mb);
        DescendantIsBelow(mb.path, ma.path);
        assert !Conflict(a, b);
      }
    }
  }

  lemma ExactIsManifestTree(tree: Tree, rest: seq<ArchiveEntry>, files: seq<ManifestEntry>, sha256: seq<byte> -> string)
    requires Corresponds(rest, files, sha256) && IsCanonical(files) && Exact(tree, AllItems(rest, files))
    ensures IsManifestTree(tree, files, sha256)
  {
    var items := AllItems(rest, files);
    forall k | k in tree ensures exists e | e in files :: LeadsTo(k, e) {
      var i :| i in items && Covers(k, i);
      var m := EntryOf(rest, files, sha256, i);
      assert LeadsTo(k, m);
    }
    forall e, k | e in files && LeadsTo(k, e) ensures k in tree {
      var i := ItemOf(rest, files, sha256, e);
      assert Covers(k, i);
    }
    forall e, k | e in files && k in tree && k == PlaceOf(e) ensures Satisfies(tree[k], e, sha256) {
      var i := ItemOf(rest, files, sha256, e);
    }
    forall k | k in tree && tree[k] != Dir ensures exists e | e in files :: k == PlaceOf(e) {
      var m := EntryOf(rest, files, sha256, Item(k, tree[k]));
    }
  }

  /**
   * Extraction of a validated bundle, whatever the order of its entries: it succeeds exactly when no regular file of
   * the manifest is an ancestor of another entry, and then the tree is precisely the one the manifest describes.
   */
  method ExtractValidated(staging: Staging, entries: seq<ArchiveEntry>, doc: Document,
                          decode: seq<byte> -> Option<Document>, sha256: seq<byte> -> string)
                            returns (r: Result<(), BundleError>)
    requires staging.tree == map[] && IsBundle(entries, doc, decode, sha256)
    modifies staging
    ensures r.Ok? <==> NoFileAbove(doc.files)
    ensures r.Ok? ==> IsManifestTree(staging.tree, doc.files, sha256)
    ensures r.Ok? ==> Exact(staging.tree, AllItems(entries[1..], doc.files))
  {
    var rest := entries[1..];
    BundleIsReady(rest, doc.files, sha256);
    ConflictsAreFilesAbove(rest, doc.files, sha256);
    assert Exact(staging.tree, {}) && ConflictFree({});
    ghost var files := ItemsOf(rest, doc.files, false);
    assert {} + files == files;
    r := staging.ExtractPass(rest, doc.files, false, {});
    if r.Err? {
      ConflictStays(files, AllItems(rest, doc.files));
      return;
    }
    r := staging.ExtractPass(rest, doc.files, true, files);
    if r.Ok? { ExactIsManifestTree(staging.tree, rest, doc.files, sha256); }
  }

  lemma BundleIsReady(rest: seq<ArchiveEntry>, files: seq<ManifestEntry>, sha256: seq<byte> -> string)
    requires Corresponds(rest, files, sha256) && IsCanonical(files)
    ensures Ready(rest, files)
  {
    forall e | e in rest ensures IsReady(e, files) { assert IsExpected(e, files, sha256); }
  }

  lemma DirsStep(tree: Tree, place: Place, n: nat)
    requires n < |place|
    ensures WithDirs(tree, place[..n + 1]) == WithDirs(tree, place[..n])[place[..n + 1] := Dir]
    ensures place[..n + 1] in WithDirs(tree, place[..n]) <==> place[..n + 1] in tree
    ensures place[..n + 1] in tree ==> WithDirs(tree, place[..n])[place[..n + 1]] == tree[place[..n + 1]]
    ensures CanEnter(tree, place[..n + 1])
      <==> CanEnter(tree, place[..n]) && (place[..n + 1] in tree ==> tree[place[..n + 1]] == Dir)
    ensures CanEnter(tree, place) ==> CanEnter(tree, place[..n + 1])
  {
    var next := place[..n + 1];
    assert Parent(next) == place[..n];
    AboveParent(next);
    forall m | 0 < m <= n ensures place[..n][..m] == next[..m] == place[..m] {}
    assert next[..n + 1] == next;
  }

  /** Such a bundle passes validation, whatever the hash, and its extraction fails. */
  method FileBelowFileIsRefused(sha256: seq<byte> -> string)
    returns (r: Result<(), BundleError>, entries: seq<ArchiveEntry>, doc: Document,
        decode: seq<byte> -> Option<Document>)
    requires IsLowerSha256(sha256([]))
    ensures IsBundle(entries, doc, decode, sha256) && r.Err?
  {
    var digest := sha256([]);
    doc := Document(1, BUNDLE_PLATFORM, [File("a", 0, digest), File("a/b", 0, digest)]);
    var manifest := ArchiveEntry(MANIFEST_PATH, RegularEntry, [], None);
    var a, b := ArchiveEntry("a", RegularEntry, [], None), ArchiveEntry("a/b", RegularEntry, [], None);
    entries := [manifest, a, b];
    var d := doc;
    decode := _ => Some(d);
    ManifestMayPutFileBelowFile(digest);
    assert entries[1..] == [a, b] && |a.path| != |b.path|;
    TwoFilesCorrespond("a", "a/b", sha256);
    var staging := new Staging();
    r := ExtractValidated(staging, entries, doc, decode, sha256);
  }

  lemma TwoFilesCorrespond(first: string, second: string, sha256: seq<byte> -> string)
    requires first != second
    ensures var digest := sha256([]);
      Corresponds([ArchiveEntry(first, RegularEntry, [], None), ArchiveEntry(second, RegularEntry, [], None)],
        [File(first, 0, digest), File(second, 0, digest)], sha256)
  {
    var rest := [ArchiveEntry(first, RegularEntry, [], None), ArchiveEntry(second, RegularEntry, [], None)];
    assert rest[0] in rest && rest[1] in rest;
  }
}
