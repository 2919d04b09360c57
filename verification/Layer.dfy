// What a layer archive holds (crates/gascan-oci-fixture/src/lib.rs, `layer_archive`): the directories its entries need,
// derived from their paths, then the files.
module Layer {
  import opened Wrappers
  import opened Bytes
  import opened Text
  import Tar
  import Ustar

  /** A directory, or a file with its contents. */
  datatype Entry = Entry(path: string, mode: nat, contents: Option<seq<byte>>)

  datatype Directory = Directory(path: string, mode: nat)

  const DERIVED_MODE := 0x1ed  // rwxr-xr-x

  function TrimStart(path: string): string {
    if path != "" && path[0] == '/' then TrimStart(path[1..]) else path
  }

  function TrimEnd(path: string): string {
    if path != "" && path[|path| - 1] == '/' then TrimEnd(path[..|path| - 1]) else path
  }

  function Trim(path: string): string { TrimEnd(TrimStart(path)) }

  /** The directory an entry needs: itself, or what a file lies in. A file at the top needs none. */
  function Needed(e: Entry): Option<string> {
    if e.contents.None? then Some(e.path)
    else
      match LastIndex(Trim(e.path), '/')
      case None => None
      case Some(slash) => Some(Trim(e.path)[..slash])
  }

  /** Only a directory the caller named has a mode of its own. */
  function Own(e: Entry): Option<nat> { if e.contents.None? then Some(e.mode) else None }

  /** A directory as the archive spells it. */
  function Spelled(path: string): string { Trim(path) + "/" }

  // ----------------------------------------------------------------------- specification

  type Modes = map<string, nat>

  /** A spelled directory and those it lies in: the prefixes that end in a slash. */
  ghost function Above(full: string): set<string> {
    set n | 0 < n <= |full| && full[n - 1] == '/' :: full[..n]
  }

  /** One more directory: a mode of its own replaces what is there, a derived one only fills a gap. */
  ghost function Put(modes: Modes, path: string, own: Option<nat>): Modes {
    if own.Some? then modes[path := own.value] else if path in modes then modes else modes[path := DERIVED_MODE]
  }

  /** After the first `n` characters of `full` have been walked. */
  ghost function Walked(modes: Modes, full: string, n: nat, own: Option<nat>): Modes
    requires n <= |full|
  {
    map p | p in modes.Keys + Above(full[..n]) ::
      if n == |full| && p == full && own.Some? then own.value else if p in modes then modes[p] else DERIVED_MODE
  }

  ghost function Derived(entries: seq<Entry>): Modes {
    if entries == [] then map[]
    else
      var e, before := entries[|entries| - 1], Derived(entries[..|entries| - 1]);
      match Needed(e)
      case None => before
      case Some(path) => Walked(before, Spelled(path), |Spelled(path)|, Own(e))
  }

  ghost predicate Needs(e: Entry, p: string) { Needed(e).Some? && p in Above(Spelled(Needed(e).value)) }

  ghost predicate Names(e: Entry, p: string) { e.contents.None? && Spelled(e.path) == p }

  /** What the last entry to name the directory gave it. */
  ghost function ModeOf(entries: seq<Entry>, p: string): nat {
    if entries == [] then DERIVED_MODE
    else if Names(entries[|entries| - 1], p) then entries[|entries| - 1].mode
    else ModeOf(entries[..|entries| - 1], p)
  }

  /** The derived directories are those some entry needs, each with the mode it was last named with, if ever. */
  lemma {:induction false} DerivedMeans(entries: seq<Entry>)
    ensures forall p :: p in Derived(entries) <==> exists e :: e in entries && Needs(e, p)
    ensures forall p | p in Derived(entries) :: Derived(entries)[p] == ModeOf(entries, p)
  {
    if entries != [] {
      var init, last := entries[..|entries| - 1], entries[|entries| - 1];
      DerivedMeans(init);
      assert entries == init + [last];
      forall p ensures p in Derived(entries) <==> exists e :: e in entries && Needs(e, p) {
        OneMoreNeeds(init, last, p);
        if Needed(last).Some? { WholePath(Spelled(Needed(last).value)); }
      }
      forall p | p in Derived(entries) ensures Derived(entries)[p] == ModeOf(entries, p) {
        if p !in Derived(init) { NeverNamed(init, p); }
        if Needed(last).Some? { WholePath(Spelled(Needed(last).value)); }
      }
    }
  }

  lemma OneMoreNeeds(init: seq<Entry>, last: Entry, p: string)
    ensures (exists e :: e in init + [last] && Needs(e, p))
      <==> (exists e :: e in init && Needs(e, p)) || Needs(last, p)
  {
    assert last in init + [last];
    assert forall e | e in init :: e in init + [last];
  }

  lemma WholePath(full: string)
    ensures full[..|full|] == full
    ensures full != "" && full[|full| - 1] == '/' ==> full in Above(full)
  {
    assert full[..|full|] == full;
  }

  lemma {:induction false} NeverNamed(entries: seq<Entry>, p: string)
    requires !exists e :: e in entries && Needs(e, p)
    ensures ModeOf(entries, p) == DERIVED_MODE
  {
    if entries != [] {
      var init, last := entries[..|entries| - 1], entries[|entries| - 1];
      assert entries == init + [last];
      OneMoreNeeds(init, last, p);
      NeverNamed(init, p);
      WholePath(p);
    }
  }

  // ------------------------------------------------------------------------ derivation

  ghost function Paths(ds: seq<Directory>): set<string> { set k | 0 <= k < |ds| :: ds[k].path }

  /** The list holds each directory of the map once, with its mode. */
  ghost predicate Lists(ds: seq<Directory>, modes: Modes) {
    && (forall i, j | 0 <= i < j < |ds| :: ds[i].path != ds[j].path)
    && modes.Keys == Paths(ds)
    && forall k | 0 <= k < |ds| :: ds[k].path in modes && ds[k].mode == modes[ds[k].path]
  }

  /** No directory comes before one it lies in. */
  ghost predicate ParentsFirst(ds: seq<Directory>) {
    forall k | 0 <= k < |ds| :: Above(ds[k].path) - {ds[k].path} <= Paths(ds[..k])
  }

  method Find(ds: seq<Directory>, path: string) returns (at: Option<nat>)
    ensures at.Some? ==> at.value < |ds| && ds[at.value].path == path
    ensures at.None? ==> path !in Paths(ds)
  {
    for n := 0 to |ds|
      invariant forall k | 0 <= k < n :: ds[k].path != path
    {
      if ds[n].path == path { return Some(n); }
    }
    return None;
  }

  method Visit(ds: seq<Directory>, path: string, own: Option<nat>, ghost modes: Modes) returns (all: seq<Directory>)
    requires Lists(ds, modes) && ParentsFirst(ds) && Above(path) - {path} <= Paths(ds)
    ensures Lists(all, Put(modes, path, own)) && ParentsFirst(all)
  {
    var at := Find(ds, path);
    if at.Some? {
      assert ds[at.value].path in Paths(ds);
      if own.None? { return ds; }
      all := ds[at.value := Directory(path, own.value)];
      Replaced(ds, modes, at.value, own.value);
    } else {
      var mode := if own.Some? then own.value else DERIVED_MODE;
      all := ds + [Directory(path, mode)];
      Appended(ds, modes, path, mode);
    }
  }

  lemma Replaced(ds: seq<Directory>, modes: Modes, k: nat, mode: nat)
    requires k < |ds| && Lists(ds, modes) && ParentsFirst(ds)
    ensures var all := ds[k := Directory(ds[k].path, mode)]; Lists(all, modes[ds[k].path := mode]) && ParentsFirst(all)
  {
    var all := ds[k := Directory(ds[k].path, mode)];
    assert ds[k].path in Paths(ds);
    SamePaths(ds, all);
  }

  lemma Appended(ds: seq<Directory>, modes: Modes, path: string, mode: nat)
    requires Lists(ds, modes) && ParentsFirst(ds) && path !in Paths(ds) && Above(path) - {path} <= Paths(ds)
    ensures var all := ds + [Directory(path, mode)]; Lists(all, modes[path := mode]) && ParentsFirst(all)
  {
    var all := ds + [Directory(path, mode)];
    assert all[..|ds|] == ds;
    OnePathMore(ds, all);
    forall k | 0 <= k < |ds| ensures all[k].path == ds[k].path && all[k].path in Paths(ds) {}
    forall k | 0 <= k < |all| ensures Above(all[k].path) - {all[k].path} <= Paths(all[..k]) {
      if k < |ds| { assert all[..k] == ds[..k]; }
    }
  }

  lemma OnePathMore(ds: seq<Directory>, all: seq<Directory>)
    requires |all| == |ds| + 1 && all[..|ds|] == ds
    ensures Paths(all) == Paths(ds) + {all[|ds|].path}
  {
    forall k | 0 <= k < |ds| ensures ds[k].path in Paths(all) { assert all[k].path == ds[k].path; }
    assert all[|ds|].path in Paths(all);
  }

  lemma SamePaths(ds: seq<Directory>, all: seq<Directory>)
    requires |all| == |ds| && forall k | 0 <= k < |ds| :: all[k].path == ds[k].path
    ensures Paths(all) == Paths(ds) && forall k | 0 <= k <= |ds| :: Paths(all[..k]) == Paths(ds[..k])
  {
    forall k | 0 <= k <= |ds| ensures Paths(all[..k]) == Paths(ds[..k]) {
      forall i | 0 <= i < k ensures all[..k][i].path == ds[..k][i].path {}
    }
    assert all[..|ds|] == all && ds[..|ds|] == ds;
  }

  /** What is left of a walk: each component with its slash. */
  ghost function Slashed(components: seq<string>): string {
    if components == [] then "" else components[0] + "/" + Slashed(components[1..])
  }

  lemma {:induction false} SlashedIsSpelled(components: seq<string>)
    requires components != []
    ensures Slashed(components) == Join(components, '/') + "/"
  {
    if |components| > 1 { SlashedIsSpelled(components[1..]); }
  }

  /** The next directory on the way is the only one that the next component adds. */
  lemma WalkStep(modes: Modes, ancestor: string, component: string, rest: string, own: Option<nat>)
    requires '/' !in component
    ensures var next := ancestor + component + "/"; var full := next + rest;
      && Above(next) == Above(ancestor) + {next}
      && Walked(modes, full, |next|, own)
         == Put(Walked(modes, full, |ancestor|, own), next, if rest == "" then own else None)
  {
    var next := ancestor + component + "/";
    var full := next + rest;
    assert full[..|next|] == next && full[..|ancestor|] == ancestor;
    AboveStep(ancestor, component);
    OneMoreWalked(modes, full, |ancestor|, |next|, own);
  }

  lemma OneMoreWalked(modes: Modes, full: string, from: nat, to: nat, own: Option<nat>)
    requires from < to <= |full| && Above(full[..to]) == Above(full[..from]) + {full[..to]}
    ensures Walked(modes, full, to, own)
         == Put(Walked(modes, full, from, own), full[..to], if to == |full| then own else None)
  {
    assert to == |full| ==> full[..to] == full;
  }

  lemma AboveStep(ancestor: string, component: string)
    requires '/' !in component
    ensures var next := ancestor + component + "/"; Above(next) == Above(ancestor) + {next}
  {
    var next := ancestor + component + "/";
    forall n | 0 < n <= |ancestor| ensures next[..n] == ancestor[..n] && next[n - 1] == ancestor[n - 1] {}
    forall k | |ancestor| <= k < |next| - 1 ensures next[k] != '/' {
      assert next[k] == component[k - |ancestor|];
    }
    WholePath(next);
  }

  lemma NothingWalked(modes: Modes, full: string, own: Option<nat>)
    requires full != ""
    ensures Walked(modes, full, 0, own) == modes && Above("") == {}
  {
    assert full[..0] == "";
  }

  /** The list so far, on the way down `full` to `ancestor`. */
  ghost predicate OnTheWay(ds: seq<Directory>, modes: Modes, full: string, ancestor: string, own: Option<nat>) {
    && ancestor <= full && ParentsFirst(ds) && Above(ancestor) <= Paths(ds)
    && Lists(ds, Walked(modes, full, |ancestor|, own))
  }

  lemma NextComponent(components: seq<string>, n: nat, ancestor: string)
    requires n < |components|
    ensures var rest := Slashed(components[n + 1..]);
      && ancestor + Slashed(components[n..]) == ancestor + components[n] + "/" + rest
      && (rest == "" <==> n + 1 == |components|)
  {
    assert components[n..][1..] == components[n + 1..];
  }

  /** One component of a walk. */
  method Climb(ds: seq<Directory>, ancestor: string, component: string, own: Option<nat>, ghost modes: Modes,
      ghost whole: Option<nat>, ghost rest: string)
    returns (all: seq<Directory>, next: string)
    requires '/' !in component && own == (if rest == "" then whole else None)
    requires OnTheWay(ds, modes, ancestor + component + "/" + rest, ancestor, whole)
    ensures next == ancestor + component + "/" && OnTheWay(all, modes, next + rest, next, whole)
  {
    WalkStep(modes, ancestor, component, rest, whole);
    next := ancestor + component + "/";
    all := Visit(ds, next, own, Walked(modes, next + rest, |ancestor|, whole));
  }

  /** `push_ancestors` */
  method PushAncestors(ds: seq<Directory>, path: string, own: Option<nat>, ghost modes: Modes)
    returns (all: seq<Directory>)
    requires Lists(ds, modes) && ParentsFirst(ds)
    ensures Lists(all, Walked(modes, Spelled(path), |Spelled(path)|, own)) && ParentsFirst(all)
  {
    var components := Split(Trim(path), '/');
    var ancestor := "";
    all := ds;
    ghost var full := Spelled(path);
    JoinSplit(Trim(path), '/');
    SplitHasNoSeparator(Trim(path), '/');
    SlashedIsSpelled(components);
    NothingWalked(modes, full, own);
    for n := 0 to |components|
      invariant full == ancestor + Slashed(components[n..]) && OnTheWay(all, modes, full, ancestor, own)
    {
      assert components[n] in components;
      NextComponent(components, n, ancestor);
      all, ancestor := Climb(all, ancestor, components[n], if n + 1 == |components| then own else None, modes, own,
        Slashed(components[n + 1..]));
    }
  }

  /** Every directory the entries need, once each, none before one it lies in. */
  method Directories(entries: seq<Entry>) returns (ds: seq<Directory>)
    ensures Lists(ds, Derived(entries)) && ParentsFirst(ds)
  {
    ds := [];
    for n := 0 to |entries|
      invariant Lists(ds, Derived(entries[..n])) && ParentsFirst(ds)
    {
      assert entries[..n + 1][..n] == entries[..n];
      var needed := Needed(entries[n]);
      if needed.Some? { ds := PushAncestors(ds, needed.value, Own(entries[n]), Derived(entries[..n])); }
    }
    assert entries[..|entries|] == entries;
  }

  /** The path has no trailing slash, and no doubled one before its last name. */
  predicate IsClean(e: Entry) {
    TrimStart(e.path) == Trim(e.path) && (Needed(e).Some? ==> Trim(Needed(e).value) == Needed(e).value)
  }

  /** A file with a clean path finds every directory on its way in the archive, whatever else it holds. */
  lemma FileFindsItsDirectories(entries: seq<Entry>, e: Entry)
    requires e in entries && e.contents.Some? && IsClean(e)
    ensures Above(TrimStart(e.path)) <= Derived(entries).Keys
  {
    var name := Trim(e.path);
    DerivedMeans(entries);
    forall n | 0 < n <= |name| && name[n - 1] == '/' ensures Needs(e, name[..n]) {
      var slash := LastIndex(name, '/').value;
      assert name[..slash + 1] == Spelled(Needed(e).value);
      assert n <= slash + 1;
      assert name[..slash + 1][..n] == name[..n];
    }
  }

  /** Alone in its archive, a file finds every directory on its way exactly when its path is clean. */
  lemma FindsAloneIffClean(e: Entry)
    requires e.contents.Some?
    ensures Above(TrimStart(e.path)) <= Derived([e]).Keys <==> IsClean(e)
  {
    if IsClean(e) {
      FileFindsItsDirectories([e], e);
    } else {
      var missing := Missed(e);
      assert missing !in Derived([e]) by { DerivedMeans([e]); }
    }
  }

  /** A directory on the way of a file with an unclean path that the file does not ask for. */
  lemma Missed(e: Entry) returns (missing: string)
    requires e.contents.Some? && !IsClean(e)
    ensures missing in Above(TrimStart(e.path)) && !Needs(e, missing)
  {
    var name, clean := TrimStart(e.path), Trim(e.path);
    TrimEndIsShorter(name);
    var length := if name != clean then |clean| else LastIndex(clean, '/').value;
    missing := name[..length + 1];
    assert name[length] == '/';
    if Needed(e).Some? {
      var parent := Needed(e).value;
      StartsPlain(e.path);
      TrimEndIsShorter(parent);
      assert TrimStart(parent) == parent;
      NeverLonger(Spelled(parent), missing);
    }
  }

  lemma NeverLonger(full: string, p: string)
    requires |p| > |full|
    ensures p !in Above(full)
  {
  }

  lemma {:induction false} TrimEndIsShorter(s: string)
    ensures TrimEnd(s) <= s
    ensures TrimEnd(s) != s ==> |TrimEnd(s)| < |s| && s[|TrimEnd(s)|] == '/'
  {
    if s != "" && s[|s| - 1] == '/' { TrimEndIsShorter(s[..|s| - 1]); }
  }

  lemma {:induction false} StartsPlain(path: string)
    ensures TrimStart(path) != "" ==> TrimStart(path)[0] != '/'
  {
    if path != "" && path[0] == '/' { StartsPlain(path[1..]); }
  }

  /** `a//b` is such a path: the archive names the file so, and lacks the directory `a//`. */
  lemma DoubledSlashIsMissed(mode: nat, contents: seq<byte>)
    ensures var e := Entry("a//b", mode, Some(contents));
      "a//" in Above(TrimStart(e.path)) && "a//" !in Derived([e])
  {
    var e := Entry("a//b", mode, Some(contents));
    assert e.path[..3] == "a//" && LastIndex("a//", '/') == Some(2);
    assert Trim(e.path) == "a//b";
    assert LastIndex("a//b", '/') == Some(2);
    assert "a//b"[..2] == "a/";
    assert Needed(e) == Some("a/");
    assert TrimEnd("a/") == "a";
    NeverLonger(Spelled("a/"), "a//");
    DerivedMeans([e]);
  }

  // --------------------------------------------------------------------------- archive

  function FilesOf(entries: seq<Entry>, utf8: string -> seq<byte>): seq<Ustar.LayerFile> {
    if entries == [] then []
    else
      var before, e := FilesOf(entries[..|entries| - 1], utf8), entries[|entries| - 1];
      if e.contents.None? then before
      else before + [Ustar.LayerFile(utf8(TrimStart(e.path)), e.mode, e.contents.value)]
  }

  function Encoded(ds: seq<Directory>, utf8: string -> seq<byte>): (r: seq<Ustar.LayerDirectory>)
    ensures |r| == |ds| && forall k | 0 <= k < |ds| :: r[k] == Ustar.LayerDirectory(utf8(ds[k].path), ds[k].mode)
  {
    seq(|ds|, k requires 0 <= k < |ds| => Ustar.LayerDirectory(utf8(ds[k].path), ds[k].mode))
  }

  /** The names and sizes that fit a header. */
  ghost predicate Fits(entries: seq<Entry>, utf8: string -> seq<byte>) {
    && (forall p | p in Derived(entries) :: |utf8(p)| < 100)
    && forall f | f in FilesOf(entries, utf8) :: |f.name| < 100 && |f.contents| < Tar.Pow8(11)
  }

  method Files(entries: seq<Entry>, utf8: string -> seq<byte>) returns (files: seq<Ustar.LayerFile>)
    ensures files == FilesOf(entries, utf8)
  {
    files := [];
    for n := 0 to |entries|
      invariant files == FilesOf(entries[..n], utf8)
    {
      assert entries[..n + 1][..n] == entries[..n];
      var e := entries[n];
      if e.contents.Some? { files := files + [Ustar.LayerFile(utf8(TrimStart(e.path)), e.mode, e.contents.value)]; }
    }
    assert entries[..|entries|] == entries;
  }

  /** The whole archive: cut at its terminator, its members record the needed directories and then the files. */
  method Archive(entries: seq<Entry>, utf8: string -> seq<byte>)
    returns (archive: seq<byte>, end: nat, ds: seq<Directory>, ghost dm: seq<Tar.Member>, ghost fm: seq<Tar.Member>)
    requires Fits(entries, utf8)
    ensures Lists(ds, Derived(entries)) && ParentsFirst(ds)
    ensures Ustar.RecordsDirectories(dm, Encoded(ds, utf8)) && Ustar.RecordsFiles(fm, FilesOf(entries, utf8))
    ensures end <= |archive| && Tar.IsLayoutOf(archive[..end], dm + fm)
    ensures |archive| == Ustar.ToRecord(end) && archive[end..] == Zeros(|archive| - end)
  {
    ds := Directories(entries);
    var files := Files(entries, utf8);
    var directories := Encoded(ds, utf8);
    forall d | d in directories ensures |d.name| < 100 {
      var k :| 0 <= k < |ds| && directories[k] == d;
      assert ds[k].path in Derived(entries);
    }
    archive, end, dm, fm := Ustar.WriteLayer(directories, files);
  }
}
