// Immutable image references and their canonical form (crates/gascan-core/src/runtime.rs,
// crates/gascan-arca/src/translate.rs, crates/gascan-oci-fixture/src/lib.rs).
module ImageReference {
  import opened Wrappers
  import opened Text

  const SEPARATOR := "@sha256:"

  /** The text before and after the first occurrence of `pattern`. */
  function SplitOnce(s: string, pattern: string): (r: Option<(string, string)>)
    ensures r.Some? ==> s == r.value.0 + pattern + r.value.1
  {
    if pattern <= s then Some(("", s[|pattern|..]))
    else if s == "" then None
    else
      match SplitOnce(s[1..], pattern)
      case None => None
      case Some((before, after)) => Some(([s[0]] + before, after))
  }

  predicate IsAlphanumeric(c: char) { IsLowercase(c) || 'A' <= c <= 'Z' || IsDigit(c) }
  predicate IsAsciiWhitespace(c: char) { c == ' ' || c == '\t' || c == '\n' || c == '\r' || c as int == 12 }

  /** The colon that starts a tag: the last one, if it comes after the last slash. */
  function TagSeparator(name: string): (r: Option<nat>)
    ensures r.Some? ==> r.value < |name| && name[r.value] == ':'
  {
    var slash, colon := LastIndex(name, '/'), LastIndex(name, ':');
    if colon.Some? && (slash.None? || colon.value > slash.value) then colon else None
  }

  function StripTag(name: string): string {
    match TagSeparator(name)
    case None => name
    case Some(k) => name[..k]
  }

  predicate ValidTag(tag: string) {
    && 0 < |tag| <= 128
    && (IsAlphanumeric(tag[0]) || tag[0] == '_')
    && forall k | 0 <= k < |tag| :: IsAlphanumeric(tag[k]) || tag[k] in "_.-"
  }

  /** A repository component; only the first may carry a port. */
  predicate ValidComponent(component: string, allowPort: bool) {
    match PortSplit(component, allowPort)
    case None => ValidLabel(component)
    case Some((host, port)) => ValidPort(port) && ValidLabel(host)
  }

  function PortSplit(component: string, allowPort: bool): (r: Option<(string, string)>)
    ensures r.Some? ==> component == r.value.0 + ":" + r.value.1
  {
    if allowPort then SplitOnce(component, ":") else None
  }

  predicate ValidPort(port: string) { port != "" && forall k | 0 <= k < |port| :: IsDigit(port[k]) }

  predicate ValidLabel(s: string) {
    && s != ""
    && (IsLowercase(s[0]) || IsDigit(s[0]))
    && (IsLowercase(s[|s| - 1]) || IsDigit(s[|s| - 1]))
    && forall k | 0 <= k < |s| :: IsLowercase(s[k]) || IsDigit(s[k]) || s[k] in "._-"
  }

  predicate ValidRepository(repository: string) {
    var components := Split(repository, '/');
    forall k | 0 <= k < |components| :: ValidComponent(components[k], k == 0)
  }

  predicate ValidName(name: string) {
    && name != ""
    && (forall k | 0 <= k < |name| :: name[k] as int < 128 && !IsAsciiWhitespace(name[k]))
    && (TagSeparator(name).Some? ==> ValidTag(name[TagSeparator(name).value + 1..]))
    && ValidRepository(StripTag(name))
  }

  /** `immutable_image_reference` */
  predicate Accepted(image: string) {
    match SplitOnce(image, SEPARATOR)
    case None => false
    case Some((name, digest)) => ValidName(name) && |digest| == 64 && IsHexDigits(digest)
  }

  /** `immutable_image_identity` */
  function Identity(image: string): Option<(string, string)> {
    if !Accepted(image) then None
    else
      var parts := SplitOnce(image, SEPARATOR).value;
      Some((StripTag(parts.0), parts.1))
  }

  /** `repository_of` */
  function RepositoryOf(reference: string): string {
    var name := match SplitOnce(reference, SEPARATOR) case None => reference case Some((before, _)) => before;
    match LastIndex(name, ':')
    case Some(colon) => if '/' !in name[colon..] then name[..colon] else name
    case None => name
  }

  /** An image sent as a structured digest (`image_digest`) and reassembled (`runtime_image`). */
  function Canonical(image: string): Option<string> {
    match Identity(image)
    case None => None
    case Some((repository, digest)) =>
      var reference := repository + SEPARATOR + digest;
      if Accepted(reference) then Some(reference) else None
  }

  // -------------------------------------------------------------------------- characters

  lemma LabelCharacters(s: string)
    requires ValidLabel(s)
    ensures '@' !in s && ':' !in s
  {
  }

  lemma ComponentCharacters(s: string, allowPort: bool)
    requires ValidComponent(s, allowPort)
    ensures '@' !in s && (!allowPort ==> ':' !in s)
  {
    match PortSplit(s, allowPort)
    case None => LabelCharacters(s);
    case Some((host, port)) =>
      LabelCharacters(host);
      assert '@' !in port by { assert forall k | 0 <= k < |port| :: port[k] != '@'; }
      assert s == host + ":" + port;
  }

  lemma {:induction false} JoinAvoids(parts: seq<string>, sep: char, c: char)
    requires c != sep && forall p | p in parts :: c !in p
    ensures c !in Join(parts, sep)
  {
    if |parts| > 1 { JoinAvoids(parts[1..], sep, c); }
  }

  lemma RepositoryHasNoAt(repository: string)
    requires ValidRepository(repository)
    ensures '@' !in repository
  {
    var components := Split(repository, '/');
    forall p | p in components ensures '@' !in p {
      var k :| 0 <= k < |components| && components[k] == p;
      ComponentCharacters(p, k == 0);
    }
    JoinAvoids(components, '/', '@');
    JoinSplit(repository, '/');
  }

  /** What follows the last slash is the last component. */
  lemma {:induction false} LastComponent(s: string, k: nat)
    requires k < |s| && s[k] == '/' && '/' !in s[k + 1..]
    ensures |Split(s, '/')| >= 2 && Split(s, '/')[|Split(s, '/')| - 1] == s[k + 1..]
  {
    assert s == s[..k] + ['/'] + s[k + 1..];
    SplitConcat(s[..k], s[k + 1..], '/');
    SplitAtom(s[k + 1..], '/');
  }

  lemma {:induction false} SplitOnceAt(before: string, pattern: string, after: string)
    requires pattern != "" && pattern[0] !in before
    ensures SplitOnce(before + pattern + after, pattern) == Some((before, after))
  {
    var s := before + pattern + after;
    if before == "" {
      assert pattern <= s && s[|pattern|..] == after;
    } else {
      assert s[0] == before[0] && !(pattern <= s);
      assert s[1..] == before[1..] + pattern + after;
      SplitOnceAt(before[1..], pattern, after);
      assert before == [before[0]] + before[1..];
    }
  }

  // --------------------------------------------------------------------------- stability

  /** The names whose canonical form keeps its meaning: a slash, or no second colon. */
  predicate Stable(name: string) {
    '/' in name || forall i, j | 0 <= i < j < |name| :: !(name[i] == ':' && name[j] == ':')
  }

  /** Stripping a tag leaves nothing that reads as a tag, exactly for stable names. */
  lemma StripTagIsFinal(name: string)
    requires ValidRepository(StripTag(name))
    ensures TagSeparator(StripTag(name)) == None <==> Stable(name)
  {
    var repository := StripTag(name);
    var slash := LastIndex(name, '/');
    if slash.Some? {
      SlashSurvives(name);
      var k := LastIndex(repository, '/').value;
      LastComponent(repository, k);
      var components := Split(repository, '/');
      ComponentCharacters(components[|components| - 1], false);
      assert ':' !in repository[k + 1..];
    } else {
      NoSlash(name);
    }
  }

  lemma SlashSurvives(name: string)
    requires '/' in name
    ensures LastIndex(StripTag(name), '/').Some?
  {
    var slash, tag := LastIndex(name, '/'), TagSeparator(name);
    if tag.Some? { assert name[..tag.value][slash.value] == '/'; }
  }

  lemma NoSlash(name: string)
    requires '/' !in name
    ensures TagSeparator(StripTag(name)) == None <==> Stable(name)
  {
    var tag := TagSeparator(name);
    if tag.Some? {
      var repository := name[..tag.value];
      assert forall c :: c in repository ==> c in name;
      if ':' in repository {
        var i :| 0 <= i < |repository| && repository[i] == ':';
        assert name[i] == ':' && name[tag.value] == ':';
      } else {
        assert forall i | 0 <= i < tag.value :: name[i] == repository[i];
        assert forall j | tag.value < j < |name| :: name[j] == name[tag.value + 1..][j - tag.value - 1];
      }
    }
  }

  /**
   * Canonicalising an accepted reference keeps its identity, and is then a fixed point, exactly when its name is
   * stable.
   */
  lemma CanonicalKeepsIdentity(image: string)
    requires Accepted(image)
    ensures Stable(SplitOnce(image, SEPARATOR).value.0) <==>
            Canonical(image).Some? && Identity(Canonical(image).value) == Identity(image)
    ensures Stable(SplitOnce(image, SEPARATOR).value.0) ==> Canonical(Canonical(image).value) == Canonical(image)
  {
    var parts := SplitOnce(image, SEPARATOR).value;
    var repository := StripTag(parts.0);
    Reassembled(repository, parts.1);
    StrippedTwice(parts.0);
    if Stable(parts.0) {
      RepositoryIsName(parts.0);
      assert Identity(repository + SEPARATOR + parts.1) == Some((repository, parts.1));
    }
  }

  /** What a repository and a digest put together say. */
  lemma Reassembled(repository: string, digest: string)
    requires ValidRepository(repository) && |digest| == 64 && IsHexDigits(digest)
    ensures var reference := repository + SEPARATOR + digest;
      && (Accepted(reference) <==> ValidName(repository))
      && (ValidName(repository) ==> Identity(reference) == Some((StripTag(repository), digest)))
  {
    RepositoryHasNoAt(repository);
    SplitOnceAt(repository, SEPARATOR, digest);
  }

  lemma RepositoryIsName(name: string)
    requires ValidName(name) && Stable(name)
    ensures ValidName(StripTag(name))
  {
    var repository := StripTag(name);
    StripTagIsFinal(name);
    NoEmptyRepository();
    assert forall k | 0 <= k < |repository| :: repository[k] == name[k];
  }

  lemma StrippedTwice(name: string)
    requires ValidName(name)
    ensures StripTag(StripTag(name)) == StripTag(name) <==> Stable(name)
  {
    StripTagIsFinal(name);
  }

  lemma NoEmptyRepository()
    ensures !ValidRepository("")
  {
    assert Split("", '/')[0] == "";
  }

  lemma LastIndexIs(s: string, c: char, k: nat)
    requires k < |s| && s[k] == c && c !in s[k + 1..]
    ensures LastIndex(s, c) == Some(k)
  {
  }

  predicate Plain(s: string)
      { forall k | 0 <= k < |s| :: s[k] as int < 128 && !IsAsciiWhitespace(s[k]) && s[k] != '/' && s[k] != ':' }

  lemma PartsArePlain(host: string, port: string, tag: string)
    requires ValidLabel(host) && ValidPort(port) && ValidTag(tag)
    ensures Plain(host) && Plain(port) && Plain(tag)
  {
  }

  /**
   * A registry port with a tag and no path is the case that fails: the port is taken for a tag the second time, or, too
   * long for one, makes the canonical form unacceptable.
   */
  lemma PortAndTagIsUnstable(host: string, port: string, tag: string, digest: string)
    requires ValidLabel(host) && ValidPort(port) && ValidTag(tag)
    requires |digest| == 64 && IsHexDigits(digest)
    ensures var image := host + ":" + port + ":" + tag + SEPARATOR + digest;
      && Accepted(image) && Identity(image) == Some((host + ":" + port, digest))
      && (if |port| <= 128 then Canonical(image).Some? && Identity(Canonical(image).value) == Some((host, digest))
          else Canonical(image) == None)
  {
    var repository := host + ":" + port;
    TaggedName(host, port, tag);
    PortName(host, port);
    var name := repository + ":" + tag;
    SplitOnceAt(name, SEPARATOR, digest);
    assert name + SEPARATOR + digest == host + ":" + port + ":" + tag + SEPARATOR + digest;
    HostIsRepository(host, port);
    Reassembled(repository, digest);
  }

  lemma SomeAccepted() returns (image: string)
    ensures Accepted(image)
  {
    var host, port, tag := "registry", "5000", "latest";
    var digest := seq(64, _ => 'a');
    image := host + ":" + port + ":" + tag + SEPARATOR + digest;
    PortAndTagIsUnstable(host, port, tag, digest);
  }

  lemma TaggedName(host: string, port: string, tag: string)
    requires ValidLabel(host) && ValidPort(port) && ValidTag(tag)
    ensures var name := host + ":" + port + ":" + tag;
      ValidName(name) && StripTag(name) == host + ":" + port && '@' !in name
  {
    var repository := host + ":" + port;
    PartsArePlain(host, port, tag);
    PortIsTag(host, port);
    Tagged(repository, tag);
    HostIsRepository(host, port);
    RepositoryHasNoAt(repository);
    assert forall k | 0 <= k < |tag| :: tag[k] != '@';
  }

  lemma PortName(host: string, port: string)
    requires ValidLabel(host) && ValidPort(port)
    ensures ValidName(host + ":" + port) <==> |port| <= 128
    ensures StripTag(host + ":" + port) == host
  {
    assert ValidTag("a");
    PartsArePlain(host, port, "a");
    PortIsTag(host, port);
    Tagged(host, port);
    HostIsRepository(host, port);
  }

  /** A name without a slash, up to its last colon. */
  lemma Tagged(repository: string, tag: string)
    requires '/' !in repository && Plain(tag)
    ensures TagSeparator(repository + ":" + tag) == Some(|repository|)
    ensures StripTag(repository + ":" + tag) == repository && (repository + ":" + tag)[|repository| + 1..] == tag
  {
    var name := repository + ":" + tag;
    assert name[|repository| + 1..] == tag && name[..|repository|] == repository;
    LastIndexIs(name, ':', |repository|);
  }

  lemma PortIsTag(host: string, port: string)
    requires ValidLabel(host) && ValidPort(port) && Plain(host) && Plain(port)
    ensures (ValidTag(port) <==> |port| <= 128) && '/' !in host && '/' !in host + ":" + port
    ensures forall k | 0 <= k < |host + ":" + port| ::
        (host + ":" + port)[k] as int < 128 && !IsAsciiWhitespace((host + ":" + port)[k])
  {
  }

  lemma HostIsRepository(host: string, port: string)
    requires ValidLabel(host) && ValidPort(port)
    ensures ValidRepository(host) && ValidRepository(host + ":" + port)
  {
    assert ValidTag("a");
    PartsArePlain(host, port, "a");
    SplitAtom(host, '/');
    SplitAtom(host + ":" + port, '/');
    SplitOnce1(host);
    SplitOnceAt(host, ":", port);
  }

  lemma {:induction false} SplitOnce1(s: string)
    requires ':' !in s
    ensures SplitOnce(s, ":") == None
  {
    if s != "" { SplitOnce1(s[1..]); }
  }

  /** Two accepted references name the same image exactly when their canonical spellings are equal. */
  lemma SameImageSameSpelling(left: string, right: string)
    requires Accepted(left) && Accepted(right)
    ensures var l, r := Identity(left).value, Identity(right).value;
      l == r <==> l.0 + SEPARATOR + l.1 == r.0 + SEPARATOR + r.1
  {
    var l, r := Identity(left).value, Identity(right).value;
    RepositoryHasNoAt(l.0);
    RepositoryHasNoAt(r.0);
    SplitOnceAt(l.0, SEPARATOR, l.1);
    SplitOnceAt(r.0, SEPARATOR, r.1);
  }

  /** The fixture's own splitter agrees on every accepted reference. */
  lemma RepositoryOfAgrees(image: string)
    requires Accepted(image)
    ensures RepositoryOf(image) == Identity(image).value.0
  {
    var name := SplitOnce(image, SEPARATOR).value.0;
    var slash, colon := LastIndex(name, '/'), LastIndex(name, ':');
    if colon.Some? {
      if slash.Some? && slash.value > colon.value {
        assert name[colon.value..][slash.value - colon.value] == '/';
      } else if slash.Some? {
        forall k | colon.value <= k < |name| ensures name[k] != '/' {
          assert k > slash.value ==> name[k] == name[slash.value + 1..][k - slash.value - 1];
        }
      }
    }
  }
}
