// Runtime resources, create requests and the evidence checks that guard them
// (crates/gascan-core/src/runtime.rs, crates/gascan-core/src/sandbox.rs).
module Resources {
  import opened Wrappers
  import opened Text

  // ---------------------------------------------------------------- identities

  datatype ResourceKind = Container | Volume | Network

  datatype ResourceOwnership = GasCanOwned | Foreign | Mismatched

  datatype ResourceIdentity = ResourceIdentity(kind: ResourceKind, name: string)

  /** A sandbox id is a lowercase slug, a hyphen and twelve hexadecimal digits. */
  predicate ValidSandboxId(s: string) {
    && |s| >= 14
    && s[|s| - 13] == '-'
    && s[0] != '-'
    && s[|s| - 14] != '-'
    && IsSlug(s[..|s| - 13])
    && IsHex(s[|s| - 12..])
  }

  /** Lowercase letters, digits and single hyphens. */
  predicate IsSlug(s: string) {
    s == [] || ((IsLowercase(s[0]) || IsDigit(s[0]) || s[0] == '-') && !("--" <= s) && IsSlug(s[1..]))
  }

  predicate IsHex(s: string) {
    s == [] || (IsHexDigit(s[0]) && IsHex(s[1..]))
  }

  /** Ids enter the program only through a constructor that checks `ValidSandboxId`. */
  type SandboxId = string

  /** The Unicode White_Space property. */
  predicate IsWhitespace(c: char) {
    var n := c as int;
    || 9 <= n <= 13 || n == 0x20 || n == 0x85 || n == 0xA0 || n == 0x1680
    || 0x2000 <= n <= 0x200A || n == 0x2028 || n == 0x2029 || n == 0x202F || n == 0x205F || n == 0x3000
  }

  /** The Unicode category Cc. */
  predicate IsControl(c: char) {
    var n := c as int;
    n <= 0x1F || 0x7F <= n <= 0x9F
  }

  predicate ValidName(name: string) {
    && (exists k | 0 <= k < |name| :: !IsWhitespace(name[k]))
    && (forall k | 0 <= k < |name| :: !IsControl(name[k]))
  }

  function NewIdentity(kind: ResourceKind, name: string): Result<ResourceIdentity, RuntimeError> {
    if ValidName(name) then Ok(ResourceIdentity(kind, name)) else Err(InvalidResourceIdentity(name))
  }

  lemma SandboxIdIsValidName(id: SandboxId)
    requires ValidSandboxId(id)
    ensures ValidName(id)
  {
    var cut := |id| - 13;
    SlugHasNoControl(id[..cut]);
    HexHasNoControl(id[cut + 1..]);
    forall k | 0 <= k < |id| ensures !IsControl(id[k]) {
      assert id[k] == if k < cut then id[..cut][k] else if k == cut then '-' else id[cut + 1..][k - cut - 1];
    }
    assert !IsWhitespace(id[cut]);
  }

  lemma {:induction false} SlugHasNoControl(s: string)
    requires IsSlug(s)
    ensures forall k | 0 <= k < |s| :: !IsControl(s[k])
  {
    if s != [] {
      SlugHasNoControl(s[1..]);
      forall k | 0 <= k < |s| ensures !IsControl(s[k]) { assert k > 0 ==> s[k] == s[1..][k - 1]; }
    }
  }

  lemma {:induction false} HexHasNoControl(s: string)
    requires IsHex(s)
    ensures forall k | 0 <= k < |s| :: !IsControl(s[k])
  {
    if s != [] {
      HexHasNoControl(s[1..]);
      forall k | 0 <= k < |s| ensures !IsControl(s[k]) { assert k > 0 ==> s[k] == s[1..][k - 1]; }
    }
  }

  // ----------------------------------------------------------------- resources

  /** An observation. The removal proof is an opaque token, modelled as a number never handed out twice. */
  datatype RuntimeResource = RuntimeResource(
    identity: ResourceIdentity,
    sandboxId: Option<SandboxId>,
    ownership: ResourceOwnership,
    proof: nat)

  datatype RuntimeError =
    | CommandIo(operation: string, message: string)
    | CommandFailed(operation: string, exitCode: Option<int>, stderr: string)
    | InvalidOutput(operation: string, message: string)
    | HelperError(operation: string, code: string, message: string)
    | UnsupportedCapability(capability: string)
    | OwnershipMismatch(resource: string)
    | ForeignResourceRefused(resource: string)
    | InvalidResourceIdentity(name: string)
    | Conflict(resource: string, message: string)
    | NotFound(resource: string)
    | InvalidState(resource: string, message: string)
    | InjectedFailure(boundary: string)

  predicate OwnedBy(r: RuntimeResource, id: SandboxId) {
    r.ownership == GasCanOwned && r.sandboxId == Some(id)
  }

  function Identities(rs: seq<RuntimeResource>): set<ResourceIdentity> {
    set r | r in rs :: r.identity
  }

  predicate DistinctIdentities(rs: seq<RuntimeResource>) {
    forall i, j | 0 <= i < j < |rs| :: rs[i].identity != rs[j].identity
  }

  // ------------------------------------------------------------ create requests

  datatype OwnershipMetadata = OwnershipMetadata(managedBy: string, sandboxId: SandboxId)

  datatype RuntimeBindMount = RuntimeBindMount(source: string, target: string, writable: bool)

  datatype RuntimeVolume = RuntimeVolume(
    name: string, target: string, writable: bool, capacityBytes: nat, ownership: OwnershipMetadata)

  datatype IpAddr = V4(a: nat, b: nat, c: nat, d: nat) | V6(groups: seq<nat>)

  const LOCALHOST: IpAddr := V4(127, 0, 0, 1)

  type U16 = n: int | 0 <= n < 0x1_0000

  datatype RuntimePort = RuntimePort(hostAddress: IpAddr, hostPort: U16, guestPort: U16)

  datatype RuntimeResourceLimits = RuntimeResourceLimits(
    cpus: Option<U16>, memoryBytes: Option<nat>, diskBytes: Option<nat>, processCount: Option<nat>)

  datatype RuntimeNetwork = Networked(name: string) | Offline

  datatype RuntimeUser = WorkspaceUser | RootUser

  datatype CreateRequest = CreateRequest(
    id: SandboxId,
    image: string,
    bindMounts: seq<RuntimeBindMount>,
    volumes: seq<RuntimeVolume>,
    ports: seq<RuntimePort>,
    environment: map<string, string>,
    resources: RuntimeResourceLimits,
    network: RuntimeNetwork,
    user: RuntimeUser,
    init: bool,
    ownership: OwnershipMetadata)

  function ContainerIdentity(id: SandboxId): ResourceIdentity { ResourceIdentity(Container, id) }

  function VolumeIdentities(request: CreateRequest): set<ResourceIdentity> {
    set v | v in request.volumes :: ResourceIdentity(Volume, v.name)
  }

  function NetworkIdentities(request: CreateRequest): set<ResourceIdentity> {
    match request.network
    case Networked(name) => {ResourceIdentity(Network, name)}
    case Offline => {}
  }

  /** What a container-only replacement keeps. */
  function RetainedTopology(request: CreateRequest): set<ResourceIdentity> {
    VolumeIdentities(request) + NetworkIdentities(request)
  }

  /** Everything a request may create. */
  function Topology(request: CreateRequest): set<ResourceIdentity> {
    {ContainerIdentity(request.id)} + RetainedTopology(request)
  }

  /** The names from which evidence checks build identities. */
  predicate ValidNames(request: CreateRequest) {
    ValidName(request.id) && ValidVolumeNames(request)
  }

  predicate ValidVolumeNames(request: CreateRequest) {
    forall v | v in request.volumes :: ValidName(v.name)
  }

  // ------------------------------------------------------------- evidence checks

  /** Create evidence: resources of this request's topology, owned by its sandbox, each named once. */
  predicate IsEvidence(request: CreateRequest, created: seq<RuntimeResource>) {
    && (forall r | r in created :: r.identity in Topology(request) && OwnedBy(r, request.id))
    && DistinctIdentities(created)
  }

  predicate IsCompleteEvidence(request: CreateRequest, created: seq<RuntimeResource>) {
    && IsEvidence(request, created)
    && ContainerIdentity(request.id) in Identities(created)
    && NetworkIdentities(request) <= Identities(created)
  }

  predicate IsRetainedEvidence(request: CreateRequest, resources: seq<RuntimeResource>) {
    && ValidVolumeNames(request)
    && (forall r | r in resources :: OwnedBy(r, request.id))
    && DistinctIdentities(resources)
    && Identities(resources) == RetainedTopology(request)
  }

  lemma SubsetOfEqualSize<T>(a: set<T>, b: set<T>)
    requires a <= b && |a| == |b|
    ensures a == b
  {
    if a != b {
      var x :| x in b && x !in a;
      assert a <= b - {x};
      SubsetSize(a, b - {x});
    }
  }

  lemma IdentitiesOfPrefix(rs: seq<RuntimeResource>, n: nat)
    requires n < |rs|
    ensures Identities(rs[..n + 1]) == Identities(rs[..n]) + {rs[n].identity}
  {
    assert rs[..n + 1] == rs[..n] + [rs[n]];
  }

  /** The loop all evidence checks share: every resource allowed, owned, and named for the first time. */
  method CollectIdentities(allowed: set<ResourceIdentity>, id: SandboxId, rs: seq<RuntimeResource>)
    returns (identities: set<ResourceIdentity>, offending: Option<RuntimeResource>)
    ensures offending.None? <==>
            (forall r | r in rs :: r.identity in allowed && OwnedBy(r, id)) && DistinctIdentities(rs)
    ensures offending.None? ==> identities == Identities(rs)
  {
    identities := {};
    for n := 0 to |rs|
      invariant identities == Identities(rs[..n])
      invariant forall k | 0 <= k < n :: rs[k].identity in allowed && OwnedBy(rs[k], id)
      invariant DistinctIdentities(rs[..n])
    {
      var resource := rs[n];
      if resource.identity !in allowed || !OwnedBy(resource, id) || resource.identity in identities {
        assert resource.identity in identities ==> exists k | 0 <= k < n :: rs[..n][k].identity == resource.identity;
        return identities, Some(resource);
      }
      IdentitiesOfPrefix(rs, n);
      identities := identities + {resource.identity};
    }
    assert rs[..|rs|] == rs;
    return identities, None;
  }

  method FindInvalidVolume(request: CreateRequest) returns (invalid: Option<RuntimeError>)
    ensures invalid.None? <==> ValidVolumeNames(request)
    ensures invalid.Some? ==> invalid.value.InvalidResourceIdentity?
  {
    for n := 0 to |request.volumes|
      invariant forall k | 0 <= k < n :: ValidName(request.volumes[k].name)
    {
      var identity := NewIdentity(Volume, request.volumes[n].name);
      if identity.Err? { return Some(identity.error); }
    }
    return None;
  }

  /**
   * Accepts exactly the evidence that covers the requested volumes and network once each. The code compares only the
   * number of distinct identities with the expected number.
   */
  method ValidateRetainedResources(request: CreateRequest, resources: seq<RuntimeResource>)
    returns (r: Result<(), RuntimeError>)
    ensures r.Ok? <==> IsRetainedEvidence(request, resources)
  {
    var invalid := FindInvalidVolume(request);
    if invalid.Some? { return Err(invalid.value); }
    var expected := RetainedTopology(request);
    var identities, offending := CollectIdentities(expected, request.id, resources);
    if offending.Some? {
      MembersAreListed(resources);
      return Err(OwnershipMismatch(offending.value.identity.name));
    }
    var expectedCount := |VolumeIdentities(request)| + |NetworkIdentities(request)|;
    assert |expected| == expectedCount;
    if |identities| != expectedCount {
      return Err(InvalidState(request.id, "retained resources do not exactly match the requested topology"));
    }
    SubsetOfEqualSize(identities, expected);
    return Ok(());
  }

  lemma MembersAreListed(rs: seq<RuntimeResource>)
    ensures forall r | r in rs :: r.identity in Identities(rs)
  {
  }

  /** `CreateOutcome::new` (container and network required) and `CreateFailure::new` (not required). */
  method ValidateCreatedResources(request: CreateRequest, created: seq<RuntimeResource>, requireContainer: bool)
    returns (r: Result<(), RuntimeError>)
    ensures r.Ok? <==>
            && ValidNames(request)
            && (if requireContainer then IsCompleteEvidence(request, created) else IsEvidence(request, created))
    ensures r.Err? ==> !r.error.CommandIo?
  {
    var container := NewIdentity(Container, request.id);
    if container.Err? { return Err(container.error); }
    var invalid := FindInvalidVolume(request);
    if invalid.Some? { return Err(invalid.value); }
    var identities, offending := CollectIdentities(Topology(request), request.id, created);
    if offending.Some? { return Err(OwnershipMismatch(offending.value.identity.name)); }
    if requireContainer && ContainerIdentity(request.id) !in identities {
      return Err(InvalidState(request.id, "create outcome does not contain the requested container"));
    }
    if requireContainer && !(NetworkIdentities(request) <= identities) {
      return Err(InvalidState(request.id, "create outcome does not contain the requested managed network"));
    }
    return Ok(());
  }

  predicate Qualifies(request: CreateRequest, r: RuntimeResource) {
    r.identity in Topology(request) && OwnedBy(r, request.id)
  }

  /** The first qualifying observation of each identity, in order. */
  function Kept(request: CreateRequest, created: seq<RuntimeResource>): seq<RuntimeResource> {
    if created == [] then [] else
      var rest := Kept(request, created[..|created| - 1]);
      var last := created[|created| - 1];
      if Qualifies(request, last) && last.identity !in Identities(rest) then rest + [last] else rest
  }

  /** What `Kept` means: sound, free of duplicates, no qualifying identity is lost, and exact evidence is untouched. */
  lemma KeptIsExactEvidence(request: CreateRequest, created: seq<RuntimeResource>)
    ensures IsEvidence(request, Kept(request, created))
    ensures forall r | r in Kept(request, created) :: r in created
    ensures forall r | r in created && Qualifies(request, r) :: r.identity in Identities(Kept(request, created))
    ensures IsEvidence(request, created) ==> Kept(request, created) == created
  {
    KeptIsSound(request, created);
    if IsEvidence(request, created) { EvidenceIsKept(request, created); }
  }

  lemma {:induction false} KeptIsSound(request: CreateRequest, created: seq<RuntimeResource>)
    ensures IsEvidence(request, Kept(request, created))
    ensures forall r | r in Kept(request, created) :: r in created
    ensures forall r | r in created && Qualifies(request, r) :: r.identity in Identities(Kept(request, created))
  {
    if created != [] {
      var init := created[..|created| - 1];
      var last := created[|created| - 1];
      assert created == init + [last];
      KeptIsSound(request, init);
      var rest := Kept(request, init);
      assert Identities(rest + [last]) == Identities(rest) + {last.identity};
    }
  }

  lemma {:induction false} EvidenceIsKept(request: CreateRequest, created: seq<RuntimeResource>)
    requires IsEvidence(request, created)
    ensures Kept(request, created) == created
  {
    if created != [] {
      var init := created[..|created| - 1];
      var last := created[|created| - 1];
      assert created == init + [last];
      assert forall k | 0 <= k < |init| :: created[k] == init[k];
      EvidenceIsKept(request, init);
      assert last in created;
    }
  }

  lemma KeptOfOne(request: CreateRequest, created: seq<RuntimeResource>)
    requires |created| == 1 && Qualifies(request, created[0])
    ensures Kept(request, created) == created
  {
    EvidenceIsKept(request, created);
  }

  /** `CreateFailure::from_created_evidence`: drops whatever is malformed, foreign, unrelated or repeated. */
  method FromCreatedEvidence(request: CreateRequest, created: seq<RuntimeResource>)
    returns (kept: seq<RuntimeResource>)
    ensures kept == Kept(request, created)
  {
    var identities: set<ResourceIdentity> := {};
    kept := [];
    for n := 0 to |created|
      invariant kept == Kept(request, created[..n])
      invariant identities == Identities(kept)
    {
      assert created[..n + 1][..n] == created[..n];
      var resource := created[n];
      if Qualifies(request, resource) && resource.identity !in identities {
        assert Identities(kept + [resource]) == Identities(kept) + {resource.identity};
        identities := identities + {resource.identity};
        kept := kept + [resource];
      }
    }
    assert created[..|created|] == created;
  }

  // ------------------------------------------------------- results and requests

  datatype CreateFailure = CreateFailure(created: seq<RuntimeResource>, source: RuntimeError)

  /** What a create reports to have made, whether it succeeded or not. */
  function Evidence(r: Result<seq<RuntimeResource>, CreateFailure>): seq<RuntimeResource> {
    match r
    case Ok(created) => created
    case Err(failure) => failure.created
  }

  /** A create request with the observations that must survive a container-only replacement. */
  datatype RecreateRequest = RecreateRequest(create: CreateRequest, retained: seq<RuntimeResource>)

  /** What `RemoveRequest::from_resources` accepts. */
  predicate IsRemoveRequest(resources: seq<RuntimeResource>) {
    resources != [] && forall r | r in resources :: r.ownership == GasCanOwned
  }

  /** Containers first, then volumes, then networks, each in the order given. */
  function RemovalOrder(resources: seq<RuntimeResource>): seq<RuntimeResource> {
    OfKind(resources, Container) + OfKind(resources, Volume) + OfKind(resources, Network)
  }

  function OfKind(resources: seq<RuntimeResource>, kind: ResourceKind): seq<RuntimeResource> {
    if resources == [] then []
    else if resources[0].identity.kind == kind then [resources[0]] + OfKind(resources[1..], kind)
    else OfKind(resources[1..], kind)
  }

  /** Removal order rearranges the request and drops nothing. */
  lemma RemovalOrderIsPermutation(rs: seq<RuntimeResource>)
    ensures multiset(RemovalOrder(rs)) == multiset(rs)
    ensures forall r :: r in RemovalOrder(rs) <==> r in rs
  {
    KindsPartition(rs);
    forall r ensures r in RemovalOrder(rs) <==> r in rs {
      assert r in RemovalOrder(rs) <==> r in multiset(RemovalOrder(rs));
      assert r in rs <==> r in multiset(rs);
    }
  }

  lemma {:induction false} KindsPartition(rs: seq<RuntimeResource>)
    ensures multiset(OfKind(rs, Container)) + multiset(OfKind(rs, Volume)) + multiset(OfKind(rs,
      Network)) == multiset(rs)
  {
    if rs != [] {
      KindsPartition(rs[1..]);
      assert rs == [rs[0]] + rs[1..];
    }
  }
}
