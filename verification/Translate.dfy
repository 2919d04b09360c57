// Translating a create request for the two runtimes (crates/gascan-arca/src/translate.rs,
// crates/gascan-apple/src/translate.rs).
module Translate {
  import opened Wrappers
  import opened Text
  import opened Resources
  import opened Policy
  import ImageReference

  // ------------------------------------------------------------------------ ports on the wire

  type U32 = n: int | 0 <= n < 0x1_0000_0000

  datatype PortMapping = PortMapping(hostPort: U32, guestPort: U32)

  function ToWire(ports: seq<RuntimePort>): (wire: seq<PortMapping>)
    ensures |wire| == |ports|
  {
    seq(|ports|, k requires 0 <= k < |ports| => PortMapping(ports[k].hostPort, ports[k].guestPort))
  }

  /** What the engine may report: real ports, each host port once. */
  predicate GoodWire(wire: seq<PortMapping>) {
    && (forall k | 0 <= k < |wire| :: 0 < wire[k].hostPort < 0x1_0000 && 0 < wire[k].guestPort < 0x1_0000)
    && (forall i, j | 0 <= i < j < |wire| :: wire[i].hostPort != wire[j].hostPort)
  }

  function FromWire(wire: seq<PortMapping>): (ports: seq<RuntimePort>)
    requires GoodWire(wire)
    ensures |ports| == |wire|
  {
    seq(|wire|, k requires 0 <= k < |wire| => RuntimePort(LOCALHOST, wire[k].hostPort, wire[k].guestPort))
  }

  /** `port_mappings`: accepts exactly loopback ports, nonzero, each host port once. */
  method PortMappings(ports: seq<RuntimePort>) returns (r: Result<seq<PortMapping>, RuntimeError>)
    ensures r.Ok? <==> GoodPorts(ports)
    ensures r.Ok? ==> r.value == ToWire(ports)
  {
    var seen: set<U16> := {};
    var wire: seq<PortMapping> := [];
    for n := 0 to |ports|
      invariant forall p :: p in seen <==> exists k | 0 <= k < n :: ports[k].hostPort == p
      invariant GoodPorts(ports[..n])
      invariant wire == ToWire(ports[..n])
    {
      var port := ports[n];
      PrefixGrows(ports, n);
      if port.hostAddress != LOCALHOST { return Err(InvalidState("engine port mapping", "loopback is implied")); }
      if port.hostPort == 0 || port.guestPort == 0
        { return Err(InvalidState("engine port mapping", "port 0 is not a mapping")); }
      if port.hostPort in seen { return Err(InvalidState("engine port mapping", "host port is mapped twice")); }
      seen := seen + {port.hostPort};
      wire := wire + [PortMapping(port.hostPort, port.guestPort)];
    }
    assert ports[..|ports|] == ports;
    return Ok(wire);
  }

  lemma PrefixGrows(ports: seq<RuntimePort>, n: nat)
    requires n < |ports|
    ensures ToWire(ports[..n + 1]) == ToWire(ports[..n]) + [PortMapping(ports[n].hostPort, ports[n].guestPort)]
    ensures forall k | 0 <= k <= n :: ports[..n + 1][k] == ports[k]
  {
  }

  lemma OneMoreMapping(wire: seq<PortMapping>, n: nat)
    requires n < |wire| && GoodWire(wire[..n])
    requires 0 < wire[n].hostPort < 0x1_0000 && 0 < wire[n].guestPort < 0x1_0000
    requires forall k | 0 <= k < n :: wire[k].hostPort != wire[n].hostPort
    ensures GoodWire(wire[..n + 1])
    ensures FromWire(wire[..n + 1])
         == FromWire(wire[..n]) + [RuntimePort(LOCALHOST, wire[n].hostPort, wire[n].guestPort)]
  {
    var more := wire[..n + 1];
    assert forall k | 0 <= k < n :: more[k] == wire[..n][k] == wire[k];
    assert more[n] == wire[n];
  }

  /** `runtime_ports`: accepts exactly good mappings and restores the loopback address. */
  method RuntimePorts(wire: seq<PortMapping>) returns (r: Result<seq<RuntimePort>, RuntimeError>)
    ensures r.Ok? <==> GoodWire(wire)
    ensures r.Ok? ==> r.value == FromWire(wire)
  {
    var seen: set<U32> := {};
    var ports: seq<RuntimePort> := [];
    for n := 0 to |wire|
      invariant forall p :: p in seen <==> exists k | 0 <= k < n :: wire[k].hostPort == p
      invariant GoodWire(wire[..n])
      invariant ports == FromWire(wire[..n])
    {
      var port := wire[n];
      if port.hostPort > 0xffff || port.guestPort > 0xffff
        { return Err(InvalidOutput("inspect", "port is out of range")); }
      if port.hostPort == 0 || port.guestPort == 0 { return Err(InvalidOutput("inspect", "port 0 is not a mapping")); }
      if port.hostPort in seen { return Err(InvalidOutput("inspect", "host port is published twice")); }
      OneMoreMapping(wire, n);
      seen := seen + {port.hostPort};
      ports := ports + [RuntimePort(LOCALHOST, port.hostPort, port.guestPort)];
    }
    assert wire[..|wire|] == wire;
    return Ok(ports);
  }

  /** To the wire and back, and from it and back, are identities, order included. */
  lemma PortsRoundTrip(ports: seq<RuntimePort>)
    requires GoodPorts(ports)
    ensures GoodWire(ToWire(ports)) && FromWire(ToWire(ports)) == ports
  {
  }

  lemma WireRoundTrip(wire: seq<PortMapping>)
    requires GoodWire(wire)
    ensures GoodPorts(FromWire(wire)) && ToWire(FromWire(wire)) == wire
  {
  }

  // ------------------------------------------------------------------------- Arca requests

  datatype WireVolume = WireVolume(name: string, guestPath: string, capacityBytes: nat)

  datatype WireRequest = WireRequest(
    sandboxId: string, repository: string, sha256: string, hostPath: string, guestPath: string,
    volumes: seq<WireVolume>, ports: seq<PortMapping>, environment: map<string, string>,
    resources: RuntimeResourceLimits, network: RuntimeNetwork, user: RuntimeUser, init: bool, owner: OwnershipMetadata)

  /** What the engine contract can express. */
  predicate Expressible(request: CreateRequest) {
    && ImageReference.Accepted(request.image)
    && |request.bindMounts| == 1 && request.bindMounts[0].writable
    && (forall k | 0 <= k < |request.volumes| :: request.volumes[k].writable)
    && GoodPorts(request.ports)
  }

  function WireVolumes(volumes: seq<RuntimeVolume>): (wire: seq<WireVolume>)
    ensures |wire| == |volumes|
  {
    seq(|volumes|,
      k requires 0 <= k < |volumes| => WireVolume(volumes[k].name, volumes[k].target, volumes[k].capacityBytes))
  }

  method TranslateVolumes(volumes: seq<RuntimeVolume>) returns (r: Result<seq<WireVolume>, RuntimeError>)
    ensures r.Ok? <==> forall k | 0 <= k < |volumes| :: volumes[k].writable
    ensures r.Ok? ==> r.value == WireVolumes(volumes)
  {
    var wire: seq<WireVolume> := [];
    for n := 0 to |volumes|
      invariant forall k | 0 <= k < n :: volumes[k].writable
      invariant wire == WireVolumes(volumes[..n])
    {
      if !volumes[n].writable { return Err(InvalidState("engine volume", "a read-only volume is not expressible")); }
      wire := wire + [WireVolume(volumes[n].name, volumes[n].target, volumes[n].capacityBytes)];
      assert wire == WireVolumes(volumes[..n + 1]);
    }
    assert volumes[..|volumes|] == volumes;
    return Ok(wire);
  }

  /** `create_request` */
  method ArcaCreate(request: CreateRequest) returns (r: Result<WireRequest, RuntimeError>)
    ensures r.Ok? <==> Expressible(request)
    ensures r.Ok? ==> r.value == OnTheWire(request)
  {
    var identity := ImageReference.Identity(request.image);
    if identity.None? { return Err(InvalidState("engine image", "not a named sha256 digest reference")); }
    if |request.bindMounts| != 1
      { return Err(InvalidState("engine project mount", "exactly one project mount is expressible")); }
    var mount := request.bindMounts[0];
    if !mount.writable
      { return Err(InvalidState("engine project mount", "a read-only project mount is not expressible")); }
    var volumes := TranslateVolumes(request.volumes);
    if volumes.Err? { return Err(volumes.error); }
    var ports := PortMappings(request.ports);
    if ports.Err? { return Err(ports.error); }
    return Ok(WireRequest(
      request.id, identity.value.0, identity.value.1, mount.source, mount.target, volumes.value, ports.value,
      request.environment, request.resources, request.network, request.user, request.init, request.ownership));
  }

  function OnTheWire(request: CreateRequest): WireRequest
    requires Expressible(request)
  {
    var identity := ImageReference.Identity(request.image).value;
    var mount := request.bindMounts[0];
    WireRequest(
      request.id, identity.0, identity.1, mount.source, mount.target, WireVolumes(request.volumes),
        ToWire(request.ports),
      request.environment, request.resources, request.network, request.user, request.init, request.ownership)
  }

  /** What the wire form says, read back as a request for a sandbox that owns its volumes. */
  function ReadBack(wire: WireRequest): CreateRequest
    requires GoodWire(wire.ports)
  {
    CreateRequest(
      wire.sandboxId, wire.repository + ImageReference.SEPARATOR + wire.sha256,
      [RuntimeBindMount(wire.hostPath, wire.guestPath, true)],
      seq(|wire.volumes|, k requires 0 <= k < |wire.volumes| =>
        RuntimeVolume(wire.volumes[k].name, wire.volumes[k].guestPath, true, wire.volumes[k].capacityBytes,
          wire.owner)),
      FromWire(wire.ports), wire.environment, wire.resources, wire.network, wire.user, wire.init, wire.owner)
  }

  /** Every request the compiler or a restoration produces is accepted, and only the image's tag is lost. */
  lemma SealedSurvivesTheWire(request: CreateRequest)
    requires Sealed(request)
    ensures Expressible(request)
    ensures GoodWire(OnTheWire(request).ports)
    ensures ReadBack(OnTheWire(request)) == request.(image := WithoutTag(request.image))
  {
    PortsRoundTrip(request.ports);
    var back := ReadBack(OnTheWire(request));
    assert request.bindMounts == back.bindMounts;
    assert request.volumes == back.volumes;
  }

  function WithoutTag(image: string): string
    requires ImageReference.Accepted(image)
  {
    var (repository, digest) := ImageReference.Identity(image).value;
    repository + ImageReference.SEPARATOR + digest
  }

  // ------------------------------------------------------------------------------ removal

  /** `remove_request`: one call carries the labels of one sandbox. */
  method RemovalOwner(resources: seq<RuntimeResource>) returns (r: Result<SandboxId, RuntimeError>)
    ensures r.Ok? ==> resources != [] && forall k | 0 <= k < |resources| :: resources[k].sandboxId == Some(r.value)
    ensures r.Err?
      ==> forall id :: resources == [] || exists k | 0 <= k < |resources| :: resources[k].sandboxId != Some(id)
  {
    var owner: Option<SandboxId> := None;
    for n := 0 to |resources|
      invariant owner.None? <==> n == 0
      invariant forall k | 0 <= k < n :: resources[k].sandboxId == owner
    {
      var id := resources[n].sandboxId;
      if id.None? { return Err(OwnershipMismatch(resources[n].identity.name)); }
      if owner.Some? && owner != id {
        assert resources[0].sandboxId == owner;
        return Err(InvalidState("engine remove request", "one remove call carries one sandbox's labels"));
      }
      owner := id;
    }
    if owner.None? { return Err(InvalidState("engine remove request", "at least one resource is required")); }
    return Ok(owner.value);
  }

  // ------------------------------------------------------------------------ Apple requests

  datatype TranslationError =
    | MissingImageDigest | InvalidOwnership | InvalidWorkspaceMount | InvalidOwnedVolume | NonLoopbackPort
    | UnsupportedControl(control: string) | MissingControl(control: string) | UnsupportedUser | InitRequired

  predicate DigestImage(image: string) {
    match ImageReference.SplitOnce(image, ImageReference.SEPARATOR)
    case None => false
    case Some((name, digest)) => name != "" && |digest| == 64 && IsHexDigits(digest)
  }

  predicate OwnedVolumes(request: CreateRequest) {
    && |request.volumes| == 3
    && forall k | 0 <= k < 3 ::
      && request.volumes[k].name == ["gascan-mise-", "gascan-cache-", "gascan-config-"][k] + request.id
      && request.volumes[k].target == [TOOLS_ROOT, CACHE_ROOT, CONFIG_ROOT][k]
      && request.volumes[k].writable
      && request.volumes[k].ownership == request.ownership
  }

  ghost predicate AppleAccepts(request: CreateRequest, canonical: string -> Option<string>) {
    && DigestImage(request.image)
    && request.ownership == Owner(request.id)
    && |request.bindMounts| == 1 && request.bindMounts[0].target == WORKSPACE_TARGET && request.bindMounts[0].writable
    && canonical(request.bindMounts[0].source) == Some(request.bindMounts[0].source)
    && OwnedVolumes(request)
    && (forall k | 0 <= k < |request.ports| :: request.ports[k].hostAddress == LOCALHOST)
    && request.resources.diskBytes == None && request.resources.processCount == None
    && request.resources.cpus.Some? && request.resources.memoryBytes.Some?
    && request.user == WorkspaceUser && request.init
  }

  /** `validate_view`; `canonical` is what the host resolves a path to. */
  method ValidateView(request: CreateRequest, canonical: string -> Option<string>)
      returns (r: Result<(), TranslationError>)
    ensures r.Ok? <==> AppleAccepts(request, canonical)
  {
    if !DigestImage(request.image) { return Err(MissingImageDigest); }
    if request.ownership != Owner(request.id) { return Err(InvalidOwnership); }
    if |request.bindMounts| != 1 { return Err(InvalidWorkspaceMount); }
    var mount := request.bindMounts[0];
    if mount.target != WORKSPACE_TARGET || !mount.writable || canonical(mount.source) != Some(mount.source) {
      return Err(InvalidWorkspaceMount);
    }
    if !OwnedVolumes(request) { return Err(InvalidOwnedVolume); }
    for n := 0 to |request.ports|
      invariant forall k | 0 <= k < n :: request.ports[k].hostAddress == LOCALHOST
    {
      if request.ports[n].hostAddress != LOCALHOST { return Err(NonLoopbackPort); }
    }
    var resources := request.resources;
    if resources.diskBytes.Some? { return Err(UnsupportedControl("disk")); }
    if resources.processCount.Some? { return Err(UnsupportedControl("process_count")); }
    if resources.cpus.None? { return Err(MissingControl("cpus")); }
    if resources.memoryBytes.None? { return Err(MissingControl("memory")); }
    if request.user != WorkspaceUser { return Err(UnsupportedUser); }
    if !request.init { return Err(InitRequired); }
    return Ok(());
  }

  /** A compiled or restored request passes exactly for the workspace user and a canonical mount source. */
  lemma SealedPassesApple(request: CreateRequest, canonical: string -> Option<string>)
    requires Sealed(request)
    ensures AppleAccepts(request, canonical) <==>
            request.user == WorkspaceUser
              && canonical(request.bindMounts[0].source) == Some(request.bindMounts[0].source)
  {
    AcceptedHasDigest(request.image);
    SealedOwnsVolumes(request);
  }

  /** Whatever compiles translates, for both runtimes, also after its transport has been replaced. */
  lemma TranslationIsTotal(
    spec: Spec, capabilities: Capabilities, image: string, variables: map<string, string>,
    control: Option<Control>, replacement: Option<Control>, canonical: string -> Option<string>)
    requires Compile(spec, capabilities, image, variables, control).Ok?
    ensures var compiled := Compile(spec, capabilities, image, variables, control).value;
      var accepted := spec.manifest.user == WorkspaceUser && canonical(spec.canonicalRoot) == Some(spec.canonicalRoot);
      && Expressible(compiled) && (AppleAccepts(compiled, canonical) <==> accepted)
      && var restored := Restored(compiled, replacement);
      && (restored.Ok? ==> Expressible(restored.value) && (AppleAccepts(restored.value, canonical) <==> accepted))
  {
    var compiled := Compile(spec, capabilities, image, variables, control).value;
    CompiledIsSealed(spec, capabilities, image, variables, control);
    SealedTranslates(compiled, canonical);
    if Restored(compiled, replacement).Ok? {
      RestoredIsSealed(compiled, replacement);
      RestoringKeepsUserAndMounts(compiled, replacement);
      SealedTranslates(Restored(compiled, replacement).value, canonical);
    }
  }

  lemma RestoringKeepsUserAndMounts(request: CreateRequest, control: Option<Control>)
    requires Restored(request, control).Ok?
    ensures var restored := Restored(request, control).value;
      restored.user == request.user && restored.bindMounts == request.bindMounts
  {
  }

  lemma SealedTranslates(request: CreateRequest, canonical: string -> Option<string>)
    requires Sealed(request)
    ensures Expressible(request)
    ensures AppleAccepts(request, canonical) <==>
            request.user == WorkspaceUser
              && canonical(request.bindMounts[0].source) == Some(request.bindMounts[0].source)
  {
    SealedSurvivesTheWire(request);
    SealedPassesApple(request, canonical);
  }

  lemma AcceptedHasDigest(image: string)
    requires ImageReference.Accepted(image)
    ensures DigestImage(image)
  {
  }

  lemma SealedOwnsVolumes(request: CreateRequest)
    requires Sealed(request)
    ensures OwnedVolumes(request)
  {
  }
}
