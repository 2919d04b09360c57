// The policy compiler (crates/gascan-core/src/policy.rs): a validated sandbox specification becomes a create request,
// and the native SSH transport of a compiled request can be replaced afterwards.
module Policy {
  import opened Wrappers
  import opened Resources
  import ImageReference
  import SshKey

  const DEFAULT_CPUS: U16 := 4
  const MAX_CPUS: U16 := 16
  const GIB: nat := 1024 * 1024 * 1024
  const DEFAULT_MEMORY_BYTES: nat := 8 * GIB
  const MAX_MEMORY_BYTES: nat := 64 * GIB
  const MANAGED_BY := "gascan"
  const WORKSPACE_TARGET := "/workspace"
  const TOOLS_ROOT := "/home/workspace/.local"
  const CACHE_ROOT := "/home/workspace/.cache"
  const CONFIG_ROOT := "/home/workspace/.config"
  const SSH_ENABLED := "GASCAN_SSH_ENABLED"
  const SSH_KEY := "GASCAN_SSH_AUTHORIZED_KEY"

  const WORKSPACE_ENVIRONMENT: map<string, string> := map[
    "CARGO_HOME" := "/home/workspace/.local/share/cargo",
    "GEM_HOME" := "/home/workspace/.local/share/gem",
    "GOCACHE" := "/home/workspace/.cache/go-build",
    "GOBIN" := "/home/workspace/.local/bin",
    "GOMODCACHE" := "/home/workspace/.cache/go-mod",
    "GOPATH" := "/home/workspace/.local/share/go",
    "HEX_HOME" := "/home/workspace/.local/share/hex",
    "HOME" := "/home/workspace",
    "MISE_CARGO_HOME" := "/home/workspace/.local/share/cargo",
    "MISE_CACHE_DIR" := "/home/workspace/.cache/mise",
    "MISE_DATA_DIR" := "/home/workspace/.local/share/mise",
    "MISE_GLOBAL_CONFIG_FILE" := "/home/workspace/.config/gascan/mise.toml",
    "MISE_STATE_DIR" := "/home/workspace/.config/gascan/mise-state",
    "MISE_SYSTEM_CONFIG_FILE" := "/etc/mise/config.toml",
    "MISE_SYSTEM_DATA_DIR" := "/opt/gascan/mise",
    "MISE_RUSTUP_HOME" := "/home/workspace/.local/share/rustup",
    "MIX_HOME" := "/home/workspace/.local/share/mix",
    "NPM_CONFIG_CACHE" := "/home/workspace/.cache/npm",
    "NPM_CONFIG_PREFIX" := "/home/workspace/.local",
    "PATH" := "/home/workspace/.local/bin:/home/workspace/.local/share/cargo/bin:"
      + "/home/workspace/.local/share/go/bin:/home/workspace/.local/share/gem/bin:"
      + "/home/workspace/.local/share/mise/shims:/opt/gascan/mise/shims:/usr/local/sbin:/usr/local/bin:"
      + "/opt/gascan/workstation/bin:/usr/sbin:/usr/bin:/sbin:/bin",
    "PYTHONUSERBASE" := "/home/workspace/.local",
    "REBAR_CACHE_DIR" := "/home/workspace/.cache/rebar3",
    "RUSTUP_HOME" := "/home/workspace/.local/share/rustup",
    "XDG_CACHE_HOME" := "/home/workspace/.cache",
    "XDG_CONFIG_HOME" := "/home/workspace/.config",
    "XDG_DATA_HOME" := "/home/workspace/.local/share"
  ]

  // ------------------------------------------------------------------------------ inputs

  datatype NetworkMode = NetworkedMode | OfflineMode

  datatype Ssh = Ssh(enabled: bool, hostPort: Option<U16>)

  datatype Storage = Storage(tools: nat, cache: nat, config: nat)

  /** The parts of a loaded manifest that the compiler reads. Declared ports are in the order of their names. */
  datatype Manifest = Manifest(
    network: NetworkMode, user: RuntimeUser, cpus: Option<U16>, memory: Option<nat>, disk: Option<nat>,
    storage: Storage, ports: seq<U16>, ssh: Ssh)

  /** SSH as the manifest states it, with its defaults (crates/gascan-core/src/manifest.rs). */
  function LoadSsh(network: NetworkMode, enabled: Option<bool>, hostPort: Option<U16>): (r: Option<Ssh>)
    ensures r.Some? ==> SshFits(network, r.value)
    ensures r.Some? ==> r.value.enabled == SshOn(network, enabled) && r.value.hostPort == hostPort
    ensures r.None? <==>
      || (network == OfflineMode && enabled == Some(true))
      || (hostPort.Some? && (hostPort.value < 1024 || !SshOn(network, enabled)))
  {
    if network == OfflineMode && enabled == Some(true) then None
    else
      var on := if enabled.Some? then enabled.value else network == NetworkedMode;
      if (!on && hostPort.Some?) || (hostPort.Some? && hostPort.value < 1024) then None else Some(Ssh(on, hostPort))
  }

  /** SSH is on where it is asked for and, where nothing is said, with any network. */
  predicate SshOn(network: NetworkMode, enabled: Option<bool>) {
    enabled == Some(true) || (enabled.None? && network == NetworkedMode)
  }

  /** What loading guarantees: SSH only with a network. */
  predicate SshFits(network: NetworkMode, ssh: Ssh) { ssh.enabled ==> network == NetworkedMode }

  datatype Spec = Spec(id: SandboxId, canonicalRoot: string, bindMounts: seq<RuntimeBindMount>, manifest: Manifest)

  datatype Isolation = Proven | Unsupported | Unverified

  datatype Capabilities = Capabilities(
    bindMounts: bool, namedVolumes: bool, resourceLimits: bool, loopbackPublish: bool, offline: Isolation)

  datatype Control = Control(authorizedKey: Option<string>, hostPort: Option<U16>)

  datatype PolicyError =
    | InvalidWorkspaceImage | InvalidSshAuthorizedKey | MissingSshAuthorizedKey | MissingSshHostPort
    | InvalidSshHostPort | SshHostPortMismatch(manifest: U16, controlPlane: U16) | InvalidMount
    | BindMountsUnavailable | NamedVolumesUnavailable | ResourceLimitsUnavailable | LoopbackPublishUnavailable
    | OfflineUnavailable | OfflineUnsupported | OfflinePortsForbidden | InvalidPort | DuplicatePort(port: U16)
    | CpusExceedMaximum | MemoryExceedsMaximum | DiskControlUnsupported

  // ------------------------------------------------------------------------------- ports

  function Published(port: U16): RuntimePort { RuntimePort(LOCALHOST, port, port) }

  function SshPort(hostPort: U16): RuntimePort { RuntimePort(LOCALHOST, hostPort, 22) }

  /** Each declared port published as itself, or the first reason not to. */
  function DeclaredPorts(declared: seq<U16>): Result<seq<RuntimePort>, PolicyError> {
    if declared == [] then Ok([])
    else
      var before, port := declared[..|declared| - 1], declared[|declared| - 1];
      var r := DeclaredPorts(before);
      if r.Err? then r
      else if port == 0 then Err(InvalidPort)
      else if port in before then Err(DuplicatePort(port))
      else Ok(r.value + [Published(port)])
  }

  predicate Distinct(ports: seq<U16>) { forall i, j | 0 <= i < j < |ports| :: ports[i] != ports[j] }

  function PublishAll(declared: seq<U16>): (ports: seq<RuntimePort>)
    ensures |ports| == |declared|
  {
    seq(|declared|, k requires 0 <= k < |declared| => Published(declared[k]))
  }

  /** Declared ports compile exactly when they are nonzero and distinct, each to itself. */
  lemma {:induction false} DeclaredPortsMeaning(declared: seq<U16>)
    ensures DeclaredPorts(declared).Ok? <==> 0 !in declared && Distinct(declared)
    ensures DeclaredPorts(declared).Ok? ==> DeclaredPorts(declared).value == PublishAll(declared)
  {
    if declared != [] {
      var before, port := declared[..|declared| - 1], declared[|declared| - 1];
      DeclaredPortsMeaning(before);
      assert declared == before + [port];
      assert PublishAll(declared) == PublishAll(before) + [Published(port)];
      assert Distinct(declared) <==> Distinct(before) && port !in before;
    }
  }

  function PortsFor(network: NetworkMode, declared: seq<U16>, sshHostPort: Option<U16>): Result<seq<RuntimePort>,
      PolicyError> {
    if network == OfflineMode && declared != [] then Err(OfflinePortsForbidden)
    else
      var r := DeclaredPorts(declared);
      if r.Err? || sshHostPort.None? then r
      else if sshHostPort.value in declared then Err(DuplicatePort(sshHostPort.value))
      else Ok(r.value + [SshPort(sshHostPort.value)])
  }

  /** `compile_ports`: one pass with the set of host ports already used. */
  method CompilePorts(network: NetworkMode, declared: seq<U16>, sshHostPort: Option<U16>)
    returns (r: Result<seq<RuntimePort>, PolicyError>)
    ensures r == PortsFor(network, declared, sshHostPort)
  {
    if network == OfflineMode && |declared| > 0 { return Err(OfflinePortsForbidden); }
    var seen: set<U16> := {};
    var ports: seq<RuntimePort> := [];
    for n := 0 to |declared|
      invariant forall p :: p in seen <==> p in declared[..n]
      invariant DeclaredPorts(declared[..n]) == Ok(ports)
    {
      var port := declared[n];
      OneMorePort(declared, n);
      if port == 0 {
        FirstReasonStands(declared, n + 1);
        return Err(InvalidPort);
      }
      if port in seen {
        FirstReasonStands(declared, n + 1);
        return Err(DuplicatePort(port));
      }
      seen := seen + {port};
      ports := ports + [Published(port)];
    }
    assert declared[..|declared|] == declared;
    if sshHostPort.Some? {
      if sshHostPort.value in seen { return Err(DuplicatePort(sshHostPort.value)); }
      ports := ports + [SshPort(sshHostPort.value)];
    }
    return Ok(ports);
  }

  lemma OneMorePort(declared: seq<U16>, n: nat)
    requires n < |declared|
    ensures declared[..n + 1][..n] == declared[..n] && declared[..n + 1][n] == declared[n]
    ensures forall p :: p in declared[..n + 1] <==> p in declared[..n] || p == declared[n]
  {
    assert declared[..n + 1] == declared[..n] + [declared[n]];
  }

  lemma {:induction false} FirstReasonStands(declared: seq<U16>, n: nat)
    requires n <= |declared| && DeclaredPorts(declared[..n]).Err?
    ensures DeclaredPorts(declared) == DeclaredPorts(declared[..n])
    decreases |declared|
  {
    if n < |declared| {
      var before := declared[..|declared| - 1];
      assert before[..n] == declared[..n];
      FirstReasonStands(before, n);
    } else {
      assert declared[..n] == declared;
    }
  }

  // ---------------------------------------------------------------------------- compiler

  /** Exactly the canonical writable workspace mount. */
  predicate ValidMounts(spec: Spec) {
    spec.bindMounts == [RuntimeBindMount(spec.canonicalRoot, WORKSPACE_TARGET, true)]
  }

  function CapabilityError(manifest: Manifest, capabilities: Capabilities, ssh: bool): Option<PolicyError> {
    if !capabilities.bindMounts then Some(BindMountsUnavailable)
    else if !capabilities.namedVolumes then Some(NamedVolumesUnavailable)
    else if !capabilities.resourceLimits then Some(ResourceLimitsUnavailable)
    else if (manifest.ports != [] || ssh) && !capabilities.loopbackPublish then Some(LoopbackPublishUnavailable)
    else if manifest.network == OfflineMode && capabilities.offline == Unsupported then Some(OfflineUnsupported)
    else if manifest.network == OfflineMode && capabilities.offline == Unverified then Some(OfflineUnavailable)
    else None
  }

  /** The key and host port a control plane offers, checked the same way by both entry points. */
  function Transport(control: Control): Result<(string, U16), PolicyError> {
    match control.authorizedKey
    case None => Err(MissingSshAuthorizedKey)
    case Some(key) =>
      if !SshKey.IsSshPublicKey(key) then Err(InvalidSshAuthorizedKey)
      else
        match control.hostPort
        case None => Err(MissingSshHostPort)
        case Some(port) => if port < 1024 then Err(InvalidSshHostPort) else Ok((key, port))
  }

  function SshHostPort(ssh: Ssh, control: Option<Control>): Result<Option<U16>, PolicyError> {
    if !ssh.enabled || control.None? then Ok(None)
    else
      match Transport(control.value)
      case Err(error) => Err(error)
      case Ok((key, port)) =>
        if ssh.hostPort.Some? && ssh.hostPort.value != port then Err(SshHostPortMismatch(ssh.hostPort.value, port))
        else Ok(Some(port))
  }

  function ResourcesFor(manifest: Manifest): Result<RuntimeResourceLimits, PolicyError> {
    var cpus := if manifest.cpus.Some? then manifest.cpus.value else DEFAULT_CPUS;
    var memory := if manifest.memory.Some? then manifest.memory.value else DEFAULT_MEMORY_BYTES;
    if cpus > MAX_CPUS then Err(CpusExceedMaximum)
    else if memory > MAX_MEMORY_BYTES then Err(MemoryExceedsMaximum)
    else if manifest.disk.Some? then Err(DiskControlUnsupported)
    else Ok(RuntimeResourceLimits(Some(cpus), Some(memory), None, None))
  }

  /** `guest_environment`, over the variables every sandbox gets. */
  function Environment(base: map<string, string>, ssh: bool, key: Option<string>): map<string, string> {
    var environment := base[SSH_ENABLED := if ssh then "1" else "0"];
    if ssh && key.Some? then environment[SSH_KEY := key.value] else environment
  }

  function Owner(id: SandboxId): OwnershipMetadata { OwnershipMetadata(MANAGED_BY, id) }

  function ManagedVolumes(id: SandboxId, storage: Storage): seq<RuntimeVolume> {
    [ RuntimeVolume("gascan-mise-" + id, TOOLS_ROOT, true, storage.tools, Owner(id)),
      RuntimeVolume("gascan-cache-" + id, CACHE_ROOT, true, storage.cache, Owner(id)),
      RuntimeVolume("gascan-config-" + id, CONFIG_ROOT, true, storage.config, Owner(id)) ]
  }

  /** `compile_for_image_internal`; `variables` is what `workspace_environment` gives every sandbox. */
  function Compile(spec: Spec, capabilities: Capabilities, image: string, variables: map<string, string>,
      control: Option<Control>): Result<CreateRequest, PolicyError> {
    var manifest := spec.manifest;
    var ssh := manifest.ssh.enabled && control.Some?;
    if !ImageReference.Accepted(image) then Err(InvalidWorkspaceImage)
    else if !ValidMounts(spec) then Err(InvalidMount)
    else
      match CapabilityError(manifest, capabilities, ssh)
      case Some(error) => Err(error)
      case None =>
        match SshHostPort(manifest.ssh, control)
        case Err(error) => Err(error)
        case Ok(sshHostPort) =>
          match PortsFor(manifest.network, manifest.ports, sshHostPort)
          case Err(error) => Err(error)
          case Ok(ports) =>
            match ResourcesFor(manifest)
            case Err(error) => Err(error)
            case Ok(resources) => Ok(Request(spec, image, variables, ports, if ssh then control.value.authorizedKey
              else None, ssh, resources))
  }

  function Request(spec: Spec, image: string, variables: map<string, string>, ports: seq<RuntimePort>,
      key: Option<string>, ssh: bool, resources: RuntimeResourceLimits): CreateRequest {
    CreateRequest(
      spec.id, image, spec.bindMounts, ManagedVolumes(spec.id, spec.manifest.storage), ports,
        Environment(variables, ssh, key),
      resources,
      if spec.manifest.network == NetworkedMode then Networked("gascan-network-" + spec.id) else Offline,
      spec.manifest.user, true, Owner(spec.id))
  }

  // ------------------------------------------------------------------- replacing transport

  function WithoutSsh(ports: seq<RuntimePort>): seq<RuntimePort> {
    if ports == [] then []
    else
      var before, last := WithoutSsh(ports[..|ports| - 1]), ports[|ports| - 1];
      if last.guestPort != 22 then before + [last] else before
  }

  predicate UsesHostPort(ports: seq<RuntimePort>, hostPort: U16) { exists p :: p in ports && p.hostPort == hostPort }

  /** The request with its SSH transport removed, and the switch set. */
  function Stripped(request: CreateRequest, ssh: bool): CreateRequest {
    request.(ports := WithoutSsh(request.ports),
             environment := (request.environment - {SSH_KEY})[SSH_ENABLED := if ssh then "1" else "0"])
  }

  function Restored(request: CreateRequest, control: Option<Control>): Result<CreateRequest, PolicyError> {
    var stripped := Stripped(request, control.Some?);
    if control.None? then Ok(stripped)
    else if request.network == Offline then Err(OfflinePortsForbidden)
    else
      match Transport(control.value)
      case Err(error) => Err(error)
      case Ok((key, port)) =>
        if UsesHostPort(stripped.ports, port) then Err(DuplicatePort(port))
        else Ok(stripped.(ports := stripped.ports + [SshPort(port)],
          environment := stripped.environment[SSH_KEY := key]))
  }

  /** `restore_ssh_transport`: edits the ports and the environment in place, then checks. */
  method RestoreSshTransport(original: CreateRequest, control: Option<Control>)
      returns (r: Result<CreateRequest, PolicyError>)
    ensures r == Restored(original, control)
  {
    var request := original;
    var kept: seq<RuntimePort> := [];
    for n := 0 to |request.ports|
      invariant kept == WithoutSsh(request.ports[..n])
    {
      assert request.ports[..n + 1][..n] == request.ports[..n];
      if request.ports[n].guestPort != 22 { kept := kept + [request.ports[n]]; }
    }
    assert request.ports[..|request.ports|] == request.ports;
    request := request.(ports := kept);
    request := request.(environment := request.environment - {SSH_KEY});
    request := request.(environment := request.environment[SSH_ENABLED := if control.Some? then "1" else "0"]);
    if control.None? { return Ok(request); }
    if request.network == Offline { return Err(OfflinePortsForbidden); }
    var transport := Transport(control.value);
    if transport.Err? { return Err(transport.error); }
    var (key, hostPort) := transport.value;
    for n := 0 to |request.ports|
      invariant forall k | 0 <= k < n :: request.ports[k].hostPort != hostPort
    {
      if request.ports[n].hostPort == hostPort {
        assert request.ports[n] in request.ports;
        return Err(DuplicatePort(hostPort));
      }
    }
    request := request.(ports := request.ports + [SshPort(hostPort)]);
    request := request.(environment := request.environment[SSH_KEY := key]);
    return Ok(request);
  }

  // -------------------------------------------------------------- patching and recompiling

  lemma NamesDiffer()
    ensures SSH_KEY != SSH_ENABLED
  {
    assert |SSH_KEY| != |SSH_ENABLED|;
  }

  /** The workspace variables meet what the results below ask of them. */
  lemma WorkspaceLeavesSshAlone()
    ensures SSH_KEY !in WORKSPACE_ENVIRONMENT
  {
    assert |SSH_KEY| == 25;
    assert forall name | name in WORKSPACE_ENVIRONMENT :: |name| < 25;
  }

  lemma EnvironmentPatched(base: map<string, string>, before: bool, oldKey: Option<string>, ssh: bool, key: string)
    requires SSH_KEY !in base && SSH_KEY != SSH_ENABLED
    ensures (Environment(base, before, oldKey) - {SSH_KEY})[SSH_ENABLED := if ssh then "1"
      else "0"] == Environment(base, ssh, None)
    ensures ssh ==> Environment(base, ssh, None)[SSH_KEY := key] == Environment(base, ssh, Some(key))
  {
  }

  lemma {:induction false} NothingToRemove(ports: seq<RuntimePort>)
    requires forall k | 0 <= k < |ports| :: ports[k].guestPort != 22
    ensures WithoutSsh(ports) == ports
  {
    if ports != [] {
      NothingToRemove(ports[..|ports| - 1]);
      assert ports == ports[..|ports| - 1] + [ports[|ports| - 1]];
    }
  }

  lemma {:induction false} WithoutSshMeaning(ports: seq<RuntimePort>)
    ensures |WithoutSsh(ports)| <= |ports|
    ensures forall p :: p in WithoutSsh(ports) <==> p in ports && p.guestPort != 22
    ensures (exists p :: p in ports && p.guestPort == 22) ==> |WithoutSsh(ports)| < |ports|
  {
    if ports != [] {
      var init, last := ports[..|ports| - 1], ports[|ports| - 1];
      WithoutSshMeaning(init);
      assert ports == init + [last];
    }
  }

  lemma LastSshRemoved(ports: seq<RuntimePort>, hostPort: U16)
    ensures WithoutSsh(ports + [SshPort(hostPort)]) == WithoutSsh(ports)
  {
    var all := ports + [SshPort(hostPort)];
    assert all[..|ports|] == ports;
  }

  /** Whatever transport a request was compiled with, its declared ports are what stripping leaves. */
  lemma PortsPatched(network: NetworkMode, declared: seq<U16>, sshHostPort: Option<U16>)
    requires PortsFor(network, declared, sshHostPort).Ok?
    ensures PortFacts(declared)
    ensures WithoutSsh(PortsFor(network, declared, sshHostPort).value) == WithoutSsh(PublishAll(declared))
  {
    var ports := PublishAll(declared);
    DeclaredPortsMeaning(declared);
    if sshHostPort.Some? { LastSshRemoved(ports, sshHostPort.value); }
    WithoutSshMeaning(ports);
    if 22 !in declared {
      NothingToRemove(ports);
    } else {
      var k :| 0 <= k < |declared| && declared[k] == 22;
      assert ports[k] in ports && ports[k].guestPort == 22;
    }
    forall port: U16 | port != 22 ensures UsesHostPort(WithoutSsh(ports), port)
      <==> port in declared { HostPortsKept(declared, port); }
  }

  lemma HostPortsKept(declared: seq<U16>, port: U16)
    requires port != 22
    ensures UsesHostPort(WithoutSsh(PublishAll(declared)), port) <==> port in declared
  {
    var ports := PublishAll(declared);
    WithoutSshMeaning(ports);
    if port in declared {
      var k :| 0 <= k < |declared| && declared[k] == port;
      assert ports[k] in ports && ports[k] in WithoutSsh(ports);
    }
  }

  /** Where replacing the transport and compiling afresh agree: the caller can read all of it off the inputs. */
  predicate Patchable(manifest: Manifest, capabilities: Capabilities, control: Option<Control>) {
    && 22 !in manifest.ports
    && (control.Some? ==> capabilities.loopbackPublish)
    && (control.Some? && control.value.hostPort.Some? && manifest.ssh.hostPort.Some?
      ==> manifest.ssh.hostPort == control.value.hostPort)
  }

  /**
   * For a manifest with SSH enabled, restoring any transport onto a request compiled with any other gives exactly what
   * compiling with it gives, errors included.
   */
  lemma PatchingEqualsRecompiling(spec: Spec, capabilities: Capabilities, image: string, variables: map<string, string>,
      before: Option<Control>, control: Option<Control>)
    requires SSH_KEY !in variables && SshFits(spec.manifest.network, spec.manifest.ssh) && spec.manifest.ssh.enabled
    requires Compile(spec, capabilities, image, variables, before).Ok?
    requires Patchable(spec.manifest, capabilities, control)
    ensures Restored(Compile(spec, capabilities, image, variables, before).value, control) == Compile(spec,
      capabilities, image, variables, control)
  {
    StrippedRequest(spec, capabilities, image, variables, before, control.Some?);
    if control.Some? && Transport(control.value).Ok? { KeyAdded(spec, image, variables, control.value); }
  }

  /** Stripping a compiled request forgets which transport it was compiled with. */
  lemma StrippedRequest(spec: Spec, capabilities: Capabilities, image: string, variables: map<string, string>,
      before: Option<Control>, ssh: bool)
    requires SSH_KEY !in variables && Compile(spec, capabilities, image, variables, before).Ok?
    ensures var manifest := spec.manifest;
      && ResourcesFor(manifest).Ok? && PortFacts(manifest.ports)
      && Stripped(Compile(spec, capabilities, image, variables, before).value, ssh)
         == Request(spec, image, variables, WithoutSsh(PublishAll(manifest.ports)), None, ssh,
           ResourcesFor(manifest).value)
  {
    var manifest := spec.manifest;
    NamesDiffer();
    PortsPatched(manifest.network, manifest.ports, SshHostPort(manifest.ssh, before).value);
    var on := manifest.ssh.enabled && before.Some?;
    EnvironmentPatched(variables, on, if on then before.value.authorizedKey else None, ssh, "");
  }

  lemma KeyAdded(spec: Spec, image: string, variables: map<string, string>, control: Control)
    requires SSH_KEY !in variables && Transport(control).Ok?
    ensures forall ports, resources ::
      var stripped := Request(spec, image, variables, ports, None, true, resources);
      stripped.(environment := stripped.environment[SSH_KEY := Transport(control).value.0])
        == Request(spec, image, variables, ports, control.authorizedKey, true, resources)
  {
    NamesDiffer();
    EnvironmentPatched(variables, true, None, true, Transport(control).value.0);
  }

  /** What is known of the declared ports of any request that compiled. */
  ghost predicate PortFacts(declared: seq<U16>) {
    && DeclaredPorts(declared) == Ok(PublishAll(declared))
    && (22 !in declared ==> WithoutSsh(PublishAll(declared)) == PublishAll(declared))
    && (22 in declared ==> |WithoutSsh(PublishAll(declared))| < |declared|)
    && forall port: U16 | port != 22 :: UsesHostPort(WithoutSsh(PublishAll(declared)), port) <==> port in declared
  }

  /** A declared port 22 survives compilation and does not survive restoration. */
  lemma FewerPorts(spec: Spec, capabilities: Capabilities, image: string, variables: map<string, string>,
      control: Option<Control>)
    requires PortFacts(spec.manifest.ports) && 22 in spec.manifest.ports
    ensures var compiled := Compile(spec, capabilities, image, variables, control);
      var extra := if spec.manifest.ssh.enabled && control.Some? then 1 else 0;
      compiled.Ok? ==> |compiled.value.ports| > |WithoutSsh(PublishAll(spec.manifest.ports))| + extra
  {
  }

  lemma RestoredPorts(request: CreateRequest, control: Option<Control>)
    requires Restored(request, control).Ok?
    ensures |Restored(request, control).value.ports| == |WithoutSsh(request.ports)| + (if control.Some? then 1 else 0)
    ensures WithoutSsh(request.ports) == Stripped(request, control.Some?).ports
  {
  }

  /** Without loopback publishing, or with the manifest's own host port contradicted, only compiling refuses. */
  lemma CompileRefuses(spec: Spec, capabilities: Capabilities, image: string, variables: map<string, string>,
      control: Option<Control>)
    requires spec.manifest.ssh.enabled && 22 !in spec.manifest.ports && !Patchable(spec.manifest, capabilities, control)
    ensures Compile(spec, capabilities, image, variables, control).Err?
  {
    assert control.Some?;
    if capabilities.loopbackPublish { assert SshHostPort(spec.manifest.ssh, control).Err?; }
  }

  /** When a restoration succeeds, it agrees with compiling afresh exactly on patchable inputs. */
  lemma PatchableIsExact(spec: Spec, capabilities: Capabilities, image: string, variables: map<string, string>,
      before: Option<Control>, control: Option<Control>)
    requires SSH_KEY !in variables && SshFits(spec.manifest.network, spec.manifest.ssh) && spec.manifest.ssh.enabled
    requires Compile(spec, capabilities, image, variables, before).Ok?
    requires Restored(Compile(spec, capabilities, image, variables, before).value, control).Ok?
    ensures Restored(Compile(spec, capabilities, image, variables, before).value, control) == Compile(spec,
      capabilities, image, variables, control)
       <==> Patchable(spec.manifest, capabilities, control)
  {
    if Patchable(spec.manifest, capabilities, control) {
      PatchingEqualsRecompiling(spec, capabilities, image, variables, before, control);
    } else if 22 in spec.manifest.ports {
      StrippedRequest(spec, capabilities, image, variables, before, control.Some?);
      FewerPorts(spec, capabilities, image, variables, control);
      RestoredPorts(Compile(spec, capabilities, image, variables, before).value, control);
    } else {
      CompileRefuses(spec, capabilities, image, variables, control);
    }
  }

  /** A declared port 22 is such an input: with no transport before or after, both succeed, and the port is gone. */
  lemma DeclaredPort22IsLost(id: SandboxId, root: string, user: RuntimeUser, storage: Storage)
      returns (spec: Spec, capabilities: Capabilities, image: string)
    ensures spec.id == id && spec.canonicalRoot == root && spec.manifest.ports == [22] && spec.manifest.ssh.enabled
    ensures var compiled := Compile(spec, capabilities, image, WORKSPACE_ENVIRONMENT, None);
      && compiled.Ok? && compiled.value.ports == [Published(22)]
      && Restored(compiled.value, None).Ok? && Restored(compiled.value, None).value.ports == []
    ensures SSH_KEY !in WORKSPACE_ENVIRONMENT && SshFits(spec.manifest.network, spec.manifest.ssh)
    ensures !Patchable(spec.manifest, capabilities, None)
  {
    var manifest := Manifest(NetworkedMode, user, None, None, None, storage, [22], Ssh(true, None));
    spec := Spec(id, root, [RuntimeBindMount(root, WORKSPACE_TARGET, true)], manifest);
    capabilities := Capabilities(true, true, true, true, Proven);
    image := ImageReference.SomeAccepted();
    WorkspaceLeavesSshAlone();
    DeclaredPortsMeaning([22]);
    assert PublishAll([22]) == [Published(22)];
    assert WithoutSsh([Published(22)]) == [];
  }

  /** The last restoration wins, on any request; in particular restoring twice is restoring once. */
  lemma LastRestorationWins(request: CreateRequest, first: Option<Control>, second: Option<Control>)
    requires Restored(request, first).Ok?
    ensures Restored(Restored(request, first).value, second) == Restored(request, second)
  {
    StrippedAgain(request, first, second.Some?);
  }

  lemma StrippedAgain(request: CreateRequest, first: Option<Control>, ssh: bool)
    requires Restored(request, first).Ok?
    ensures Stripped(Restored(request, first).value, ssh) == Stripped(request, ssh)
    ensures Restored(request, first).value.network == request.network
  {
    var stripped := WithoutSsh(request.ports);
    StrippedPorts(request.ports);
    if first.Some? { LastSshRemoved(stripped, Transport(first.value).value.1); }
    var key := if first.Some? then Transport(first.value).value.0 else "";
    StrippedVariables(request.environment, if first.Some? then "1" else "0", key, if ssh then "1" else "0");
  }

  lemma StrippedVariables(variables: map<string, string>, before: string, key: string, now: string)
    ensures var plain := (variables - {SSH_KEY})[SSH_ENABLED := before];
      && (plain - {SSH_KEY})[SSH_ENABLED := now] == (variables - {SSH_KEY})[SSH_ENABLED := now]
      && (plain[SSH_KEY := key] - {SSH_KEY})[SSH_ENABLED := now] == (variables - {SSH_KEY})[SSH_ENABLED := now]
  {
    NamesDiffer();
  }

  lemma StrippedPorts(ports: seq<RuntimePort>)
    ensures WithoutSsh(WithoutSsh(ports)) == WithoutSsh(ports)
  {
    var stripped := WithoutSsh(ports);
    WithoutSshMeaning(ports);
    assert forall k | 0 <= k < |stripped| :: stripped[k] in stripped;
    NothingToRemove(stripped);
  }

  // ------------------------------------------------------------------- what requests satisfy

  predicate GoodPorts(ports: seq<RuntimePort>) {
    && (forall k | 0 <= k < |ports| ::
        ports[k].hostAddress == LOCALHOST && ports[k].hostPort != 0 && ports[k].guestPort != 0)
    && (forall i, j | 0 <= i < j < |ports| :: ports[i].hostPort != ports[j].hostPort)
  }

  /** What holds of every request the compiler or a restoration produces. */
  predicate Sealed(request: CreateRequest) {
    && ImageReference.Accepted(request.image)
    && |request.bindMounts| == 1 && request.bindMounts[0].target == WORKSPACE_TARGET && request.bindMounts[0].writable
    && |request.volumes| == 3
    && request.volumes == ManagedVolumes(request.id,
      Storage(request.volumes[0].capacityBytes, request.volumes[1].capacityBytes, request.volumes[2].capacityBytes))
    && GoodPorts(request.ports)
    && request.resources.cpus.Some? && request.resources.memoryBytes.Some?
    && request.resources.diskBytes == None && request.resources.processCount == None
    && (request.network == Offline || request.network == Networked("gascan-network-" + request.id))
    && request.init
    && request.ownership == Owner(request.id)
  }

  lemma PublishedPortsAreGood(declared: seq<U16>, sshHostPort: Option<U16>)
    requires 0 !in declared && Distinct(declared) && sshHostPort != Some(0)
    requires sshHostPort.Some? ==> sshHostPort.value !in declared
    ensures GoodPorts(PublishAll(declared) + if sshHostPort.Some? then [SshPort(sshHostPort.value)] else [])
  {
  }

  lemma CompiledPortsAreGood(network: NetworkMode, declared: seq<U16>, sshHostPort: Option<U16>)
    requires PortsFor(network, declared, sshHostPort).Ok? && sshHostPort != Some(0)
    ensures GoodPorts(PortsFor(network, declared, sshHostPort).value)
  {
    DeclaredPortsMeaning(declared);
    PublishedPortsAreGood(declared, sshHostPort);
    assert PublishAll(declared) + [] == PublishAll(declared);
  }

  lemma CompiledIsSealed(spec: Spec, capabilities: Capabilities, image: string, variables: map<string, string>,
      control: Option<Control>)
    requires Compile(spec, capabilities, image, variables, control).Ok?
    ensures Sealed(Compile(spec, capabilities, image, variables, control).value)
  {
    var manifest := spec.manifest;
    CompiledPortsAreGood(manifest.network, manifest.ports, SshHostPort(manifest.ssh, control).value);
  }

  lemma LastPortIsNew(ports: seq<RuntimePort>)
    requires GoodPorts(ports) && ports != []
    ensures GoodPorts(ports[..|ports| - 1]) && !UsesHostPort(ports[..|ports| - 1], ports[|ports| - 1].hostPort)
  {
    var init := ports[..|ports| - 1];
    forall p | p in init ensures p.hostPort != ports[|ports| - 1].hostPort {
      var j :| 0 <= j < |init| && init[j] == p;
    }
  }

  lemma {:induction false} SubsetOfGoodPorts(ports: seq<RuntimePort>)
    requires GoodPorts(ports)
    ensures GoodPorts(WithoutSsh(ports))
  {
    if ports != [] {
      var init, last := ports[..|ports| - 1], ports[|ports| - 1];
      LastPortIsNew(ports);
      SubsetOfGoodPorts(init);
      WithoutSshMeaning(init);
      OneMoreGoodPort(WithoutSsh(init), last);
    }
  }

  lemma RestoredIsSealed(request: CreateRequest, control: Option<Control>)
    requires Sealed(request) && Restored(request, control).Ok?
    ensures Sealed(Restored(request, control).value)
  {
    SubsetOfGoodPorts(request.ports);
    if control.Some? { OneMoreGoodPort(WithoutSsh(request.ports), SshPort(Transport(control.value).value.1)); }
  }

  lemma OneMoreGoodPort(ports: seq<RuntimePort>, port: RuntimePort)
    requires GoodPorts(ports) && !UsesHostPort(ports, port.hostPort)
    requires port.hostAddress == LOCALHOST && port.hostPort != 0 && port.guestPort != 0
    ensures GoodPorts(ports + [port])
  {
    assert forall k | 0 <= k < |ports| :: ports[k] in ports;
  }

  /** Every identity an evidence check will build from such a request is well formed. */
  lemma SealedHasValidNames(request: CreateRequest)
    requires Sealed(request) && ValidSandboxId(request.id)
    ensures ValidNames(request)
  {
    SandboxIdIsValidName(request.id);
    var volumes := request.volumes;
    ManagedNames(request.id, Storage(volumes[0].capacityBytes, volumes[1].capacityBytes, volumes[2].capacityBytes));
  }

  lemma ManagedNames(id: SandboxId, storage: Storage)
    requires ValidName(id)
    ensures forall v | v in ManagedVolumes(id, storage) :: ValidName(v.name)
  {
    PrefixedName("gascan-mise-", id);
    PrefixedName("gascan-cache-", id);
    PrefixedName("gascan-config-", id);
  }

  lemma PrefixedName(prefix: string, id: string)
    requires prefix != "" && !IsWhitespace(prefix[0]) && (forall k | 0 <= k < |prefix| :: !IsControl(prefix[k]))
      && ValidName(id)
    ensures ValidName(prefix + id)
  {
    assert (prefix + id)[0] == prefix[0];
  }
}
