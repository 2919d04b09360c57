// The in-memory runtime (crates/gascan-core/src/fake_runtime.rs): two maps, fault injection, and the backend
// calls that update them under one lock.
module FakeRuntime {
  import opened Wrappers
  import opened Resources

  datatype ContainerState = Creating | Running | Stopped

  datatype RuntimeSandbox = RuntimeSandbox(
    id: SandboxId, image: string, state: ContainerState, ownership: OwnershipMetadata, ports: seq<RuntimePort>)

  datatype FailureBoundary =
    | AtCreate | AtPrepareImage | AtCreateContainer | AtCreateContainerAfterMutation | AtStart | AtStop | AtRemove

  type ResourceMap = map<ResourceIdentity, RuntimeResource>

  type SandboxMap = map<SandboxId, RuntimeSandbox>

  const FAKE_WORKSPACE_IMAGE :=
    "ghcr.io/liquescent-development/gascan/workspace:fake@sha256:"
    + "aaaaaaaaaaaaaaaaaaaaaaaaaaaaaaaaaaaaaaaaaaaaaaaaaaaaaaaaaaaaaaaa"

  // ------------------------------------------------------------------- invariants

  /** Resources sit under their own identity, and a sandbox exists exactly when its container resource does. */
  predicate Consistent(sandboxes: SandboxMap, resources: ResourceMap) {
    && (forall i | i in resources :: resources[i].identity == i)
    && (forall id | id in sandboxes :: sandboxes[id].id == id && ContainerIdentity(id) in resources)
    && (forall i | i in resources && i.kind.Container? ::
          && resources[i].sandboxId.Some? && resources[i].sandboxId.value == i.name
          && resources[i].sandboxId.value in sandboxes)
  }

  /** Every proof in use was handed out earlier, so the next one is new. */
  predicate ProofsWereIssued(resources: ResourceMap, nextProof: nat) {
    forall i | i in resources :: resources[i].proof < nextProof
  }

  /** The new map is the old one plus exactly the reported resources, all of them new. */
  predicate ExtendedBy(before: ResourceMap, created: seq<RuntimeResource>, after: ResourceMap) {
    && DistinctIdentities(created)
    && Identities(created) !! before.Keys
    && after.Keys == before.Keys + Identities(created)
    && (forall i | i in before :: after[i] == before[i])
    && (forall r | r in created :: after[r.identity] == r)
  }

  /**
   * What a create may do to the resources: nothing present is touched, only the request's topology is added, and,
   * for well-formed volume names, exactly the evidence is added.
   */
  predicate CreateEffect(request: CreateRequest, evidence: seq<RuntimeResource>, before: ResourceMap,
      after: ResourceMap) {
    && before.Keys <= after.Keys
    && (forall i | i in before :: after[i] == before[i])
    && after.Keys - before.Keys <= Topology(request)
    && (ValidNames(request) ==> ExtendedBy(before, evidence, after) && IsEvidence(request, evidence))
  }

  lemma GrowthIsCreateEffect(request: CreateRequest, evidence: seq<RuntimeResource>, created: seq<RuntimeResource>,
      before: ResourceMap, after: ResourceMap)
    requires ExtendedBy(before, created, after) && IsEvidence(request, created)
    requires ValidNames(request) ==> evidence == created
    ensures CreateEffect(request, evidence, before, after)
  {
  }

  /** Whatever is not Gas Can's own is still there, untouched. */
  predicate ForeignUntouched(before: ResourceMap, after: ResourceMap) {
    forall i | i in before && before[i].ownership != GasCanOwned :: i in after && after[i] == before[i]
  }

  function RemovedSandboxes(rs: seq<RuntimeResource>): set<SandboxId> {
    set r | r in rs && r.identity.kind.Container? && r.sandboxId.Some? :: r.sandboxId.value
  }

  /** The resource is there, under the very proof it was recorded with. */
  predicate Holds(resources: ResourceMap, r: RuntimeResource) { r.identity in resources && resources[r.identity] == r }

  predicate Present(resources: ResourceMap, rs: seq<RuntimeResource>) { forall r | r in rs :: Holds(resources, r) }

  /** The ports the fake reports for a new container: an injected host port replaces that of the first mapping to 22. */
  function ObservedPorts(ports: seq<RuntimePort>, injected: seq<U16>): seq<RuntimePort> {
    if injected == [] || ports == [] then ports
    else if ports[0].guestPort == 22 then [ports[0].(hostPort := injected[0])] + ports[1..]
    else [ports[0]] + ObservedPorts(ports[1..], injected)
  }

  function NewSandbox(request: CreateRequest, injected: seq<U16>): RuntimeSandbox {
    RuntimeSandbox(request.id, request.image, Stopped, request.ownership, ObservedPorts(request.ports, injected))
  }

  // ------------------------------------------------------------------ what blocks a create

  predicate NetworkFine(request: CreateRequest, resources: ResourceMap) {
    request.network.Networked? ==>
      ValidName(request.network.name) && ResourceIdentity(Network, request.network.name) !in resources
  }

  function VolumeIdentity(v: RuntimeVolume): ResourceIdentity { ResourceIdentity(Volume, v.name) }

  /** A volume the sandbox already owns is reused; one owned otherwise is a conflict. */
  predicate VolumeFine(id: SandboxId, v: RuntimeVolume, resources: ResourceMap) {
    ValidName(v.name) && (VolumeIdentity(v) in resources ==> OwnedBy(resources[VolumeIdentity(v)], id))
  }

  /** What a create has to make. */
  function Missing(request: CreateRequest, resources: ResourceMap): set<ResourceIdentity> {
    Topology(request) - resources.Keys
  }

  /** The fault injected after so many mutations is met on the way to `count` of them. */
  predicate Reached(fault: Option<nat>, count: nat) { fault.Some? && 1 <= fault.value <= count }

  /** Something in the runtime, or the injected fault, stops this create after it has begun. */
  predicate Blocked(request: CreateRequest, resources: ResourceMap, fault: Option<nat>) {
    || !NetworkFine(request, resources)
    || (exists v :: v in request.volumes && !VolumeFine(request.id, v, resources))
    || Reached(fault, |Missing(request, resources)|)
  }

  lemma {:induction false} DistinctCount(rs: seq<RuntimeResource>)
    requires DistinctIdentities(rs)
    ensures |Identities(rs)| == |rs|
  {
    if rs != [] {
      var init, last := rs[..|rs| - 1], rs[|rs| - 1];
      assert rs == init + [last];
      DistinctCount(init);
      assert Identities(rs) == Identities(init) + {last.identity};
      assert last.identity !in Identities(init);
    }
  }

  lemma CreatedWasMissing(request: CreateRequest, base: ResourceMap, created: seq<RuntimeResource>)
    requires IsEvidence(request, created) && Identities(created) !! base.Keys
    ensures Identities(created) <= Missing(request, base) && |created| <= |Missing(request, base)|
  {
    assert forall i | i in Identities(created) :: i in Topology(request);
    DistinctCount(created);
    SubsetSize(Identities(created), Missing(request, base));
  }

  lemma FaultBlocks(request: CreateRequest, base: ResourceMap, created: seq<RuntimeResource>, after: ResourceMap)
    requires Grown(base, request, created, after) && created != []
    ensures Blocked(request, base, Some(|created|))
  {
    GrownMeans(base, request, created, after);
    CreatedWasMissing(request, base, created);
  }

  lemma AllWasMade(request: CreateRequest, base: ResourceMap, created: seq<RuntimeResource>)
    requires IsEvidence(request, created) && Identities(created) !! base.Keys
    requires Topology(request) <= base.Keys + Identities(created)
    ensures |Missing(request, base)| == |created|
  {
    CreatedWasMissing(request, base, created);
    NothingElseMissing(Topology(request), base.Keys, Identities(created));
    DistinctCount(created);
  }

  lemma NothingElseMissing(topology: set<ResourceIdentity>, before: set<ResourceIdentity>, made: set<ResourceIdentity>)
    requires made <= topology - before && topology <= before + made
    ensures topology - before == made
  {
  }

  /**
   * The map has grown by `created`, one new resource of the request after another. Told step by step; `GrownMeans` says
   * what it amounts to.
   */
  ghost predicate Grown(base: ResourceMap, request: CreateRequest, created: seq<RuntimeResource>, after: ResourceMap) {
    if created == [] then after == base
    else
      var init, last := created[..|created| - 1], created[|created| - 1];
      && Qualifies(request, last) && last.identity in after && after[last.identity] == last
      && Grown(base, request, init, after - {last.identity})
  }

  lemma GrownOnce(base: ResourceMap, request: CreateRequest, created: seq<RuntimeResource>, after: ResourceMap,
      r: RuntimeResource)
    requires Grown(base, request, created, after) && r.identity !in after && Qualifies(request, r)
    ensures Grown(base, request, created + [r], after[r.identity := r])
  {
    assert (created + [r])[..|created|] == created;
    assert after[r.identity := r] - {r.identity} == after;
  }

  lemma {:induction false} GrownMeans(base: ResourceMap, request: CreateRequest, created: seq<RuntimeResource>,
      after: ResourceMap)
    requires Grown(base, request, created, after)
    ensures ExtendedBy(base, created, after) && IsEvidence(request, created)
  {
    if created != [] {
      var init, last := created[..|created| - 1], created[|created| - 1];
      GrownMeans(base, request, init, after - {last.identity});
      assert created == init + [last];
      ExtendOne(base, init, after - {last.identity}, last);
      assert (after - {last.identity})[last.identity := last] == after;
    }
  }

  /** While a create grows the map, what is present is the request's own or was there before. */
  lemma {:induction false} GrownIsOwnedOrOld(base: ResourceMap, request: CreateRequest, created: seq<RuntimeResource>,
      after: ResourceMap, i: ResourceIdentity)
    requires Grown(base, request, created, after) && i in after
    ensures (i in base && after[i] == base[i]) || (i !in base && OwnedBy(after[i], request.id))
  {
    GrownMeans(base, request, created, after);
    if i !in base { var r :| r in created && r.identity == i; }
  }

  lemma NotInBase(base: ResourceMap, request: CreateRequest, created: seq<RuntimeResource>, after: ResourceMap,
      i: ResourceIdentity)
    requires Grown(base, request, created, after) && i !in after
    ensures i !in base
  {
    GrownMeans(base, request, created, after);
  }

  /** The network and every volume are fine and present. */
  predicate RetainedDone(request: CreateRequest, base: ResourceMap, after: set<ResourceIdentity>) {
    && NetworkFine(request, base) && NetworkIdentities(request) <= after
    && forall k | 0 <= k < |request.volumes| ::
      VolumeFine(request.id, request.volumes[k], base) && VolumeIdentity(request.volumes[k]) in after
  }

  lemma NothingBlocks(request: CreateRequest, base: ResourceMap, created: seq<RuntimeResource>, fault: Option<nat>)
    requires IsEvidence(request, created) && Identities(created) !! base.Keys
    requires RetainedDone(request, base, base.Keys + Identities(created))
    requires ContainerIdentity(request.id) in Identities(created) && !Reached(fault, |created|)
    ensures !Blocked(request, base, fault) && ValidVolumeNames(request)
  {
    var after := base.Keys + Identities(created);
    forall v | v in request.volumes ensures VolumeFine(request.id, v, base) && VolumeIdentity(v) in after {
      var k :| 0 <= k < |request.volumes| && request.volumes[k] == v;
    }
    AllWasMade(request, base, created);
  }

  /** A create that got as far as its container has made all that was missing, and its outcome is complete. */
  lemma ContainerDone(request: CreateRequest, base: ResourceMap, created: seq<RuntimeResource>, after: ResourceMap,
      fault: Option<nat>)
    requires Grown(base, request, created, after) && ValidName(request.id) && RetainedDone(request, base, after.Keys)
    requires ContainerIdentity(request.id) in after && ContainerIdentity(request.id) !in base
    requires !Reached(fault, |created|)
    ensures !Blocked(request, base, fault) && ValidNames(request) && IsCompleteEvidence(request, created)
  {
    GrownMeans(base, request, created, after);
    assert after.Keys == base.Keys + Identities(created);
    NothingBlocks(request, base, created, fault);
  }

  /** What a create that was let in reports: exactly what it made, and success exactly when nothing blocked it. */
  ghost predicate Provisioned(base: ResourceMap, request: CreateRequest, created: seq<RuntimeResource>,
      r: Result<seq<RuntimeResource>, CreateFailure>, fault: Option<nat>) {
    && Evidence(r) == (if ValidNames(request) then created else [])
    && (r.Ok? <==> !Blocked(request, base, fault))
    && (r.Ok? ==> ValidNames(request) && IsCompleteEvidence(request, r.value))
  }

  lemma ExtendOne(before: ResourceMap, created: seq<RuntimeResource>, after: ResourceMap, r: RuntimeResource)
    requires ExtendedBy(before, created, after) && r.identity !in after
    ensures ExtendedBy(before, created + [r], after[r.identity := r])
  {
    assert Identities(created + [r]) == Identities(created) + {r.identity};
    forall k | 0 <= k < |created| ensures created[k].identity in Identities(created) {}
  }

  datatype Seed =
    // seed_owned, seed_unowned, seed_mismatched
    | SeedContainer(id: SandboxId, ownership: ResourceOwnership, metadata: OwnershipMetadata)
    | SeedVolume(name: string, owner: Option<SandboxId>, ownership: ResourceOwnership)
    | SeedNetwork(name: string, owner: Option<SandboxId>, ownership: ResourceOwnership)

  /** The resource a seed plants, under a new proof; a malformed name plants none. */
  function Seeded(seed: Seed, proof: nat): Option<RuntimeResource> {
    match seed
    case SeedContainer(id, ownership, _) => Some(RuntimeResource(ContainerIdentity(id), Some(id), ownership, proof))
    case SeedVolume(name, owner, ownership) =>
      if ValidName(name) then Some(RuntimeResource(ResourceIdentity(Volume, name), owner, ownership, proof)) else None
    case SeedNetwork(name, owner, ownership) =>
      if ValidName(name) then Some(RuntimeResource(ResourceIdentity(Network, name), owner, ownership, proof)) else None
  }

  /** What a seeding leaves in an empty runtime, and the next proof it will issue. */
  function Planting(seeds: seq<Seed>): (ResourceMap, nat) {
    if seeds == [] then (map[], 0)
    else
      var (planted, proof) := Planting(seeds[..|seeds| - 1]);
      match Seeded(seeds[|seeds| - 1], proof)
      case None => (planted, proof)
      case Some(r) => (planted[r.identity := r], proof + 1)
  }

  function SeedIdentity(seed: Seed): ResourceIdentity {
    match seed
    case SeedContainer(id, _, _) => ContainerIdentity(id)
    case SeedVolume(name, _, _) => ResourceIdentity(Volume, name)
    case SeedNetwork(name, _, _) => ResourceIdentity(Network, name)
  }

  /** Each identity seeded under a well-formed name is there, as the last seed to name it described it. */
  lemma {:induction false} LastSeedStands(seeds: seq<Seed>, n: nat)
    requires n < |seeds| && (seeds[n].SeedContainer? || ValidName(seeds[n].name))
    requires forall m | n < m < |seeds| :: SeedIdentity(seeds[m]) != SeedIdentity(seeds[n])
    ensures SeedIdentity(seeds[n]) in Planting(seeds).0
    ensures Some(Planting(seeds).0[SeedIdentity(seeds[n])]) == Seeded(seeds[n], Planting(seeds[..n]).1)
    decreases |seeds|
  {
    var rest := seeds[..|seeds| - 1];
    if n < |rest| {
      LastSeedStands(rest, n);
      assert rest[..n] == seeds[..n];
    }
  }

  /** The faults a test can queue between two calls. */
  datatype Fault =
    | FailAt(boundary: FailureBoundary)
    | FailCreateAfter(mutations: nat)
    | ChangeImage(image: string)
    | QueueCreateError(error: RuntimeError)
    | QueuePortCollision
    | QueueHostPort(port: U16)

  datatype Call =
    | InjectCall(fault: Fault)
    | CreateCall(request: CreateRequest)
    | PrepareImageCall
    | CreateContainerCall(recreate: RecreateRequest)
    | StartCall(id: SandboxId)
    | StopCall(id: SandboxId)
    | RemoveCall(resources: seq<RuntimeResource>)
  {
    predicate ValidIds() {
      && (CreateCall? ==> ValidSandboxId(request.id))
      && (CreateContainerCall? ==> ValidSandboxId(recreate.create.id))
    }
  }

  // ------------------------------------------------------------------- calls as steps

  /** Everything the runtime holds. */
  datatype State = State(sandboxes: SandboxMap, resources: ResourceMap, nextProof: nat, failures: set<FailureBoundary>,
    createFailure: Option<nat>, imageChange: Option<string>, createErrors: seq<RuntimeError>, collisions: nat,
    hostPorts: seq<U16>)

  function Injected(s: State, fault: Fault): State {
    match fault
    case FailAt(boundary) => s.(failures := s.failures + {boundary})
    case FailCreateAfter(mutations) => s.(createFailure := Some(mutations))
    case ChangeImage(image) => s.(imageChange := Some(image))
    case QueueCreateError(error) => s.(createErrors := s.createErrors + [error])
    case QueuePortCollision => s.(collisions := s.collisions + 1)
    case QueueHostPort(port) => s.(hostPorts := s.hostPorts + [port])
  }

  /** Starting or stopping: the state of a known sandbox, unless a failure is injected there. */
  function Switched(s: State, boundary: FailureBoundary, id: SandboxId, state: ContainerState): State {
    s.(failures := s.failures - {boundary},
       sandboxes := if boundary !in s.failures && id in s.sandboxes then
           s.sandboxes[id := s.sandboxes[id].(state := state)] else s.sandboxes)
  }

  function Taken(s: State, rs: seq<RuntimeResource>): State {
    if !IsRemoveRequest(rs) then s
    else if AtRemove !in s.failures && Present(s.resources, rs) then
      s.(failures := s.failures - {AtRemove}, resources := s.resources - Identities(rs),
         sandboxes := s.sandboxes - RemovedSandboxes(rs))
    else s.(failures := s.failures - {AtRemove})
  }

  ghost predicate PreparesImage(s: State, t: State) {
    var failed := AtPrepareImage in s.failures;
    && t == s.(failures := s.failures - {AtPrepareImage}, imageChange := if failed then s.imageChange else None,
         sandboxes := t.sandboxes)
    && (if failed || s.imageChange.None? || s.sandboxes == map[] then t.sandboxes == s.sandboxes
        else exists id :: id in s.sandboxes && t.sandboxes == WithImage(s.sandboxes, id, s.imageChange.value))
  }

  function WithImage(sandboxes: SandboxMap, id: SandboxId, image: string): SandboxMap
    requires id in sandboxes
  {
    sandboxes[id := sandboxes[id].(image := image)]
  }

  /** Each create uses up the first of the faults it checks for: a collision, a queued error, an injected failure. */
  function AfterFault(s: State, boundary: FailureBoundary): State {
    if s.collisions > 0 then s.(collisions := s.collisions - 1)
    else if s.createErrors != [] then s.(createErrors := s.createErrors[1..])
    else s.(failures := s.failures - {boundary})
  }

  predicate SameFaults(s: State, t: State) {
    s.failures == t.failures && s.createErrors == t.createErrors && s.collisions == t.collisions
  }

  function PortsLeft(ports: seq<U16>): seq<U16> { if ports == [] then [] else ports[1..] }

  /** No create fault is pending. */
  predicate Unfaulted(s: State, boundary: FailureBoundary) {
    s.collisions == 0 && s.createErrors == [] && boundary !in s.failures
  }

  ghost predicate Creates(s: State, request: CreateRequest, t: State) {
    var admitted := Unfaulted(s, AtCreate) && request.id == request.ownership.sandboxId && request.id !in s.sandboxes;
    && SameFaults(t, AfterFault(s, AtCreate)) && t.imageChange == s.imageChange
    && t.hostPorts == (if ContainerIdentity(request.id) in t.resources.Keys - s.resources.Keys
         then PortsLeft(s.hostPorts) else s.hostPorts)
    && (exists evidence :: CreateAdds(s, request, admitted, evidence, t))
    && t.sandboxes == Recorded(s.sandboxes, s.resources, request, t.resources, NewSandbox(request, s.hostPorts))
  }

  predicate CreateAdds(s: State, request: CreateRequest, admitted: bool, evidence: seq<RuntimeResource>, t: State) {
    && CreateEffect(request, evidence, s.resources, t.resources)
    && (!admitted ==> t.resources == s.resources)
    && (admitted && !Blocked(request, s.resources, s.createFailure) ==> IsCompleteEvidence(request, evidence))
  }

  predicate Recreates(s: State, request: RecreateRequest, t: State) {
    var id := request.create.id;
    if Unfaulted(s, AtCreateContainer) && id !in s.sandboxes && Present(s.resources, request.retained) then
      t == s.(resources := s.resources[ContainerIdentity(id) := NewContainer(id, s.nextProof)],
              sandboxes := s.sandboxes[id := NewSandbox(request.create, s.hostPorts)], nextProof := s.nextProof + 1,
              hostPorts := PortsLeft(s.hostPorts),
              failures := s.failures - {AtCreateContainer, AtCreateContainerAfterMutation})
    else t == AfterFault(s, AtCreateContainer)
  }

  /** What one call does to the runtime. */
  ghost predicate Step(s: State, call: Call, t: State) {
    match call
    case InjectCall(fault) => t == Injected(s, fault)
    case CreateCall(request) => Creates(s, request, t)
    case PrepareImageCall => PreparesImage(s, t)
    case CreateContainerCall(recreate) => Recreates(s, recreate, t)
    case StartCall(id) => t == Switched(s, AtStart, id, Running)
    case StopCall(id) => t == Switched(s, AtStop, id, Stopped)
    case RemoveCall(rs) => t == Taken(s, rs)
  }

  /** The states a run of calls goes through. */
  ghost predicate Follows(states: seq<State>, calls: seq<Call>)
    decreases |calls|
  {
    && |states| == |calls| + 1
    && (calls == []
        || (&& Follows(states[..|calls|], calls[..|calls| - 1])
            && Step(states[|calls| - 1], calls[|calls| - 1], states[|calls|])))
  }

  lemma {:induction false} OneMoreCall(states: seq<State>, calls: seq<Call>, n: nat, t: State)
    requires n < |calls| && Follows(states, calls[..n]) && Step(states[n], calls[n], t)
    ensures Follows(states + [t], calls[..n + 1])
  {
    assert calls[..n + 1][..n] == calls[..n];
    assert (states + [t])[..n + 1] == states;
  }

  // ------------------------------------------------------------------- the object

  class FakeRuntime {
    var sandboxes: SandboxMap
    var resources: ResourceMap
    var nextProof: nat
    var failures: set<FailureBoundary>
    var createFailureAfterMutations: Option<nat>
    var imageChangeOnPrepare: Option<string>
    var createErrors: seq<RuntimeError>
    var sshPortCollisions: nat
    var createdSshHostPorts: seq<U16>

    ghost function Snap(): State
      reads this
    {
      State(sandboxes, resources, nextProof, failures, createFailureAfterMutations, imageChangeOnPrepare, createErrors,
        sshPortCollisions, createdSshHostPorts)
    }

    ghost predicate Valid()
      reads this
    {
      Consistent(sandboxes, resources) && ProofsWereIssued(resources, nextProof)
    }

    constructor ()
      ensures Valid() && sandboxes == map[] && resources == map[] && nextProof == 0 && failures == {}
    {
      sandboxes, resources, nextProof, failures := map[], map[], 0, {};
      createFailureAfterMutations, imageChangeOnPrepare := None, None;
      createErrors, sshPortCollisions, createdSshHostPorts := [], 0, [];
    }

    method Discover(identity: ResourceIdentity, owner: Option<SandboxId>, ownership: ResourceOwnership)
        returns (r: RuntimeResource)
      modifies this`nextProof
      ensures r == RuntimeResource(identity, owner, ownership, old(nextProof)) && nextProof == old(nextProof) + 1
    {
      r := RuntimeResource(identity, owner, ownership, nextProof);
      nextProof := nextProof + 1;
    }

    method FailOnce(boundary: FailureBoundary) returns (failed: bool)
      modifies this`failures
      ensures failed == (boundary in old(failures)) && failures == old(failures) - {boundary}
    {
      failed := boundary in failures;
      failures := failures - {boundary};
    }

    // ------------------------------------------------------------------- seeding

    method Plant(seed: Seed)
      requires Valid()
      modifies this
      ensures Valid() && failures == old(failures)
      ensures (resources, nextProof) == match Seeded(seed, old(nextProof))
        case None => (old(resources), old(nextProof))
        case Some(r) => (old(resources)[r.identity := r], old(nextProof) + 1)
      ensures sandboxes == if seed.SeedContainer?
        then old(sandboxes)[seed.id := RuntimeSandbox(seed.id, FAKE_WORKSPACE_IMAGE, Stopped, seed.metadata, [])]
          else old(sandboxes)
    {
      match seed {
        case SeedContainer(id, ownership, metadata) =>
          sandboxes := sandboxes[id := RuntimeSandbox(id, FAKE_WORKSPACE_IMAGE, Stopped, metadata, [])];
          var r := Discover(ContainerIdentity(id), Some(id), ownership);
          resources := resources[r.identity := r];
        case SeedVolume(name, owner, ownership) =>
          if ValidName(name) {
            var r := Discover(ResourceIdentity(Volume, name), owner, ownership);
            resources := resources[r.identity := r];
          }
        case SeedNetwork(name, owner, ownership) =>
          if ValidName(name) {
            var r := Discover(ResourceIdentity(Network, name), owner, ownership);
            resources := resources[r.identity := r];
          }
      }
    }

    // -------------------------------------------------------------------- create

    /** The injected faults both create calls check first. */
    method InjectedCreateFault(boundary: FailureBoundary) returns (fault: Option<RuntimeError>)
      modifies this`sshPortCollisions, this`createErrors, this`failures
      ensures fault.None? <==> old(sshPortCollisions) == 0 && old(createErrors) == [] && boundary !in old(failures)
      ensures sshPortCollisions == if old(sshPortCollisions) > 0 then old(sshPortCollisions) - 1 else 0
      ensures createErrors ==
        if old(sshPortCollisions) == 0 && old(createErrors) != [] then old(createErrors)[1..] else old(createErrors)
      ensures failures ==
        if old(sshPortCollisions) == 0 && old(createErrors) == [] then old(failures) - {boundary} else old(failures)
    {
      if sshPortCollisions > 0 {
        sshPortCollisions := sshPortCollisions - 1;
        return Some(CommandFailed("container", Some(1), "bind: address already in use"));
      }
      if createErrors != [] {
        fault := Some(createErrors[0]);
        createErrors := createErrors[1..];
        return;
      }
      var failed := FailOnce(boundary);
      return if failed then Some(InjectedFailure("create")) else None;
    }

    /** `create_failure`: evidence that does not validate is dropped altogether. */
    method Report(request: CreateRequest, created: seq<RuntimeResource>, source: RuntimeError)
        returns (failure: CreateFailure)
      ensures failure.created == if ValidNames(request) && IsEvidence(request, created) then created else []
    {
      var valid := ValidateCreatedResources(request, created, false);
      if valid.Ok? { return CreateFailure(created, source); }
      return CreateFailure([], valid.error);
    }

    /** The state of a create in progress. */
    ghost predicate Growing(base: ResourceMap, request: CreateRequest, created: seq<RuntimeResource>)
      reads this
    {
      Grown(base, request, created, resources) && ProofsWereIssued(resources, nextProof)
    }

    /** No injected fault was met on the way to `created`, and it is still pending if there is one. */
    ghost predicate Untripped(fault: Option<nat>, created: seq<RuntimeResource>)
      reads this
    {
      createFailureAfterMutations == fault && !Reached(fault, |created|)
    }

    /** A fresh resource of the request, under a new proof. */
    method Place(request: CreateRequest, ghost created: seq<RuntimeResource>, identity: ResourceIdentity,
        ghost base: ResourceMap) returns (r: RuntimeResource)
      requires Growing(base, request, created) && identity in Topology(request) && identity !in resources
      modifies this`resources, this`nextProof
      ensures Growing(base, request, created + [r]) && resources.Keys == old(resources.Keys) + {identity}
    {
      ghost var before := resources;
      r := Discover(identity, Some(request.id), GasCanOwned);
      GrownOnce(base, request, created, before, r);
      resources := resources[identity := r];
    }

    /** One mutation of `create`: a fresh owned resource, then the fault that may be injected right after it. */
    method Add(request: CreateRequest, created: seq<RuntimeResource>, identity: ResourceIdentity,
        ghost base: ResourceMap)
      returns (all: seq<RuntimeResource>, failure: Option<CreateFailure>)
      requires Growing(base, request, created) && identity in Topology(request) && identity !in resources
      requires !Reached(createFailureAfterMutations, |created|)
      modifies this`resources, this`nextProof, this`createFailureAfterMutations
      ensures Growing(base, request, all) && resources.Keys == old(resources.Keys) + {identity}
      ensures failure.None? ==> Untripped(old(createFailureAfterMutations), all)
      ensures failure.Some? ==> Blocked(request, base, old(createFailureAfterMutations))
      ensures failure.Some? ==> failure.value.created == if ValidNames(request) then all else []
    {
      var r := Place(request, created, identity, base);
      all := created + [r];
      failure := None;
      if createFailureAfterMutations == Some(|all|) {
        FaultBlocks(request, base, all, resources);
        failure := FailAfterMutation(request, all, base);
      }
    }

    method FailAfterMutation(request: CreateRequest, created: seq<RuntimeResource>, ghost base: ResourceMap)
      returns (failure: Option<CreateFailure>)
      requires Grown(base, request, created, resources)
      modifies this`createFailureAfterMutations
      ensures failure.Some? && failure.value.created == if ValidNames(request) then created else []
    {
      createFailureAfterMutations := None;
      GrownMeans(base, request, created, resources);
      var report := Report(request, created, InjectedFailure("create_after_mutation"));
      return Some(report);
    }

    method AddNetwork(request: CreateRequest, ghost base: ResourceMap)
        returns (created: seq<RuntimeResource>, failure: Option<CreateFailure>)
      requires Growing(base, request, []) && resources == base
      modifies this`resources, this`nextProof, this`createFailureAfterMutations
      ensures Growing(base, request, created) && HasContainer(request) == old(HasContainer(request))
      ensures failure.Some? ==> Blocked(request, base, old(createFailureAfterMutations))
      ensures failure.Some? ==> failure.value.created == if ValidNames(request) then created else []
      ensures failure.None? ==> Untripped(old(createFailureAfterMutations), created)
      ensures failure.None? ==> NetworkFine(request, base) && NetworkIdentities(request) <= resources.Keys
    {
      created := [];
      failure := None;
      if request.network.Networked? {
        var name := request.network.name;
        var identity := NewIdentity(Network, name);
        if identity.Err? || identity.value in resources {
          var source := if identity.Err? then identity.error else Conflict(name, "network already exists");
          var report := Report(request, created, source);
          return created, Some(report);
        }
        created, failure := Add(request, created, identity.value, base);
      }
    }

    predicate HasContainer(request: CreateRequest)
      reads this
    {
      ContainerIdentity(request.id) in resources
    }

    /** A volume the sandbox already owns is reused and not reported; one owned otherwise is a conflict. */
    method AddVolume(request: CreateRequest, prior: seq<RuntimeResource>, volume: RuntimeVolume,
        ghost base: ResourceMap)
      returns (created: seq<RuntimeResource>, failure: Option<CreateFailure>)
      requires Growing(base, request, prior) && volume in request.volumes
      requires !Reached(createFailureAfterMutations, |prior|)
      modifies this`resources, this`nextProof, this`createFailureAfterMutations
      ensures Growing(base, request, created) && HasContainer(request) == old(HasContainer(request))
      ensures old(resources.Keys) <= resources.Keys
      ensures failure.Some? ==> Blocked(request, base, old(createFailureAfterMutations))
      ensures failure.Some? ==> failure.value.created == if ValidNames(request) then created else []
      ensures failure.None? ==> Untripped(old(createFailureAfterMutations), created)
      ensures failure.None? ==> VolumeFine(request.id, volume, base) && VolumeIdentity(volume) in resources
    {
      created := prior;
      var identity := NewIdentity(Volume, volume.name);
      if identity.Err? { return created, Some(CreateFailure([], identity.error)); }
      if identity.value in resources {
        GrownIsOwnedOrOld(base, request, prior, resources, identity.value);
        if OwnedBy(resources[identity.value], request.id) { return created, None; }
        failure := ReportConflict(request, created, volume.name, base);
        return;
      }
      NotInBase(base, request, prior, resources, identity.value);
      created, failure := Add(request, created, identity.value, base);
    }

    method ReportConflict(request: CreateRequest, created: seq<RuntimeResource>, name: string, ghost base: ResourceMap)
      returns (failure: Option<CreateFailure>)
      requires Grown(base, request, created, resources)
      ensures failure.Some? && failure.value.created == if ValidNames(request) then created else []
    {
      GrownMeans(base, request, created, resources);
      var report := Report(request, created, Conflict(name, "volume exists with different ownership"));
      return Some(report);
    }

    /** Network and volumes, in that order. */
    method AddRetained(request: CreateRequest, ghost base: ResourceMap)
        returns (created: seq<RuntimeResource>, failure: Option<CreateFailure>)
      requires Growing(base, request, []) && resources == base
      modifies this`resources, this`nextProof, this`createFailureAfterMutations
      ensures Growing(base, request, created) && HasContainer(request) == old(HasContainer(request))
      ensures failure.Some? ==> Blocked(request, base, old(createFailureAfterMutations))
      ensures failure.Some? ==> failure.value.created == if ValidNames(request) then created else []
      ensures failure.None? ==> Untripped(old(createFailureAfterMutations), created)
      ensures failure.None? ==> RetainedDone(request, base, resources.Keys)
    {
      created, failure := AddNetwork(request, base);
      if failure.Some? { return; }
      for n := 0 to |request.volumes|
        invariant Growing(base, request, created) && Untripped(old(createFailureAfterMutations), created)
        invariant HasContainer(request) == old(HasContainer(request))
        invariant NetworkFine(request, base) && NetworkIdentities(request) <= resources.Keys
        invariant forall k | 0 <= k < n ::
          VolumeFine(request.id, request.volumes[k], base) && VolumeIdentity(request.volumes[k]) in resources.Keys
      {
        created, failure := AddVolume(request, created, request.volumes[n], base);
        if failure.Some? { return; }
      }
      return created, None;
    }

    /** The sandbox record, with the host port injected for its SSH mapping if there is one. */
    method RecordSandbox(request: CreateRequest)
      modifies this`sandboxes, this`createdSshHostPorts
      ensures sandboxes == old(sandboxes)[request.id := NewSandbox(request, old(createdSshHostPorts))]
      ensures createdSshHostPorts == PortsLeft(old(createdSshHostPorts))
    {
      sandboxes := sandboxes[request.id := NewSandbox(request, createdSshHostPorts)];
      createdSshHostPorts := PortsLeft(createdSshHostPorts);
    }

    /** The container, then the check of the whole outcome. */
    method AddContainer(request: CreateRequest, prior: seq<RuntimeResource>, ghost base: ResourceMap)
      returns (r: Result<seq<RuntimeResource>, CreateFailure>, ghost created: seq<RuntimeResource>)
      requires Growing(base, request, prior) && ValidName(request.id)
      requires !HasContainer(request) && ContainerIdentity(request.id) !in base
      requires RetainedDone(request, base, resources.Keys) && !Reached(createFailureAfterMutations, |prior|)
      modifies this`resources, this`nextProof, this`createFailureAfterMutations
      ensures Growing(base, request, created) && HasContainer(request)
      ensures Provisioned(base, request, created, r, old(createFailureAfterMutations))
    {
      ghost var fault := createFailureAfterMutations;
      var all, failure := Add(request, prior, ContainerIdentity(request.id), base);
      created := all;
      if failure.Some? { return Err(failure.value), created; }
      ContainerDone(request, base, created, resources, fault);
      r := Outcome(request, all);
    }

    /** `CreateOutcome::new`. */
    method Outcome(request: CreateRequest, created: seq<RuntimeResource>)
      returns (r: Result<seq<RuntimeResource>, CreateFailure>)
      ensures r.Ok? <==> ValidNames(request) && IsCompleteEvidence(request, created)
      ensures Evidence(r) == if r.Ok? then created else []
    {
      var outcome := ValidateCreatedResources(request, created, true);
      if outcome.Err? { return Err(CreateFailure([], outcome.error)); }
      return Ok(created);
    }

    /** Why a create may be refused before it touches anything. */
    method RefuseCreate(request: CreateRequest) returns (refused: Option<RuntimeError>)
      modifies this`sshPortCollisions, this`createErrors, this`failures
      ensures Snap() == AfterFault(old(Snap()), AtCreate)
      ensures refused.None? <==> old(Admits(request))
    {
      refused := InjectedCreateFault(AtCreate);
      if refused.None? && request.id != request.ownership.sandboxId {
        refused := Some(OwnershipMismatch(request.id));
      }
      if refused.None? && request.id in sandboxes {
        refused := Some(Conflict(request.id, "sandbox already exists"));
      }
    }

    /** No injected fault is pending and the request is for a new sandbox of its own. */
    predicate Admits(request: CreateRequest)
      reads this
    {
      && sshPortCollisions == 0 && createErrors == [] && AtCreate !in failures
      && request.id == request.ownership.sandboxId && request.id !in sandboxes
    }

    method Provision(request: CreateRequest)
      returns (r: Result<seq<RuntimeResource>, CreateFailure>, ghost created: seq<RuntimeResource>)
      requires ProofsWereIssued(resources, nextProof) && !HasContainer(request) && ValidName(request.id)
      modifies this`resources, this`nextProof, this`createFailureAfterMutations, this`sandboxes,
        this`createdSshHostPorts
      ensures Growing(old(resources), request, created)
      ensures Provisioned(old(resources), request, created, r, old(createFailureAfterMutations))
      ensures sandboxes == if HasContainer(request)
        then old(sandboxes)[request.id := NewSandbox(request, old(createdSshHostPorts))] else old(sandboxes)
      ensures createdSshHostPorts ==
        if HasContainer(request) then PortsLeft(old(createdSshHostPorts)) else old(createdSshHostPorts)
    {
      ghost var base := resources;
      var prior, failure := AddRetained(request, base);
      created := prior;
      if failure.Some? {
        r := Err(failure.value);
      } else {
        RecordSandbox(request);
        r, created := AddContainer(request, prior, base);
      }
    }

    /**
     * Create. It succeeds exactly when no fault is pending, the sandbox is new and its own, and nothing in the runtime
     * blocks it. On every exit the resources present before are untouched and the new ones belong to the request; when
     * its volume names are well formed, as in every compiled request, the map grew by exactly the reported evidence.
     * The sandbox is recorded exactly when its container is.
     */
    method Create(request: CreateRequest) returns (r: Result<seq<RuntimeResource>, CreateFailure>)
      requires Valid() && ValidSandboxId(request.id)
      modifies this`resources, this`nextProof, this`sandboxes, this`failures, this`createFailureAfterMutations,
        this`createErrors, this`sshPortCollisions, this`createdSshHostPorts
      ensures Valid() && SameFaults(Snap(), AfterFault(old(Snap()), AtCreate))
      ensures createdSshHostPorts == if ContainerIdentity(request.id) in resources.Keys - old(resources).Keys
        then PortsLeft(old(createdSshHostPorts)) else old(createdSshHostPorts)
      ensures r.Ok? <==> old(Admits(request)) && !Blocked(request, old(resources), old(createFailureAfterMutations))
      ensures !old(Admits(request)) ==> Evidence(r) == [] && resources == old(resources)
      ensures CreateEffect(request, Evidence(r), old(resources), resources)
      ensures sandboxes == Recorded(old(sandboxes), old(resources), request, resources,
        NewSandbox(request, old(createdSshHostPorts)))
      ensures r.Ok? ==> ValidNames(request) && IsCompleteEvidence(request, r.value)
    {
      var refused := RefuseCreate(request);
      if refused.Some? { return Err(CreateFailure([], refused.value)); }
      SandboxIdIsValidName(request.id);
      ghost var created;
      r, created := Provision(request);
      GrownMeans(old(resources), request, created, resources);
      GrowthIsCreateEffect(request, Evidence(r), created, old(resources), resources);
      GrowthKeepsConsistent(old(sandboxes), old(resources), request, created, resources, sandboxes);
    }

    // -------------------------------------------------------------------- remove

    method CheckRemoval(request: seq<RuntimeResource>) returns (refused: Option<RuntimeError>)
      requires IsRemoveRequest(request)
      ensures refused.None? <==> Present(resources, request)
    {
      for n := 0 to |request|
        invariant Present(resources, request[..n])
      {
        var expected := request[n];
        assert expected in request && request[..n + 1] == request[..n] + [expected];
        if expected.identity !in resources { return Some(NotFound(expected.identity.name)); }
        var actual := resources[expected.identity];
        if actual.ownership == Foreign { return Some(ForeignResourceRefused(actual.identity.name)); }
        if actual != expected { return Some(OwnershipMismatch(actual.identity.name)); }
      }
      assert request[..|request|] == request;
      return None;
    }

    method Erase(removal: seq<RuntimeResource>)
      modifies this`resources, this`sandboxes
      ensures resources == old(resources) - Identities(removal)
      ensures sandboxes == old(sandboxes) - RemovedSandboxes(removal)
    {
      for n := 0 to |removal|
        invariant resources == old(resources) - Identities(removal[..n])
        invariant sandboxes == old(sandboxes) - RemovedSandboxes(removal[..n])
      {
        var expected := removal[n];
        IdentitiesOfPrefix(removal, n);
        RemovedSandboxesOfPrefix(removal, n);
        resources := resources - {expected.identity};
        if expected.identity.kind.Container? && expected.sandboxId.Some? {
          sandboxes := sandboxes - {expected.sandboxId.value};
        }
      }
      assert removal[..|removal|] == removal;
    }

    /** Removal is all or nothing, and only ever of resources that still carry the recorded proof. */
    method Remove(request: seq<RuntimeResource>) returns (r: Result<(), RuntimeError>)
      requires Valid() && IsRemoveRequest(request)
      modifies this`resources, this`sandboxes, this`failures
      ensures Valid()
      ensures r.Ok? <==> AtRemove !in old(failures) && Present(old(resources), request)
      ensures r.Ok?
        ==> resources == old(resources) - Identities(request) && sandboxes == old(sandboxes) - RemovedSandboxes(request)
      ensures r.Err? ==> resources == old(resources) && sandboxes == old(sandboxes)
      ensures failures == old(failures) - {AtRemove}
    {
      var failed := FailOnce(AtRemove);
      if failed { return Err(InjectedFailure("remove")); }
      var refused := CheckRemoval(request);
      if refused.Some? { return Err(refused.value); }
      var removal := RemovalOrder(request);
      RemovalOrderIsPermutation(request);
      Erase(removal);
      assert Identities(removal) == Identities(request) && RemovedSandboxes(removal) == RemovedSandboxes(request);
      RemovalKeepsConsistent(old(sandboxes), old(resources), request);
      return Ok(());
    }

    // ---------------------------------------------------------- container only

    /** No injected fault is pending, the sandbox is new and every retained resource is there unchanged. */
    predicate AdmitsRecreate(request: RecreateRequest)
      reads this
    {
      && sshPortCollisions == 0 && createErrors == [] && AtCreateContainer !in failures
      && request.create.id !in sandboxes && Present(resources, request.retained)
    }

    method RefuseRecreate(request: RecreateRequest) returns (refused: Option<RuntimeError>)
      modifies this`sshPortCollisions, this`createErrors, this`failures
      ensures Snap() == AfterFault(old(Snap()), AtCreateContainer)
      ensures refused.None? <==> old(AdmitsRecreate(request))
    {
      refused := InjectedCreateFault(AtCreateContainer);
      if refused.None? && request.create.id in sandboxes {
        refused := Some(Conflict(request.create.id, "sandbox already exists"));
      }
      if refused.None? {
        var stale := FindStale(request.retained);
        if stale.Some? { refused := Some(OwnershipMismatch(stale.value.identity.name)); }
      }
    }

    method AddRecreated(create: CreateRequest) returns (container: RuntimeResource)
      requires Valid() && create.id !in sandboxes
      modifies this`resources, this`nextProof, this`sandboxes, this`createdSshHostPorts
      ensures Valid() && container == NewContainer(create.id, old(nextProof))
      ensures resources == old(resources)[container.identity := container]
      ensures sandboxes == old(sandboxes)[create.id := NewSandbox(create, old(createdSshHostPorts))]
      ensures nextProof == old(nextProof) + 1 && createdSshHostPorts == PortsLeft(old(createdSshHostPorts))
    {
      RecordSandbox(create);
      container := Discover(ContainerIdentity(create.id), Some(create.id), GasCanOwned);
      resources := resources[container.identity := container];
      RecreationKeepsConsistent(old(sandboxes), old(resources), create.id, sandboxes[create.id], container);
    }

    /**
     * Container-only recreation. A container is made exactly when nothing refuses it, and reported on every exit; it is
     * new, under a new proof, so every resource present before is untouched. The call succeeds unless a fault strikes
     * after that.
     */
    method CreateContainer(request: RecreateRequest) returns (r: Result<seq<RuntimeResource>, CreateFailure>)
      requires Valid() && ValidSandboxId(request.create.id)
      modifies this`resources, this`nextProof, this`sandboxes, this`failures, this`createErrors,
        this`sshPortCollisions, this`createdSshHostPorts
      ensures Valid() && Recreates(old(Snap()), request, Snap())
      ensures old(AdmitsRecreate(request)) ==>
        && ContainerIdentity(request.create.id) !in old(resources)
        && var container := NewContainer(request.create.id, old(nextProof));
        && Evidence(r) == [container]
        && resources == old(resources)[container.identity := container]
        && sandboxes == old(sandboxes)[request.create.id := NewSandbox(request.create, old(createdSshHostPorts))]
      ensures !old(AdmitsRecreate(request)) ==>
        Evidence(r) == [] && resources == old(resources) && sandboxes == old(sandboxes)
      ensures r.Ok? <==> old(AdmitsRecreate(request)) && AtCreateContainerAfterMutation !in old(failures)
    {
      var refused := RefuseRecreate(request);
      if refused.Some? { return Err(CreateFailure([], refused.value)); }
      SandboxIdIsValidName(request.create.id);
      var container := AddRecreated(request.create);
      var failed := FailOnce(AtCreateContainerAfterMutation);
      if !failed { return Ok([container]); }
      var kept := FromCreatedEvidence(request.create, [container]);
      KeptOfOne(request.create, [container]);
      return Err(CreateFailure(kept, InjectedFailure("create_container_after_mutation")));
    }

    method FindStale(retained: seq<RuntimeResource>) returns (stale: Option<RuntimeResource>)
      ensures stale.None? <==> Present(resources, retained)
    {
      for n := 0 to |retained|
        invariant Present(resources, retained[..n])
      {
        if !Holds(resources, retained[n]) { return Some(retained[n]); }
      }
      assert retained[..|retained|] == retained;
      return None;
    }

    /** Removing one container alone. */
    method RemoveContainer(container: RuntimeResource) returns (r: Result<(), RuntimeError>)
      requires Valid() && container.identity.kind.Container? && container.ownership == GasCanOwned
      modifies this`resources, this`sandboxes, this`failures
      ensures Valid()
      ensures r.Ok? <==> AtRemove !in old(failures) && Holds(old(resources), container)
      ensures resources == if r.Ok? then old(resources) - {container.identity} else old(resources)
      ensures sandboxes == if r.Ok? && container.sandboxId.Some?
        then old(sandboxes) - {container.sandboxId.value} else old(sandboxes)
      ensures failures == old(failures) - {AtRemove}
    {
      var request := [container];
      assert Identities(request) == {container.identity};
      assert RemovedSandboxes(request)
          == if container.sandboxId.Some? then {container.sandboxId.value} else {};
      assert container in request;
      r := Remove(request);
    }

    /**
     * Replacing a container: remove it alone, then recreate it. Whatever retained resource was present with its proof
     * still is, on every exit; a replaced container carries a new proof.
     */
    method ReplaceContainer(container: RuntimeResource, request: RecreateRequest)
        returns (r: Result<seq<RuntimeResource>, CreateFailure>)
      requires Valid() && container.identity.kind.Container? && container.ownership == GasCanOwned
      requires IsRetainedEvidence(request.create, request.retained) && ValidSandboxId(request.create.id)
      modifies this
      ensures Valid()
      ensures forall x | x in request.retained && Holds(old(resources), x) :: Holds(resources, x)
      ensures r.Ok? ==> Present(resources, request.retained) && Present(resources, r.value) && container !in r.value
      ensures r.Ok? <==> old(AdmitsReplacement(container, request))
    {
      RetainedHasNoContainer(request);
      RetainedSurvives(resources, container, request);
      var removed := RemoveContainer(container);
      if removed.Err? { return Err(CreateFailure([], removed.error)); }
      ghost var again := AdmitsRecreate(request) && AtCreateContainerAfterMutation !in failures;
      assert again <==> old(AdmitsReplacement(container, request));
      RetainedBesideNew(resources, NewContainer(request.create.id, nextProof), request);
      r := CreateContainer(request);
    }

    /** When a replacement goes through: the container is removable, and what follows is admitted without it. */
    predicate AdmitsReplacement(container: RuntimeResource, request: RecreateRequest)
      reads this
    {
      && AtRemove !in failures && Holds(resources, container)
      && sshPortCollisions == 0 && createErrors == []
      && AtCreateContainer !in failures && AtCreateContainerAfterMutation !in failures
      && (request.create.id in sandboxes ==> container.sandboxId == Some(request.create.id))
      && Present(resources, request.retained)
    }

    // --------------------------------------------------------- state and images

    method Start(id: SandboxId) returns (r: Result<(), RuntimeError>)
      requires Valid()
      modifies this`sandboxes, this`failures
      ensures Valid()
      ensures r.Ok? <==> AtStart !in old(failures) && id in old(sandboxes)
      ensures sandboxes == if r.Ok? then old(sandboxes)[id := old(sandboxes)[id].(state := Running)] else old(sandboxes)
      ensures failures == old(failures) - {AtStart}
    {
      var failed := FailOnce(AtStart);
      if failed { return Err(InjectedFailure("start")); }
      if id !in sandboxes { return Err(NotFound(id)); }
      sandboxes := sandboxes[id := sandboxes[id].(state := Running)];
      return Ok(());
    }

    method Stop(id: SandboxId) returns (r: Result<(), RuntimeError>)
      requires Valid()
      modifies this`sandboxes, this`failures
      ensures Valid()
      ensures r.Ok? <==> AtStop !in old(failures) && id in old(sandboxes)
      ensures sandboxes == if r.Ok? then old(sandboxes)[id := old(sandboxes)[id].(state := Stopped)] else old(sandboxes)
      ensures failures == old(failures) - {AtStop}
    {
      var failed := FailOnce(AtStop);
      if failed { return Err(InjectedFailure("stop")); }
      if id !in sandboxes { return Err(NotFound(id)); }
      sandboxes := sandboxes[id := sandboxes[id].(state := Stopped)];
      return Ok(());
    }

    /** An injected image change lands on some sandbox, whichever the map yields first. */
    method PrepareImage() returns (r: Result<(), RuntimeError>, ghost changed: Option<SandboxId>)
      requires Valid()
      modifies this`failures, this`imageChangeOnPrepare, this`sandboxes
      ensures Valid()
      ensures changed.Some? <==>
        AtPrepareImage !in old(failures) && old(imageChangeOnPrepare).Some? && old(sandboxes) != map[]
      ensures changed.Some? ==> changed.value in old(sandboxes)
      ensures sandboxes == if changed.None? then old(sandboxes)
        else old(sandboxes)[changed.value := old(sandboxes)[changed.value].(image := old(imageChangeOnPrepare).value)]
      ensures r.Ok?
        <==> AtPrepareImage !in old(failures) && (old(imageChangeOnPrepare).Some? ==> old(sandboxes) != map[])
      ensures imageChangeOnPrepare == if AtPrepareImage in old(failures) then old(imageChangeOnPrepare) else None
      ensures failures == old(failures) - {AtPrepareImage}
    {
      changed := None;
      var failed := FailOnce(AtPrepareImage);
      if failed { return Err(InjectedFailure("prepare_image")), None; }
      if imageChangeOnPrepare.None? { return Ok(()), None; }
      var image := imageChangeOnPrepare.value;
      imageChangeOnPrepare := None;
      if sandboxes.Keys == {} {
        return Err(InvalidState("fake runtime", "no sandbox exists for configured image change")), None;
      }
      var id :| id in sandboxes.Keys;
      UpdateKeepsConsistent(sandboxes, resources, id, sandboxes[id].(image := image));
      sandboxes := sandboxes[id := sandboxes[id].(image := image)];
      return Ok(()), Some(id);
    }

    // ------------------------------------------------------------- whole runs

    /** Queueing a fault touches nothing but that fault's own queue. */
    method Inject(fault: Fault)
      modifies this`failures, this`createFailureAfterMutations, this`imageChangeOnPrepare, this`createErrors,
        this`sshPortCollisions, this`createdSshHostPorts
      ensures failures == if fault.FailAt? then old(failures) + {fault.boundary} else old(failures)
      ensures createFailureAfterMutations ==
        if fault.FailCreateAfter? then Some(fault.mutations) else old(createFailureAfterMutations)
      ensures imageChangeOnPrepare == if fault.ChangeImage? then Some(fault.image) else old(imageChangeOnPrepare)
      ensures createErrors == if fault.QueueCreateError? then old(createErrors) + [fault.error] else old(createErrors)
      ensures sshPortCollisions ==
        if fault.QueuePortCollision? then old(sshPortCollisions) + 1 else old(sshPortCollisions)
      ensures createdSshHostPorts ==
        if fault.QueueHostPort? then old(createdSshHostPorts) + [fault.port] else old(createdSshHostPorts)
    {
      match fault {
        case FailAt(boundary) => failures := failures + {boundary};
        case FailCreateAfter(mutations) => createFailureAfterMutations := Some(mutations);
        case ChangeImage(image) => imageChangeOnPrepare := Some(image);
        case QueueCreateError(error) => createErrors := createErrors + [error];
        case QueuePortCollision => sshPortCollisions := sshPortCollisions + 1;
        case QueueHostPort(port) => createdSshHostPorts := createdSshHostPorts + [port];
      }
    }

    method Dispatch(call: Call)
      requires Valid() && call.ValidIds()
      modifies this
      ensures Valid() && ForeignUntouched(old(resources), resources) && Step(old(Snap()), call, Snap())
    {
      match call {
        case InjectCall(fault) => Inject(fault);
        case CreateCall(request) => DispatchCreate(request);
        case PrepareImageCall => DispatchPrepare();
        case CreateContainerCall(recreate) => DispatchRecreate(recreate);
        case StartCall(id) => var _ := Start(id);
        case StopCall(id) => var _ := Stop(id);
        case RemoveCall(rs) =>
          if IsRemoveRequest(rs) {
            var _ := Remove(rs);
          }
      }
    }

    method DispatchPrepare()
      requires Valid()
      modifies this`failures, this`imageChangeOnPrepare, this`sandboxes
      ensures Valid() && PreparesImage(old(Snap()), Snap())
    {
      var _, changed := PrepareImage();
      assert changed.Some? ==>
          sandboxes == WithImage(old(sandboxes), changed.value, old(imageChangeOnPrepare).value);
    }

    method DispatchRecreate(request: RecreateRequest)
      requires Valid() && ValidSandboxId(request.create.id)
      modifies this
      ensures Valid() && ForeignUntouched(old(resources), resources) && Recreates(old(Snap()), request, Snap())
    {
      var _ := CreateContainer(request);
    }

    method DispatchCreate(request: CreateRequest)
      requires Valid() && ValidSandboxId(request.id)
      modifies this
      ensures Valid() && ForeignUntouched(old(resources), resources) && Creates(old(Snap()), request, Snap())
    {
      var r := Create(request);
      assert CreateAdds(old(Snap()), request, old(Admits(request)), Evidence(r), Snap());
    }

    /**
     * Any sequence of backend calls, with any faults injected between them, goes through states that follow one another
     * by exactly those calls, keeps the invariants and never removes or overwrites what is not Gas Can's own.
     */
    method Run(calls: seq<Call>) returns (ghost states: seq<State>)
      requires Valid() && forall c | c in calls :: c.ValidIds()
      modifies this
      ensures Valid() && ForeignUntouched(old(resources), resources)
      ensures Follows(states, calls) && states[0] == old(Snap()) && states[|calls|] == Snap()
    {
      states := [Snap()];
      for n := 0 to |calls|
        invariant Valid() && ForeignUntouched(old(resources), resources)
        invariant Follows(states, calls[..n]) && states[0] == old(Snap()) && states[n] == Snap()
      {
        Dispatch(calls[n]);
        OneMoreCall(states, calls, n, Snap());
        states := states + [Snap()];
      }
      assert calls[..|calls|] == calls;
    }
  }

  /** From an empty runtime, any seeding followed by any run of calls and faults leaves every foreign seed in place. */
  method SeedAndRun(seeds: seq<Seed>, calls: seq<Call>) returns (runtime: FakeRuntime, ghost states: seq<State>)
    requires forall c | c in calls :: c.ValidIds()
    ensures fresh(runtime) && runtime.Valid() && ForeignUntouched(Planting(seeds).0, runtime.resources)
    ensures forall id: SandboxId :: id in runtime.sandboxes <==> ContainerIdentity(id) in runtime.resources
    ensures Follows(states, calls) && states[0].resources == Planting(seeds).0 && states[|calls|] == runtime.Snap()
  {
    runtime := new FakeRuntime();
    for n := 0 to |seeds|
      invariant fresh(runtime) && runtime.Valid()
      invariant (runtime.resources, runtime.nextProof) == Planting(seeds[..n])
    {
      runtime.Plant(seeds[n]);
      assert seeds[..n + 1][..n] == seeds[..n];
    }
    assert seeds[..|seeds|] == seeds;
    states := runtime.Run(calls);
  }

  /** Rollback undoes create exactly: removing the reported evidence restores both maps, whatever create's outcome. */
  method CreateAndRollBack(runtime: FakeRuntime, request: CreateRequest)
      returns (r: Result<seq<RuntimeResource>, CreateFailure>)
    requires runtime.Valid() && ValidSandboxId(request.id) && ValidNames(request) && AtRemove !in runtime.failures
    modifies runtime
    ensures runtime.Valid()
    ensures runtime.resources == old(runtime.resources) && runtime.sandboxes == old(runtime.sandboxes)
    ensures r.Ok? <==>
      && old(runtime.Admits(request))
      && !Blocked(request, old(runtime.resources), old(runtime.createFailureAfterMutations))
    ensures r.Ok? ==> IsCompleteEvidence(request, r.value)
  {
    r := runtime.Create(request);
    var evidence := Evidence(r);
    ShrinksBack(old(runtime.sandboxes), old(runtime.resources), request, evidence, runtime.resources,
      NewSandbox(request, old(runtime.createdSshHostPorts)));
    if evidence != [] {
      var removed := runtime.Remove(evidence);
    }
  }

  /** The sandboxes after a create. */
  function Recorded(sandboxes: SandboxMap, before: ResourceMap, request: CreateRequest, after: ResourceMap,
      sandbox: RuntimeSandbox): SandboxMap {
    if ContainerIdentity(request.id) in after.Keys - before.Keys then sandboxes[request.id := sandbox] else sandboxes
  }

  lemma ShrinksBack(sandboxes: SandboxMap, before: ResourceMap, request: CreateRequest, evidence: seq<RuntimeResource>,
      after: ResourceMap, sandbox: RuntimeSandbox)
    requires Consistent(sandboxes, before) && ExtendedBy(before, evidence, after) && IsEvidence(request, evidence)
    ensures after - Identities(evidence) == before && Present(after, evidence)
    ensures Recorded(sandboxes, before, request, after, sandbox) - RemovedSandboxes(evidence) == sandboxes
    ensures evidence == [] ==> after == before && Recorded(sandboxes, before, request, after, sandbox) == sandboxes
    ensures evidence != [] ==> IsRemoveRequest(evidence)
  {
    EvidenceSandboxes(request, evidence);
  }

  function NewContainer(id: SandboxId, proof: nat): RuntimeResource {
    RuntimeResource(ContainerIdentity(id), Some(id), GasCanOwned, proof)
  }

  lemma RecreationKeepsConsistent(sandboxes: SandboxMap, resources: ResourceMap, id: SandboxId, sandbox: RuntimeSandbox,
      container: RuntimeResource)
    requires Consistent(sandboxes, resources) && id !in sandboxes && sandbox.id == id
    requires container.identity == ContainerIdentity(id) && container.sandboxId == Some(id)
    ensures container.identity !in resources
    ensures Consistent(sandboxes[id := sandbox], resources[container.identity := container])
  {
  }

  lemma UpdateKeepsConsistent(sandboxes: SandboxMap, resources: ResourceMap, id: SandboxId, sandbox: RuntimeSandbox)
    requires Consistent(sandboxes, resources) && id in sandboxes && sandbox.id == id
    ensures Consistent(sandboxes[id := sandbox], resources)
  {
  }

  lemma EvidenceSandboxes(request: CreateRequest, evidence: seq<RuntimeResource>)
    requires IsEvidence(request, evidence)
    ensures RemovedSandboxes(evidence) == if ContainerIdentity(request.id) in Identities(evidence) then {request.id}
      else {}
  {
    forall r | r in evidence && r.identity.kind.Container?
      ensures r.identity == ContainerIdentity(request.id) && r.sandboxId == Some(request.id)
    {}
  }

  /** Taking the container away changes nothing for what is retained. */
  lemma RetainedSurvives(resources: ResourceMap, container: RuntimeResource, request: RecreateRequest)
    requires container.identity.kind.Container? && forall x | x in request.retained :: !x.identity.kind.Container?
    ensures forall x | x in request.retained :: Holds(resources, x) <==> Holds(resources - {container.identity}, x)
    ensures Present(resources, request.retained) <==> Present(resources - {container.identity}, request.retained)
  {
    forall x | x in request.retained ensures Holds(resources, x) <==> Holds(resources - {container.identity}, x) {
      assert x.identity != container.identity;
    }
  }

  lemma RetainedBesideNew(resources: ResourceMap, container: RuntimeResource, request: RecreateRequest)
    requires container.identity.kind.Container? && forall x | x in request.retained :: !x.identity.kind.Container?
    ensures forall x | x in request.retained && Holds(resources, x) ::
      Holds(resources[container.identity := container], x)
  {
  }

  lemma RetainedHasNoContainer(request: RecreateRequest)
    requires IsRetainedEvidence(request.create, request.retained)
    ensures forall x | x in request.retained :: !x.identity.kind.Container?
  {
    forall x | x in request.retained ensures x.identity in Identities(request.retained) {}
  }

  /** A container and its sandbox go together. */
  lemma RemovalKeepsConsistent(sandboxes: SandboxMap, resources: ResourceMap, rs: seq<RuntimeResource>)
    requires Consistent(sandboxes, resources) && Present(resources, rs)
    ensures Consistent(sandboxes - RemovedSandboxes(rs), resources - Identities(rs))
  {
    forall id | id in sandboxes - RemovedSandboxes(rs) ensures ContainerIdentity(id) !in Identities(rs) {}
  }

  lemma RemovedSandboxesOfPrefix(rs: seq<RuntimeResource>, n: nat)
    requires n < |rs|
    ensures RemovedSandboxes(rs[..n + 1]) == RemovedSandboxes(rs[..n]) +
      if rs[n].identity.kind.Container? && rs[n].sandboxId.Some? then {rs[n].sandboxId.value} else {}
  {
    assert rs[..n + 1] == rs[..n] + [rs[n]];
  }

  /** New resources keep the two maps in step when the sandbox record arrives with its container. */
  lemma GrowthKeepsConsistent(
    sandboxes: SandboxMap, base: ResourceMap, request: CreateRequest, created: seq<RuntimeResource>,
    after: ResourceMap, sandboxes': SandboxMap)
    requires Consistent(sandboxes, base) && ExtendedBy(base, created, after) && IsEvidence(request, created)
    requires if ContainerIdentity(request.id) in Identities(created)
      then request.id in sandboxes' && sandboxes'[request.id].id == request.id
        && sandboxes' == sandboxes[request.id := sandboxes'[request.id]]
      else sandboxes' == sandboxes
    ensures Consistent(sandboxes', after)
  {
    forall i | i in after && i !in base
      ensures after[i].identity == i && after[i].sandboxId == Some(request.id)
        && (i.kind.Container? ==> i == ContainerIdentity(request.id))
    {
      var r :| r in created && r.identity == i;
    }
  }
}
