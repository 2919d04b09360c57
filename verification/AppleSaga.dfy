// What the sagas of the Apple backend do (crates/gascan-apple/src/backend.rs): every run of create, container-only
// recreation and removal as a sequence of operations against a runtime which may change between any two answers, and
// what such a run means.
module AppleSaga {
  import opened Wrappers
  import opened Resources
  import opened AppleCache

  /**
   * The outside world, as a function of the number of operations made so far: what a listing returns, whether a
   * command fails, and which cache events other tasks slip in before the operation. Commands of other tasks are theirs
   * to account for and are not part of this log.
   */
  datatype Runtime = Runtime(
    listing: nat -> Result<seq<Listed>, RuntimeError>,
    command: nat -> Option<RuntimeError>,
    others: nat -> seq<Event>)

  // ------------------------------------------------------------------------- the log

  /** One operation of a call: list the runtime, issue a command, or forget a cache entry. */
  datatype Op = List | Do(command: Command) | Forget(identity: ResourceIdentity)

  /** Where a call starts: its runtime, how many operations that has answered, and the log so far. */
  datatype Origin = Origin(rt: Runtime, tick: nat, log: seq<Event>)

  /** What an operation amounts to in the log. */
  function Outcome(rt: Runtime, tick: nat, op: Op): Event {
    match op
    case List => (match rt.listing(tick) case Ok(listing) => Observed(listing) case Err(_) => Failed)
    case Do(command) => Issued(command, rt.command(tick))
    case Forget(identity) => Dropped(identity)
  }

  /** What other tasks do to the cache. */
  function Slipped(events: seq<Event>): seq<Event> {
    if events == [] then []
    else
      var last := events[|events| - 1];
      Slipped(events[..|events| - 1]) + (if last.Issued? then [] else [last])
  }

  lemma {:induction false} OneMoreSlipped(events: seq<Event>, n: nat)
    requires n < |events|
    ensures Slipped(events[..n + 1]) == Slipped(events[..n]) + (if events[n].Issued? then [] else [events[n]])
  {
    assert events[..n + 1][..n] == events[..n];
  }

  /** The log after these operations: before each of them whatever other tasks did, then how it turned out. */
  function After(o: Origin, ops: seq<Op>): (log: seq<Event>)
    ensures |log| >= |o.log| + |ops| && o.log <= log
  {
    if ops == [] then o.log
    else
      var n := |ops| - 1;
      After(o, ops[..n]) + Slipped(o.rt.others(o.tick + n)) + [Outcome(o.rt, o.tick + n, ops[n])]
  }

  lemma {:induction false} OneMoreOp(o: Origin, ops: seq<Op>, op: Op)
    ensures var tick := o.tick + |ops|;
      After(o, ops + [op]) == After(o, ops) + Slipped(o.rt.others(tick)) + [Outcome(o.rt, tick, op)]
  {
    assert (ops + [op])[..|ops|] == ops;
  }

  predicate EndsInList(ops: seq<Op>) { ops != [] && ops[|ops| - 1] == List }

  /** What the listing that ends these operations returned, proofs included. */
  function Answer(o: Origin, ops: seq<Op>): Result<seq<RuntimeResource>, RuntimeError>
    requires EndsInList(ops)
  {
    match o.rt.listing(o.tick + |ops| - 1)
    case Err(error) => Err(error)
    case Ok(_) => Ok(ReportedAt(After(o, ops), |After(o, ops)| - 1))
  }

  /** How the command that ends these operations ended. */
  function Ended(o: Origin, ops: seq<Op>): Option<RuntimeError>
    requires ops != []
  {
    o.rt.command(o.tick + |ops| - 1)
  }

  /** An inventory in the log returned this resource, proof included, and it is Gas Can's own. */
  ghost predicate Checked(log: seq<Event>, c: Command) {
    && c.Delete?
    && c.checkedAt < |log|
    && log[c.checkedAt].Observed?
    && c.resource in ReportedAt(log, c.checkedAt)
    && c.resource.ownership == GasCanOwned
  }

  /** Every delete follows the inventory that allowed it. */
  ghost predicate DeletesWereChecked(log: seq<Event>) {
    log == [] ||
    var init, last := log[..|log| - 1], log[|log| - 1];
    DeletesWereChecked(init) && (last.Issued? && last.command.Delete? ==> Checked(init, last.command))
  }

  lemma OneMoreEvent(log: seq<Event>, e: Event)
    requires DeletesWereChecked(log) && (e.Issued? && e.command.Delete? ==> Checked(log, e.command))
    ensures DeletesWereChecked(log + [e])
  {
    assert (log + [e])[..|log|] == log;
  }

  /** Each delete in the log comes after the inventory it names, which reported the resource with its proof. */
  lemma {:induction false} CheckPrecedesDelete(log: seq<Event>, n: nat)
    requires DeletesWereChecked(log) && n < |log| && log[n].Issued? && log[n].command.Delete?
    ensures log[n].command.checkedAt < n && Checked(log, log[n].command)
  {
    var init := log[..|log| - 1];
    if n < |init| { CheckPrecedesDelete(init, n); }
    ReportStands(init, log, log[n].command.checkedAt);
  }

  lemma RunOnce(log: seq<Event>, e: Event)
    ensures Run(log + [e]) == Apply(Run(log), e)
  {
    assert (log + [e])[..|log|] == log;
  }

  /** What an inventory reported does not change as the log grows. */
  lemma ReportStands(log: seq<Event>, more: seq<Event>, k: nat)
    requires log <= more && k < |log| && log[k].Observed?
    ensures ReportedAt(more, k) == ReportedAt(log, k)
  {
    assert more[..k] == log[..k];
  }

  /**
   * Removal safety. A resource recorded by one inventory and deleted on the strength of another was there,
   * unchanged and not deleted in between, at every successful inventory from the first to the second.
   */
  lemma DeletedOnlyWhatWasContinuouslyObserved(log: seq<Event>, n: nat, i: nat)
    requires DeletesWereChecked(log) && ListingsAgree(log)
    requires n < |log| && log[n].Issued? && log[n].command.Delete?
    requires i < log[n].command.checkedAt < |log| && log[i].Observed? && log[n].command.resource in ReportedAt(log, i)
    ensures ContinuouslyObserved(log, i, log[n].command.checkedAt, Label(log[n].command.resource))
  {
    var r, j := log[n].command.resource, log[n].command.checkedAt;
    CheckPrecedesDelete(log, n);
    var a :| 0 <= a < |ReportedAt(log, i)| && ReportedAt(log, i)[a] == r;
    var b :| 0 <= b < |ReportedAt(log, j)| && ReportedAt(log, j)[b] == r;
    ReportedHasListingLength(log, i);
    ReportedHasListingLength(log, j);
    ReportedIsCached(log, i, a);
    ReportedIsCached(log, j, b);
    ProofContinuity(log, i, j, a, b);
  }

  lemma ReportedHasListingLength(log: seq<Event>, k: nat)
    requires k < |log| && log[k].Observed?
    ensures |ReportedAt(log, k)| == |log[k].listing|
  {
    RunIsWellFormed(log[..k]);
    ReconcileLabels(Run(log[..k]).observations, Discovered(log[k].listing, Run(log[..k]).nextProof));
  }

  // ------------------------------------------------------------------ vocabulary

  predicate NamedInRequest(request: CreateRequest, name: string) {
    || name == request.id
    || (exists v | v in request.volumes :: v.name == name)
    || request.network == Networked(name)
  }

  predicate Clashes(request: CreateRequest, before: seq<RuntimeResource>) {
    exists x :: x in before && NamedInRequest(request, x.identity.name)
  }

  /** An owned resource of the request's topology that the starting inventory did not contain. */
  predicate NewlyPresent(request: CreateRequest, before: seq<RuntimeResource>, r: RuntimeResource) {
    Qualifies(request, r) && r.identity !in Identities(before)
  }

  predicate AbsentBefore(before: seq<RuntimeResource>, rs: seq<RuntimeResource>) {
    forall r | r in rs :: r.identity !in Identities(before)
  }

  /** The first resource under one of the request's names. */
  function FirstClash(request: CreateRequest, before: seq<RuntimeResource>): (clash: Option<RuntimeResource>)
    ensures clash.None? <==> !Clashes(request, before)
  {
    if before == [] then None
    else if NamedInRequest(request, before[0].identity.name) then Some(before[0])
    else
      assert forall x | x in before[1..] :: x in before;
      FirstClash(request, before[1..])
  }

  /** The listing shows the identity, and shows it first as this sandbox's own. */
  predicate ShowsOwned(look: Result<seq<RuntimeResource>, RuntimeError>, identity: ResourceIdentity, id: SandboxId) {
    look.Ok? && First(look.value, identity).Some? && OwnedBy(First(look.value, identity).value, id)
  }

  /** The first resource with the given identity. */
  function First(rs: seq<RuntimeResource>, identity: ResourceIdentity): (r: Option<RuntimeResource>)
    ensures r.Some? ==> r.value in rs && r.value.identity == identity
    ensures r.None? ==> identity !in Identities(rs)
  {
    if rs == [] then None
    else if rs[0].identity == identity then Some(rs[0])
    else First(rs[1..], identity)
  }

  // ------------------------------------------------------------------------ the plan

  function NetworkCommands(request: CreateRequest): seq<Command> {
    match request.network
    case Networked(name) => [NetworkCreate(name, request.id)]
    case Offline => []
  }

  function VolumeCommands(request: CreateRequest): (s: seq<Command>)
    ensures |s| == |request.volumes|
  {
    seq(|request.volumes|, n requires 0 <= n < |request.volumes| =>
      VolumeCreate(request.volumes[n].name, request.volumes[n].capacityBytes, request.id))
  }

  /** Network, then volumes in order, then the container. */
  function Plan(request: CreateRequest): seq<Command> {
    NetworkCommands(request) + VolumeCommands(request) + [ContainerRun(request)]
  }

  function Makes(c: Command): ResourceIdentity {
    match c
    case NetworkCreate(name, _) => ResourceIdentity(Network, name)
    case VolumeCreate(name, _, _) => ResourceIdentity(Volume, name)
    case ContainerRun(request) => ContainerIdentity(request.id)
    case Delete(resource, _) => resource.identity
  }

  /** These resources are what these commands make, one for one and in order. */
  predicate MadeBy(rs: seq<RuntimeResource>, commands: seq<Command>) {
    |rs| == |commands| && forall k | 0 <= k < |rs| :: rs[k].identity == Makes(commands[k])
  }

  predicate RepeatsVolume(request: CreateRequest) {
    exists i, j :: 0 <= i < j < |request.volumes| && request.volumes[i].name == request.volumes[j].name
  }

  lemma TopologyIsNamed(request: CreateRequest, identity: ResourceIdentity)
    requires identity in Topology(request)
    ensures NamedInRequest(request, identity.name)
  {
  }

  /** The plan makes the request's topology and nothing else. */
  lemma PlanMakesTopology(request: CreateRequest)
    ensures forall c | c in Plan(request) :: !c.Delete? && Makes(c) in Topology(request)
    ensures forall id | id in Topology(request) :: exists c | c in Plan(request) :: Makes(c) == id
  {
    forall c | c in Plan(request) ensures !c.Delete? && Makes(c) in Topology(request) {
      if c in VolumeCommands(request) {
        var k :| 0 <= k < |request.volumes| && VolumeCommands(request)[k] == c;
        assert request.volumes[k] in request.volumes;
      }
    }
    forall id | id in Topology(request) ensures exists c | c in Plan(request) :: Makes(c) == id {
      var c := PlannedFor(request, id);
    }
  }

  lemma PlannedFor(request: CreateRequest, id: ResourceIdentity) returns (c: Command)
    requires id in Topology(request)
    ensures c in Plan(request) && Makes(c) == id
  {
    var plan := Plan(request);
    if id == ContainerIdentity(request.id) {
      c := plan[|plan| - 1];
    } else if id.kind.Volume? {
      var v :| v in request.volumes && ResourceIdentity(Volume, v.name) == id;
      var n :| 0 <= n < |request.volumes| && request.volumes[n] == v;
      c := plan[|NetworkCommands(request)| + n];
    } else {
      c := plan[0];
    }
  }

  /** Position by position, the plan is the network, the volumes and the container. */
  lemma PlanAt(request: CreateRequest, k: nat)
    requires k < |Plan(request)|
    ensures var n := |NetworkCommands(request)|;
      Plan(request)[k] ==
        if k < n then NetworkCommands(request)[k]
        else if k - n < |request.volumes| then VolumeCommands(request)[k - n]
        else ContainerRun(request)
  {
  }

  lemma PlanIsDistinct(request: CreateRequest, i: nat, j: nat)
    requires !RepeatsVolume(request) && i < j < |Plan(request)|
    ensures Makes(Plan(request)[i]) != Makes(Plan(request)[j])
  {
    PlanAt(request, i);
    PlanAt(request, j);
  }

  /** What the whole plan made, confirmed step by step, is the topology exactly once unless a volume is repeated. */
  lemma WholePlanMade(request: CreateRequest, created: seq<RuntimeResource>)
    requires MadeBy(created, Plan(request))
    ensures Identities(created) == Topology(request)
    ensures !RepeatsVolume(request) ==> DistinctIdentities(created)
  {
    var plan := Plan(request);
    PlanMakesTopology(request);
    forall id | id in Topology(request) ensures id in Identities(created) {
      var c :| c in plan && Makes(c) == id;
      var k :| 0 <= k < |plan| && plan[k] == c;
      assert created[k] in created;
    }
    forall r | r in created ensures r.identity in Topology(request) {
      var k :| 0 <= k < |created| && created[k] == r;
      assert plan[k] in plan;
    }
    if !RepeatsVolume(request) {
      forall i, j | 0 <= i < j < |created| ensures created[i].identity != created[j].identity {
        PlanIsDistinct(request, i, j);
      }
    }
  }

  lemma {:induction false} PlanIsFresh(request: CreateRequest, before: seq<RuntimeResource>, k: nat)
    requires !Clashes(request, before) && k < |Plan(request)|
    ensures var c := Plan(request)[k];
      !c.Delete? && Makes(c) in Topology(request) && Makes(c) !in Identities(before)
  {
    PlanMakesTopology(request);
    assert Plan(request)[k] in Plan(request);
    TopologyIsNamed(request, Makes(Plan(request)[k]));
  }

  lemma {:induction false} PlanNames(request: CreateRequest)
    requires forall k | 0 <= k < |Plan(request)| :: ValidName(Makes(Plan(request)[k]).name)
    ensures ValidNames(request)
  {
    var plan := Plan(request);
    PlanAt(request, |plan| - 1);
    assert ValidName(Makes(plan[|plan| - 1]).name);
    forall v | v in request.volumes ensures ValidName(v.name) {
      var n :| 0 <= n < |request.volumes| && request.volumes[n] == v;
      PlanAt(request, |NetworkCommands(request)| + n);
      assert ValidName(Makes(plan[|NetworkCommands(request)| + n]).name);
    }
  }

  // ------------------------------------------------------------------- how a create goes

  /** The starting listing, then each command followed by the listing that confirms it, `n` times. */
  function Rounds(plan: seq<Command>, n: nat): (ops: seq<Op>)
    requires n <= |plan|
    ensures |ops| == 1 + 2 * n && EndsInList(ops)
  {
    if n == 0 then [List] else Rounds(plan, n - 1) + [Do(plan[n - 1])] + [List]
  }

  /** The rounds up to the command at `n`, and that command. */
  function Sending(plan: seq<Command>, n: nat): (ops: seq<Op>)
    requires n < |plan|
    ensures |ops| == 2 + 2 * n
  {
    Rounds(plan, n) + [Do(plan[n])]
  }

  /** The command did not fail, its name is well formed, and the very next listing shows it as this sandbox's own. */
  predicate Confirmable(o: Origin, plan: seq<Command>, id: SandboxId, n: nat)
    requires n < |plan|
  {
    && Ended(o, Sending(plan, n)) == None
    && ValidName(Makes(plan[n]).name)
    && ShowsOwned(Answer(o, Rounds(plan, n + 1)), Makes(plan[n]), id)
  }

  /** What that listing shows. */
  function Shown(o: Origin, plan: seq<Command>, id: SandboxId, n: nat): RuntimeResource
    requires n < |plan| && Confirmable(o, plan, id, n)
  {
    First(Answer(o, Rounds(plan, n + 1)).value, Makes(plan[n])).value
  }

  /** These are what the first rounds confirmed. */
  ghost predicate AllConfirmed(o: Origin, plan: seq<Command>, id: SandboxId, confirmed: seq<RuntimeResource>) {
    && |confirmed| <= |plan|
    && forall k | 0 <= k < |confirmed| :: Confirmable(o, plan, id, k) && confirmed[k] == Shown(o, plan, id, k)
  }

  lemma {:induction false} OneMoreConfirmed(o: Origin, plan: seq<Command>, id: SandboxId,
      confirmed: seq<RuntimeResource>)
    requires AllConfirmed(o, plan, id, confirmed) && |confirmed| < |plan| && Confirmable(o, plan, id, |confirmed|)
    ensures AllConfirmed(o, plan, id, confirmed + [Shown(o, plan, id, |confirmed|)])
  {
  }

  /** The starting listing answered, and nothing in it bears one of the request's names. */
  ghost predicate Started(o: Origin, request: CreateRequest) {
    Answer(o, [List]).Ok? && !Clashes(request, Answer(o, [List]).value)
  }

  /** What the starting listing showed. */
  function Before(o: Origin): seq<RuntimeResource> {
    match Answer(o, [List]) case Ok(before) => before case Err(_) => []
  }

  /** `reconcile_created` over one listing: what is owned, newly present and named in the request is added once. */
  function Appeared(request: CreateRequest, before: seq<RuntimeResource>, created: seq<RuntimeResource>,
      inventory: seq<RuntimeResource>): seq<RuntimeResource> {
    if inventory == [] then created
    else
      var all, r := Appeared(request, before, created, inventory[..|inventory| - 1]), inventory[|inventory| - 1];
      if OwnedBy(r, request.id) && r.identity !in Identities(before) && NamedInRequest(request, r.identity.name)
        && r.identity !in Identities(all) then all + [r] else all
  }

  /** Whatever is added comes from the listing, and nothing newly present of the topology is missing. */
  lemma {:induction false} AppearedMeans(request: CreateRequest, before: seq<RuntimeResource>,
      created: seq<RuntimeResource>, inventory: seq<RuntimeResource>)
    ensures var all := Appeared(request, before, created, inventory);
      && created <= all
      && (forall k | |created| <= k < |all| ::
            all[k] in inventory && OwnedBy(all[k], request.id) && all[k].identity !in Identities(before))
      && (forall r | r in inventory && NewlyPresent(request, before, r) :: r.identity in Identities(all))
  {
    if inventory != [] {
      var init, last := inventory[..|inventory| - 1], inventory[|inventory| - 1];
      AppearedMeans(request, before, created, init);
      assert inventory == init + [last];
      if NewlyPresent(request, before, last) { TopologyIsNamed(request, last.identity); }
      var all := Appeared(request, before, created, inventory);
      assert forall r | r in Appeared(request, before, created, init) :: r in all;
    }
  }

  /** What a failing create knows of after one more look; a look that fails adds nothing. */
  function LookedAgain(o: Origin, request: CreateRequest, confirmed: seq<RuntimeResource>, ops: seq<Op>):
      seq<RuntimeResource>
    requires EndsInList(ops)
  {
    match Answer(o, ops)
    case Ok(inventory) => Appeared(request, Before(o), confirmed, inventory)
    case Err(_) => confirmed
  }

  /** The failure reports what the request allows of `all`. */
  predicate Reports(request: CreateRequest, all: seq<RuntimeResource>, source: RuntimeError, failure: CreateFailure) {
    failure == CreateFailure(Kept(request, all), source)
  }

  /** The container's command cannot be built, and is not issued. */
  predicate Untranslated(request: CreateRequest, untranslatable: Option<string>, confirmed: seq<RuntimeResource>,
      done: seq<Op>, failure: CreateFailure) {
    var plan, n := Plan(request), |confirmed|;
    && n == |plan| - 1 && untranslatable.Some? && done == Rounds(plan, n)
    && Reports(request, confirmed, UnsupportedCapability(untranslatable.value), failure)
  }

  /** The next command is issued; it can be unless it is the container's and cannot be built. */
  predicate Issues(plan: seq<Command>, untranslatable: Option<string>, n: nat) {
    n < |plan| && (n == |plan| - 1 ==> untranslatable.None?)
  }

  /** The command failed; if it may have taken effect all the same, the runtime is listed once more. */
  ghost predicate CommandFell(o: Origin, request: CreateRequest, untranslatable: Option<string>,
      confirmed: seq<RuntimeResource>, done: seq<Op>, failure: CreateFailure) {
    var plan, n := Plan(request), |confirmed|;
    && Issues(plan, untranslatable, n)
    && var error := Ended(o, Sending(plan, n));
    && error.Some?
    && (if error.value.CommandIo? then
          && done == Sending(plan, n) + [List]
          && Reports(request, LookedAgain(o, request, confirmed, done), error.value, failure)
        else done == Sending(plan, n) && Reports(request, confirmed, error.value, failure))
  }

  /** The command did not fail, and names nothing that can be looked for. */
  ghost predicate Misnamed(o: Origin, request: CreateRequest, untranslatable: Option<string>,
      confirmed: seq<RuntimeResource>, done: seq<Op>, failure: CreateFailure) {
    var plan, n := Plan(request), |confirmed|;
    && Issues(plan, untranslatable, n)
    && Ended(o, Sending(plan, n)) == None
    && !ValidName(Makes(plan[n]).name) && done == Sending(plan, n)
    && Reports(request, confirmed, InvalidResourceIdentity(Makes(plan[n]).name), failure)
  }

  /** The command did not fail, and the listing after it failed or does not show what it makes; one more follows. */
  ghost predicate Unseen(o: Origin, request: CreateRequest, untranslatable: Option<string>,
      confirmed: seq<RuntimeResource>, done: seq<Op>, failure: CreateFailure) {
    var plan, n := Plan(request), |confirmed|;
    && Issues(plan, untranslatable, n)
    && Ended(o, Sending(plan, n)) == None
    && ValidName(Makes(plan[n]).name)
    && var look := Answer(o, Rounds(plan, n + 1));
    && !ShowsOwned(look, Makes(plan[n]), request.id) && done == Rounds(plan, n + 1) + [List]
    && Reports(request, LookedAgain(o, request, confirmed, done),
         if look.Err? then look.error else OwnershipMismatch(Makes(plan[n]).name), failure)
  }

  /** A round that did not confirm its command. */
  ghost predicate Stopped(o: Origin, request: CreateRequest, untranslatable: Option<string>,
      confirmed: seq<RuntimeResource>, done: seq<Op>, failure: CreateFailure) {
    || Untranslated(request, untranslatable, confirmed, done, failure)
    || CommandFell(o, request, untranslatable, confirmed, done, failure)
    || Misnamed(o, request, untranslatable, confirmed, done, failure)
    || Unseen(o, request, untranslatable, confirmed, done, failure)
  }

  /** Every round confirmed its command, and the outcome was checked as a whole. */
  predicate Completed(request: CreateRequest, untranslatable: Option<string>, confirmed: seq<RuntimeResource>,
      done: seq<Op>, r: Result<seq<RuntimeResource>, CreateFailure>) {
    var plan := Plan(request);
    && |confirmed| == |plan| && untranslatable.None? && done == Rounds(plan, |plan|)
    && (r.Ok? <==> ValidNames(request) && IsCompleteEvidence(request, confirmed))
    && Evidence(r) == if r.Ok? then confirmed else Kept(request, confirmed)
  }

  /** Everything a create can do and report, operation by operation, against any runtime. */
  ghost predicate CreateGoes(o: Origin, request: CreateRequest, untranslatable: Option<string>,
      confirmed: seq<RuntimeResource>, done: seq<Op>, r: Result<seq<RuntimeResource>, CreateFailure>) {
    if !Started(o, request) then
      && done == [List] && confirmed == [] && r.Err? && r.error.created == []
      && r.error.source == match Answer(o, [List])
           case Err(error) => error
           case Ok(before) => Conflict(FirstClash(request, before).value.identity.name, "resource already exists")
    else
      && AllConfirmed(o, Plan(request), request.id, confirmed)
      && (|| Completed(request, untranslatable, confirmed, done, r)
          || (r.Err? && Stopped(o, request, untranslatable, confirmed, done, r.error)))
  }

  // -------------------------------------------------------------------- what that means

  /** What is confirmed is what the first commands make, of the request's topology and absent at the start. */
  lemma {:induction false} ConfirmedIsMade(o: Origin, request: CreateRequest, confirmed: seq<RuntimeResource>)
    requires Started(o, request) && AllConfirmed(o, Plan(request), request.id, confirmed)
    ensures forall k | 0 <= k < |confirmed| :: confirmed[k].identity == Makes(Plan(request)[k])
    ensures forall r | r in confirmed :: NewlyPresent(request, Before(o), r)
  {
    forall k | 0 <= k < |confirmed|
      ensures confirmed[k].identity == Makes(Plan(request)[k]) && NewlyPresent(request, Before(o), confirmed[k])
    {
      PlanIsFresh(request, Before(o), k);
      ShownIsListed(o, Plan(request), request.id, k);
    }
  }

  /** All of the topology, each part once and in the order of the plan, owned, and absent before. */
  predicate WholeTopology(request: CreateRequest, before: seq<RuntimeResource>, created: seq<RuntimeResource>) {
    && MadeBy(created, Plan(request)) && AbsentBefore(before, created)
    && IsCompleteEvidence(request, created) && Identities(created) == Topology(request)
  }

  /** Confirming the whole plan gives the whole topology, unless the request repeats a volume. */
  lemma {:induction false} WholePlanConfirmed(o: Origin, request: CreateRequest, confirmed: seq<RuntimeResource>)
    requires Started(o, request) && AllConfirmed(o, Plan(request), request.id, confirmed)
    requires |confirmed| == |Plan(request)|
    ensures ValidNames(request) && MadeBy(confirmed, Plan(request))
    ensures if RepeatsVolume(request) then !IsCompleteEvidence(request, confirmed)
      else WholeTopology(request, Before(o), confirmed)
  {
    ConfirmedIsMade(o, request, confirmed);
    ConfirmedNames(o, request, confirmed);
    WholePlanMade(request, confirmed);
    if RepeatsVolume(request) {
      RepeatedVolume(request, confirmed);
    } else {
      MadeIsWhole(request, Before(o), confirmed);
    }
  }

  lemma {:induction false} ConfirmedNames(o: Origin, request: CreateRequest, confirmed: seq<RuntimeResource>)
    requires AllConfirmed(o, Plan(request), request.id, confirmed) && |confirmed| == |Plan(request)|
    ensures ValidNames(request)
  {
    forall k | 0 <= k < |Plan(request)| ensures ValidName(Makes(Plan(request)[k]).name) {
      assert Confirmable(o, Plan(request), request.id, k);
    }
    PlanNames(request);
  }

  lemma {:induction false} MadeIsWhole(request: CreateRequest, before: seq<RuntimeResource>,
      created: seq<RuntimeResource>)
    requires MadeBy(created, Plan(request)) && !RepeatsVolume(request)
    requires forall r | r in created :: NewlyPresent(request, before, r)
    ensures WholeTopology(request, before, created)
  {
    WholePlanMade(request, created);
  }

  lemma {:induction false} RepeatedVolume(request: CreateRequest, created: seq<RuntimeResource>)
    requires MadeBy(created, Plan(request)) && RepeatsVolume(request)
    ensures !DistinctIdentities(created)
  {
    var i, j :| 0 <= i < j < |request.volumes| && request.volumes[i].name == request.volumes[j].name;
    var n := |NetworkCommands(request)|;
    PlanAt(request, n + i);
    PlanAt(request, n + j);
    assert created[n + i].identity == created[n + j].identity;
  }

  /**
   * When create succeeds: exactly when the starting listing answers and shows no clash, the container's command can be
   * built, no volume is repeated, and each command of the plan, in turn, succeeds and is confirmed by the very next
   * listing. It then reports what those listings showed, which is the whole topology, once each and new.
   */
  lemma {:induction false} CreateSucceedsIff(o: Origin, request: CreateRequest, untranslatable: Option<string>,
      confirmed: seq<RuntimeResource>, done: seq<Op>, r: Result<seq<RuntimeResource>, CreateFailure>)
    requires CreateGoes(o, request, untranslatable, confirmed, done, r)
    ensures r.Ok? <==>
      && Started(o, request) && untranslatable.None? && !RepeatsVolume(request)
      && forall k | 0 <= k < |Plan(request)| :: Confirmable(o, Plan(request), request.id, k)
    ensures r.Ok? ==> r.value == confirmed && WholeTopology(request, Before(o), r.value)
  {
    if Started(o, request) {
      if Completed(request, untranslatable, confirmed, done, r) {
        WholePlanConfirmed(o, request, confirmed);
      } else {
        StopHasReason(o, request, untranslatable, confirmed, done, r.error);
      }
    }
  }

  lemma {:induction false} StopHasReason(o: Origin, request: CreateRequest, untranslatable: Option<string>,
      confirmed: seq<RuntimeResource>, done: seq<Op>, failure: CreateFailure)
    requires Stopped(o, request, untranslatable, confirmed, done, failure)
    ensures |confirmed| < |Plan(request)|
    ensures untranslatable.Some? || !Confirmable(o, Plan(request), request.id, |confirmed|)
  {
  }

  /** An inventory of these operations, after the first, returned this very resource. */
  ghost predicate Seen(o: Origin, done: seq<Op>, r: RuntimeResource) {
    exists n :: 1 < n <= |done| && SeenAt(o, done, n, r)
  }

  ghost predicate SeenAt(o: Origin, done: seq<Op>, n: nat, r: RuntimeResource)
    requires n <= |done|
  {
    EndsInList(done[..n]) && Answer(o, done[..n]).Ok? && r in Answer(o, done[..n]).value
  }

  /** What a create has done so far is how its operations begin. */
  lemma {:induction false} RoundsBegin(plan: seq<Command>, k: nat, n: nat)
    requires k <= n <= |plan|
    ensures Rounds(plan, k) <= Rounds(plan, n)
  {
    if k < n { RoundsBegin(plan, k, n - 1); }
  }

  lemma {:induction false} ConfirmedIsSeen(o: Origin, plan: seq<Command>, id: SandboxId,
      confirmed: seq<RuntimeResource>, done: seq<Op>, x: RuntimeResource)
    requires AllConfirmed(o, plan, id, confirmed) && Rounds(plan, |confirmed|) <= done && x in confirmed
    ensures Seen(o, done, x)
  {
    var k :| 0 <= k < |confirmed| && confirmed[k] == x;
    RoundIsSeen(o, plan, id, k, |confirmed|, done);
  }

  lemma {:induction false} RoundIsSeen(o: Origin, plan: seq<Command>, id: SandboxId, k: nat, n: nat, done: seq<Op>)
    requires k < n <= |plan| && Confirmable(o, plan, id, k) && Rounds(plan, n) <= done
    ensures Seen(o, done, Shown(o, plan, id, k))
  {
    RoundsBegin(plan, k + 1, n);
    var ops := Rounds(plan, k + 1);
    PrefixOfPrefix(ops, Rounds(plan, n), done);
    ShownIsListed(o, plan, id, k);
    PrefixIsSeen(o, ops, done, Shown(o, plan, id, k));
  }

  lemma PrefixOfPrefix(a: seq<Op>, b: seq<Op>, c: seq<Op>)
    requires a <= b <= c
    ensures a <= c
  {
  }

  lemma {:induction false} ShownIsListed(o: Origin, plan: seq<Command>, id: SandboxId, k: nat)
    requires k < |plan| && Confirmable(o, plan, id, k)
    ensures var look := Answer(o, Rounds(plan, k + 1)); look.Ok? && Shown(o, plan, id, k) in look.value
    ensures Shown(o, plan, id, k).identity == Makes(plan[k]) && OwnedBy(Shown(o, plan, id, k), id)
  {
  }

  lemma {:induction false} PrefixIsSeen(o: Origin, ops: seq<Op>, done: seq<Op>, x: RuntimeResource)
    requires ops <= done && |ops| > 1 && EndsInList(ops) && Answer(o, ops).Ok? && x in Answer(o, ops).value
    ensures Seen(o, done, x)
  {
    assert done[..|ops|] == ops;
    assert SeenAt(o, done, |ops|, x);
  }

  lemma {:induction false} LookedAgainIsSeen(o: Origin, request: CreateRequest, confirmed: seq<RuntimeResource>,
      done: seq<Op>, x: RuntimeResource)
    requires EndsInList(done) && |done| > 1 && x in LookedAgain(o, request, confirmed, done) && x !in confirmed
    ensures Seen(o, done, x) && x.identity !in Identities(Before(o))
  {
    var inventory := Answer(o, done).value;
    var all := Appeared(request, Before(o), confirmed, inventory);
    AppearedMeans(request, Before(o), confirmed, inventory);
    assert forall i | 0 <= i < |confirmed| :: confirmed[i] == all[i];
    var k :| 0 <= k < |all| && all[k] == x;
    PrefixIsSeen(o, done, done, x);
  }

  /** What a create has in hand when it stops: what was confirmed, and what one more look added. */
  function Hand(o: Origin, request: CreateRequest, confirmed: seq<RuntimeResource>, done: seq<Op>):
      seq<RuntimeResource> {
    if EndsInList(done) && |done| > 1 + 2 * |confirmed| then LookedAgain(o, request, confirmed, done) else confirmed
  }

  lemma {:induction false} StopReportsHand(o: Origin, request: CreateRequest, untranslatable: Option<string>,
      confirmed: seq<RuntimeResource>, done: seq<Op>, failure: CreateFailure)
    requires Stopped(o, request, untranslatable, confirmed, done, failure)
    ensures failure.created == Kept(request, Hand(o, request, confirmed, done))
  {
    if CommandFell(o, request, untranslatable, confirmed, done, failure) {
      assert EndsInList(done) <==> Ended(o, Sending(Plan(request), |confirmed|)).value.CommandIo?;
    } else if Unseen(o, request, untranslatable, confirmed, done, failure) {
      assert EndsInList(done);
    }
  }

  lemma {:induction false} LookedAgainExtends(o: Origin, request: CreateRequest, confirmed: seq<RuntimeResource>,
      done: seq<Op>)
    requires EndsInList(done)
    ensures confirmed <= LookedAgain(o, request, confirmed, done)
  {
    if Answer(o, done).Ok? { AppearedMeans(request, Before(o), confirmed, Answer(o, done).value); }
  }

  lemma {:induction false} StopBegins(o: Origin, request: CreateRequest, untranslatable: Option<string>,
      confirmed: seq<RuntimeResource>, done: seq<Op>, failure: CreateFailure)
    requires Stopped(o, request, untranslatable, confirmed, done, failure)
    ensures |confirmed| <= |Plan(request)| && Rounds(Plan(request), |confirmed|) <= done
  {
    var plan, n := Plan(request), |confirmed|;
    if n < |plan| { RoundsBegin(plan, n, n + 1); }
  }

  /**
   * Whatever a create reports, on success or failure, an inventory of this call returned, proof included, after a
   * command was issued; it is of the request's topology, owned by its sandbox, and was absent at the start.
   */
  lemma {:induction false} EvidenceWasSeen(o: Origin, request: CreateRequest, untranslatable: Option<string>,
      confirmed: seq<RuntimeResource>, done: seq<Op>, r: Result<seq<RuntimeResource>, CreateFailure>,
      x: RuntimeResource)
    requires CreateGoes(o, request, untranslatable, confirmed, done, r) && x in Evidence(r)
    ensures Seen(o, done, x) && NewlyPresent(request, Before(o), x)
  {
    var all := if Completed(request, untranslatable, confirmed, done, r) then confirmed
      else Hand(o, request, confirmed, done);
    if !Completed(request, untranslatable, confirmed, done, r) {
      StopBegins(o, request, untranslatable, confirmed, done, r.error);
      StopReportsHand(o, request, untranslatable, confirmed, done, r.error);
    }
    KeptIsExactEvidence(request, all);
    HandWasSeen(o, request, confirmed, done, x);
    ConfirmedIsMade(o, request, confirmed);
  }

  lemma {:induction false} HandWasSeen(o: Origin, request: CreateRequest, confirmed: seq<RuntimeResource>,
      done: seq<Op>, x: RuntimeResource)
    requires AllConfirmed(o, Plan(request), request.id, confirmed) && Rounds(Plan(request), |confirmed|) <= done
    requires x in confirmed || x in Hand(o, request, confirmed, done)
    ensures Seen(o, done, x) && (x in confirmed || x.identity !in Identities(Before(o)))
  {
    if x in confirmed {
      ConfirmedIsSeen(o, Plan(request), request.id, confirmed, done, x);
    } else {
      LookedAgainIsSeen(o, request, confirmed, done, x);
    }
  }

  /**
   * A failed create misses nothing it knows of: it reports everything confirmed, each identity once, and after one more
   * listing that answered, everything newly present of the topology. It lists once more whenever a command may have
   * taken effect although it failed, and whenever it could not confirm one that did not.
   */
  lemma {:induction false} FailureIsHonest(o: Origin, request: CreateRequest, untranslatable: Option<string>,
      confirmed: seq<RuntimeResource>, done: seq<Op>, r: Result<seq<RuntimeResource>, CreateFailure>)
    requires CreateGoes(o, request, untranslatable, confirmed, done, r) && Started(o, request) && r.Err?
    ensures IsEvidence(request, r.error.created) && Identities(confirmed) <= Identities(r.error.created)
    ensures var plan, n := Plan(request), |confirmed|;
      && (|done| > |Rounds(plan, n)| && EndsInList(done) && Answer(o, done).Ok? ==>
            forall x | x in Answer(o, done).value && NewlyPresent(request, Before(o), x) ::
              x.identity in Identities(r.error.created))
      && (n < |plan| && Sending(plan, n) <= done ==> (EndsInList(done) <==> IsOpen(o, plan, n)))
  {
    ConfirmedIsMade(o, request, confirmed);
    if Completed(request, untranslatable, confirmed, done, r) {
      KeptIsExactEvidence(request, confirmed);
    } else {
      StopReportsHand(o, request, untranslatable, confirmed, done, r.error);
      HandIsKept(o, request, confirmed, done);
      StopLooksAgain(o, request, untranslatable, confirmed, done, r.error);
    }
  }

  /** What this command has made is not yet known: it may have taken effect although it failed, or it did not fail. */
  predicate IsOpen(o: Origin, plan: seq<Command>, n: nat)
    requires n < |plan|
  {
    match Ended(o, Sending(plan, n))
    case Some(error) => error.CommandIo?
    case None => ValidName(Makes(plan[n]).name)
  }

  lemma {:induction false} StopLooksAgain(o: Origin, request: CreateRequest, untranslatable: Option<string>,
      confirmed: seq<RuntimeResource>, done: seq<Op>, failure: CreateFailure)
    requires Stopped(o, request, untranslatable, confirmed, done, failure)
    ensures var plan, n := Plan(request), |confirmed|;
      n < |plan| && Sending(plan, n) <= done ==> (EndsInList(done) <==> IsOpen(o, plan, n))
  {
  }

  lemma {:induction false} HandIsKept(o: Origin, request: CreateRequest, confirmed: seq<RuntimeResource>,
      done: seq<Op>)
    requires forall r | r in confirmed :: Qualifies(request, r)
    ensures var kept := Kept(request, Hand(o, request, confirmed, done));
      && IsEvidence(request, kept) && Identities(confirmed) <= Identities(kept)
      && (EndsInList(done) && |done| > 1 + 2 * |confirmed| && Answer(o, done).Ok? ==>
            forall x | x in Answer(o, done).value && NewlyPresent(request, Before(o), x) ::
              x.identity in Identities(kept))
  {
    KeptIsExactEvidence(request, Hand(o, request, confirmed, done));
    if EndsInList(done) && |done| > 1 + 2 * |confirmed| {
      LookedAgainExtends(o, request, confirmed, done);
      if Answer(o, done).Ok? { AppearedIsKept(request, Before(o), confirmed, Answer(o, done).value); }
    }
    KnownIsKept(request, confirmed, Hand(o, request, confirmed, done));
  }

  lemma {:induction false} KnownIsKept(request: CreateRequest, confirmed: seq<RuntimeResource>,
      all: seq<RuntimeResource>)
    requires confirmed <= all && forall r | r in confirmed :: Qualifies(request, r)
    ensures Identities(confirmed) <= Identities(Kept(request, all))
  {
    KeptIsExactEvidence(request, all);
    forall r | r in confirmed ensures r in all {
      var k :| 0 <= k < |confirmed| && confirmed[k] == r;
      assert all[k] == r;
    }
  }

  lemma {:induction false} QualifiedIsKept(request: CreateRequest, all: seq<RuntimeResource>, k: nat)
    requires k < |all| && Qualifies(request, all[k])
    ensures all[k].identity in Identities(Kept(request, all))
  {
    KeptIsExactEvidence(request, all);
    assert all[k] in all;
  }

  lemma {:induction false} AppearedIsKept(request: CreateRequest, before: seq<RuntimeResource>,
      confirmed: seq<RuntimeResource>, inventory: seq<RuntimeResource>)
    requires forall r | r in confirmed :: Qualifies(request, r)
    ensures var all := Appeared(request, before, confirmed, inventory);
      && confirmed <= all
      && forall x | x in inventory && NewlyPresent(request, before, x) :: x.identity in Identities(Kept(request, all))
  {
    var all := Appeared(request, before, confirmed, inventory);
    AppearedMeans(request, before, confirmed, inventory);
    forall x | x in inventory && NewlyPresent(request, before, x) ensures x.identity in Identities(Kept(request, all)) {
      var k :| 0 <= k < |all| && all[k].identity == x.identity;
      assert k < |confirmed| ==> all[k] == confirmed[k] && confirmed[k] in confirmed;
      QualifiedIsKept(request, all, k);
    }
  }

  // ------------------------------------------------------------------ how a recreation goes

  predicate IsRecreatable(request: RecreateRequest, inventory: seq<RuntimeResource>) {
    && (forall x | x in request.retained :: First(inventory, x.identity) == Some(x))
    && ContainerIdentity(request.create.id) !in Identities(inventory)
  }

  /** The starting listing, the container's command, and the look after it. */
  function Recreating(create: CreateRequest): seq<Op> { [List] + [Do(ContainerRun(create))] }

  /** Nothing is issued. */
  ghost predicate RecreateRefused(o: Origin, request: RecreateRequest, untranslatable: Option<string>,
      failure: CreateFailure) {
    var start := Answer(o, [List]);
    && failure.created == []
    && (if start.Err? then failure.source == start.error
        else if !IsRecreatable(request, start.value) then
          Some(failure.source) == Refusal(request.create, request.retained, start.value)
        else untranslatable.Some? && failure.source == UnsupportedCapability(untranslatable.value))
  }

  /** The first retained resource that is not there as recorded, else the container that already is. */
  function Refusal(create: CreateRequest, retained: seq<RuntimeResource>, inventory: seq<RuntimeResource>):
      (refused: Option<RuntimeError>)
    ensures refused.None? <==> IsRecreatable(RecreateRequest(create, retained), inventory)
  {
    if retained == [] then
      if ContainerIdentity(create.id) in Identities(inventory) then
        Some(Conflict(create.id, "container already exists")) else None
    else if First(inventory, retained[0].identity) != Some(retained[0]) then
      Some(OwnershipMismatch(retained[0].identity.name))
    else
      assert retained == [retained[0]] + retained[1..];
      Refusal(create, retained[1..], inventory)
  }

  /** The container's command has been issued, and the look after it was worth making. */
  ghost predicate RecreateLooked(o: Origin, create: CreateRequest, r: Result<seq<RuntimeResource>, CreateFailure>) {
    var failure, identity := Ended(o, Recreating(create)), ContainerIdentity(create.id);
    var look := Answer(o, Recreating(create) + [List]);
    if ShowsOwned(look, identity, create.id) then
      var container := First(look.value, identity).value;
      r == if failure.None? then Ok([container]) else Err(CreateFailure([container], failure.value))
    else
      r == Err(CreateFailure([], if failure.Some? then failure.value
                                 else if look.Err? then look.error else OwnershipMismatch(create.id)))
  }

  /** The container's command has been issued. */
  ghost predicate RecreateIssued(o: Origin, create: CreateRequest, done: seq<Op>,
      r: Result<seq<RuntimeResource>, CreateFailure>) {
    var failure := Ended(o, Recreating(create));
    if ValidName(create.id) && (failure.None? || failure.value.CommandIo?) then
      done == Recreating(create) + [List] && RecreateLooked(o, create, r)
    else
      && done == Recreating(create)
      && r == Err(CreateFailure([], if failure.Some? then failure.value else InvalidResourceIdentity(create.id)))
  }

  /** Everything a container-only recreation can do and report, against any runtime. */
  ghost predicate RecreateGoes(o: Origin, request: RecreateRequest, untranslatable: Option<string>, done: seq<Op>,
      r: Result<seq<RuntimeResource>, CreateFailure>) {
    if CanRecreate(o, request, untranslatable) then RecreateIssued(o, request.create, done, r)
    else done == [List] && r.Err? && RecreateRefused(o, request, untranslatable, r.error)
  }

  /** One listing returned every retained resource, proof included, and no such container. */
  ghost predicate CanRecreate(o: Origin, request: RecreateRequest, untranslatable: Option<string>) {
    Answer(o, [List]).Ok? && IsRecreatable(request, Answer(o, [List]).value) && untranslatable.None?
  }

  /**
   * When a recreation succeeds, and that whatever it reports is the container, owned, as the listing after its command
   * returned it, that command having been issued only after every retained resource was returned unchanged.
   */
  lemma {:induction false} RecreateMeans(o: Origin, request: RecreateRequest, untranslatable: Option<string>,
      done: seq<Op>, r: Result<seq<RuntimeResource>, CreateFailure>)
    requires RecreateGoes(o, request, untranslatable, done, r)
    ensures var create := request.create;
      && (r.Ok? <==>
            && CanRecreate(o, request, untranslatable) && ValidName(create.id)
            && Ended(o, Recreating(create)) == None
            && ShowsOwned(Answer(o, Recreating(create) + [List]), ContainerIdentity(create.id), create.id))
      && (forall x | x in Evidence(r) ::
            && CanRecreate(o, request, untranslatable) && Seen(o, done, x)
            && x.identity == ContainerIdentity(create.id) && OwnedBy(x, create.id))
      && |Evidence(r)| <= 1 && (r.Ok? ==> |r.value| == 1)
  {
    forall x | x in Evidence(r) ensures Seen(o, done, x) { PrefixIsSeen(o, done, done, x); }
  }

  // -------------------------------------------------------------------- how a removal goes

  /** A delete on the strength of the listing that ends these operations. */
  function DeleteAfter(o: Origin, ops: seq<Op>, r: RuntimeResource): Command
    requires ops != []
  {
    Delete(r, |After(o, ops)| - 1)
  }

  /** For each resource in turn: list, delete, forget. */
  function Removing(o: Origin, order: seq<RuntimeResource>, n: nat): (ops: seq<Op>)
    requires n <= |order|
    ensures |ops| == 3 * n
    decreases n, 0
  {
    if n == 0 then [] else Deleting(o, order, n - 1) + [Forget(order[n - 1].identity)]
  }

  /** Up to the listing that decides about the resource at `n`. */
  function Checking(o: Origin, order: seq<RuntimeResource>, n: nat): (ops: seq<Op>)
    requires n < |order|
    ensures |ops| == 3 * n + 1 && EndsInList(ops)
    decreases n, 1
  {
    Removing(o, order, n) + [List]
  }

  /** Up to its delete. */
  function Deleting(o: Origin, order: seq<RuntimeResource>, n: nat): (ops: seq<Op>)
    requires n < |order|
    ensures |ops| == 3 * n + 2
    decreases n, 2
  {
    Checking(o, order, n) + [Do(DeleteAfter(o, Checking(o, order, n), order[n]))]
  }

  /** It is Gas Can's own, and the listing returns it exactly as recorded. */
  predicate Current(o: Origin, order: seq<RuntimeResource>, n: nat)
    requires n < |order|
  {
    var look := Answer(o, Checking(o, order, n));
    look.Ok? && First(look.value, order[n].identity) == Some(order[n]) && order[n].ownership == GasCanOwned
  }

  predicate Removable(o: Origin, order: seq<RuntimeResource>, n: nat)
    requires n < |order|
  {
    Current(o, order, n) && Ended(o, Deleting(o, order, n)) == None
  }

  predicate AllRemovable(o: Origin, order: seq<RuntimeResource>, n: nat)
    requires n <= |order|
  {
    forall k | 0 <= k < n :: Removable(o, order, k)
  }

  lemma {:induction false} OneMoreRemovable(o: Origin, order: seq<RuntimeResource>, n: nat)
    requires n < |order| && AllRemovable(o, order, n) && Removable(o, order, n)
    ensures AllRemovable(o, order, n + 1)
  {
  }

  /** Everything a removal can do and report: it stops at the first resource, `n`, that cannot be removed. */
  ghost predicate RemoveGoes(o: Origin, order: seq<RuntimeResource>, n: nat, done: seq<Op>,
      r: Result<(), RuntimeError>) {
    && n <= |order| && AllRemovable(o, order, n)
    && (if n == |order| then done == Removing(o, order, n) && r.Ok?
        else !Removable(o, order, n) && StopsAt(o, order, n, done, r))
  }

  ghost predicate StopsAt(o: Origin, order: seq<RuntimeResource>, n: nat, done: seq<Op>, r: Result<(), RuntimeError>)
    requires n < |order|
  {
    if Current(o, order, n) then
      done == Deleting(o, order, n) && Ended(o, done).Some? && r == Err(Ended(o, done).value)
    else
      && done == Checking(o, order, n)
      && r == Err(if Answer(o, done).Err? then Answer(o, done).error else OwnershipMismatch(order[n].identity.name))
  }

  /**
   * A removal succeeds exactly when each resource, in the order containers, volumes, networks, is Gas Can's own, is
   * returned as recorded by the listing made for it, and its delete does not fail; and only what the request names is
   * ever deleted.
   */
  lemma {:induction false} RemoveMeans(o: Origin, resources: seq<RuntimeResource>, n: nat, done: seq<Op>,
      r: Result<(), RuntimeError>)
    requires RemoveGoes(o, RemovalOrder(resources), n, done, r)
    ensures r.Ok? <==> AllRemovable(o, RemovalOrder(resources), |RemovalOrder(resources)|)
    ensures forall op | op in done && op.Do? :: op.command.Delete? && op.command.resource in resources
  {
    var order := RemovalOrder(resources);
    RemovalOrderIsPermutation(resources);
    if n < |order| {
      StepsDelete(o, order, n);
    } else {
      DeletesOnly(o, order, n);
    }
  }

  lemma {:induction false} DeletesOnly(o: Origin, order: seq<RuntimeResource>, n: nat)
    requires n <= |order|
    ensures forall op | op in Removing(o, order, n) && op.Do? :: op.command.Delete? && op.command.resource in order
    decreases n, 0
  {
    if n > 0 { StepsDelete(o, order, n - 1); }
  }

  lemma {:induction false} StepsDelete(o: Origin, order: seq<RuntimeResource>, n: nat)
    requires n < |order|
    ensures forall op | op in Checking(o, order, n) && op.Do? :: op.command.Delete? && op.command.resource in order
    ensures forall op | op in Deleting(o, order, n) && op.Do? :: op.command.Delete? && op.command.resource in order
    decreases n, 1
  {
    DeletesOnly(o, order, n);
  }
}
