// The Apple backend as an object: the cache under its lock, and the create, recreate and remove sagas that issue
// commands to a runtime (crates/gascan-apple/src/backend.rs).
module AppleBackend {
  import opened Wrappers
  import opened Resources
  import opened AppleCache
  import opened AppleSaga

  /** The command at `n` was issued and confirmed by the next listing, which returned `r`. */
  ghost predicate ConfirmedNext(o: Origin, request: CreateRequest, untranslatable: Option<string>, n: nat,
      done: seq<Op>, r: RuntimeResource) {
    var plan := Plan(request);
    && Issues(plan, untranslatable, n) && done == Rounds(plan, n + 1)
    && Confirmable(o, plan, request.id, n) && r == Shown(o, plan, request.id, n)
  }

  class AppleBackend {
    var observations: map<ResourceIdentity, RuntimeResource>
    var nextProof: nat
    var tick: nat
    ghost var log: seq<Event>

    ghost predicate Valid()
      reads this
    {
      Cache(observations, nextProof) == Run(log) && DeletesWereChecked(log)
    }

    /** A call that started at `o` has made these operations. */
    ghost predicate Reached(o: Origin, ops: seq<Op>)
      reads this
    {
      log == After(o, ops) && tick == o.tick + |ops|
    }

    constructor ()
      ensures Valid() && log == []
    {
      observations, nextProof, tick, log := map[], 0, 0, [];
    }

    /** One critical section: the rows of a listing are matched against the cache, then stale entries go. */
    method Observe(listing: seq<Listed>) returns (reconciled: seq<RuntimeResource>)
      requires Valid()
      modifies this
      ensures Valid() && log == old(log) + [Observed(listing)] && tick == old(tick)
      ensures reconciled == ReportedAt(log, |old(log)|)
    {
      RunOnce(log, Observed(listing));
      OneMoreEvent(log, Observed(listing));
      var rows := Discovered(listing, nextProof);
      reconciled := ReconcileRows(rows);
      observations := map id | id in observations && observations[id] in reconciled :: observations[id];
      nextProof := nextProof + |listing|;
      log := log + [Observed(listing)];
      assert log[..|old(log)|] == old(log);
    }

    /** The loop over the rows of a listing. */
    method ReconcileRows(rows: seq<RuntimeResource>) returns (reconciled: seq<RuntimeResource>)
      modifies this`observations
      ensures Reconcile(old(observations), rows) == Reconciled(observations, reconciled)
    {
      reconciled := [];
      for n := 0 to |rows|
        invariant Reconcile(old(observations), rows[..n]) == Reconciled(observations, reconciled)
      {
        assert rows[..n + 1][..n] == rows[..n];
        var stable := Stable(observations, rows[n]);
        observations := observations[stable.identity := stable];
        reconciled := reconciled + [stable];
      }
      assert rows[..|rows|] == rows;
    }

    /** Forget one entry after its resource was deleted. */
    method Drop(identity: ResourceIdentity)
      requires Valid()
      modifies this
      ensures Valid() && log == old(log) + [Dropped(identity)] && tick == old(tick)
    {
      RunOnce(log, Dropped(identity));
      OneMoreEvent(log, Dropped(identity));
      observations := observations - {identity};
      log := log + [Dropped(identity)];
    }

    /** An event that leaves the cache alone: a failed listing or a command. */
    ghost method Note(e: Event)
      requires Valid() && (e == Failed || e.Issued?)
      requires e.Issued? && e.command.Delete? ==> Checked(log, e.command)
      modifies this`log
      ensures Valid() && log == old(log) + [e]
    {
      RunOnce(log, e);
      OneMoreEvent(log, e);
      log := log + [e];
    }

    /** One event of another task; its commands are not recorded here. */
    method Slip(e: Event)
      requires Valid()
      modifies this
      ensures Valid() && log == old(log) + (if e.Issued? then [] else [e]) && tick == old(tick)
    {
      match e {
        case Observed(listing) => var _ := Observe(listing);
        case Dropped(identity) => Drop(identity);
        case Failed => Note(Failed);
        case Issued(_, _) =>
      }
    }

    /** Whatever other tasks do to the cache while this one awaits. */
    method Interleave(events: seq<Event>)
      requires Valid()
      modifies this
      ensures Valid() && log == old(log) + Slipped(events) && tick == old(tick)
    {
      for n := 0 to |events|
        invariant Valid() && log == old(log) + Slipped(events[..n]) && tick == old(tick)
      {
        OneMoreSlipped(events, n);
        Slip(events[n]);
      }
      assert events[..|events|] == events;
    }

    /** One listing: what it returns is what it reported, proofs included. */
    method Listen(rt: Runtime) returns (r: Result<seq<RuntimeResource>, RuntimeError>)
      requires Valid()
      modifies this
      ensures Valid() && tick == old(tick) + 1
      ensures log == old(log) + Slipped(rt.others(old(tick))) + [Outcome(rt, old(tick), List)]
      ensures r.Ok? ==> rt.listing(old(tick)).Ok? && r.value == ReportedAt(log, |log| - 1)
      ensures r.Err? ==> rt.listing(old(tick)) == Err(r.error)
    {
      Interleave(rt.others(tick));
      var answer := rt.listing(tick);
      tick := tick + 1;
      if answer.Err? {
        Note(Failed);
        return Err(answer.error);
      }
      var reconciled := Observe(answer.value);
      return Ok(reconciled);
    }

    method Inventory(rt: Runtime, ghost o: Origin, ghost done: seq<Op>)
        returns (r: Result<seq<RuntimeResource>, RuntimeError>)
      requires Valid() && Reached(o, done) && o.rt == rt
      modifies this
      ensures Valid() && Reached(o, done + [List]) && r == Answer(o, done + [List])
    {
      r := Listen(rt);
      OneMoreOp(o, done, List);
    }

    /** One command, logged with how it ends. A delete must have been allowed by an inventory. */
    method Issue(rt: Runtime, ghost command: Command) returns (failure: Option<RuntimeError>)
      requires Valid() && (command.Delete? ==> Checked(log, command))
      modifies this
      ensures Valid() && tick == old(tick) + 1 && failure == rt.command(old(tick))
      ensures log == old(log) + Slipped(rt.others(old(tick))) + [Outcome(rt, old(tick), Do(command))]
    {
      Interleave(rt.others(tick));
      if command.Delete? { ReportStands(old(log), log, command.checkedAt); }
      failure := rt.command(tick);
      Note(Issued(command, failure));
      tick := tick + 1;
    }

    method RunCommand(rt: Runtime, ghost command: Command, ghost o: Origin, ghost done: seq<Op>)
        returns (failure: Option<RuntimeError>)
      requires Valid() && Reached(o, done) && o.rt == rt && (command.Delete? ==> Checked(log, command))
      modifies this
      ensures Valid() && Reached(o, done + [Do(command)]) && failure == Ended(o, done + [Do(command)])
    {
      failure := Issue(rt, command);
      OneMoreOp(o, done, Do(command));
    }

    /** Taking one entry out of the cache, under the lock. */
    method Erase(rt: Runtime, identity: ResourceIdentity)
      requires Valid()
      modifies this
      ensures Valid() && tick == old(tick) + 1
      ensures log == old(log) + Slipped(rt.others(old(tick))) + [Outcome(rt, old(tick), Forget(identity))]
    {
      Interleave(rt.others(tick));
      Drop(identity);
      tick := tick + 1;
    }

    method ForgetEntry(rt: Runtime, identity: ResourceIdentity, ghost o: Origin, ghost done: seq<Op>)
      requires Valid() && Reached(o, done) && o.rt == rt
      modifies this
      ensures Valid() && Reached(o, done + [Forget(identity)])
    {
      Erase(rt, identity);
      OneMoreOp(o, done, Forget(identity));
    }

    /** The first resource of an identity in a new inventory. */
    method CurrentFor(rt: Runtime, identity: ResourceIdentity, ghost o: Origin, ghost done: seq<Op>)
        returns (r: Result<Option<RuntimeResource>, RuntimeError>)
      requires Valid() && Reached(o, done) && o.rt == rt
      modifies this
      ensures Valid() && Reached(o, done + [List])
      ensures r == match Answer(o, done + [List])
        case Ok(inventory) => Ok(First(inventory, identity))
        case Err(error) => Err(error)
    {
      var inventory := Inventory(rt, o, done);
      if inventory.Err? { return Err(inventory.error); }
      var found := Find(inventory.value, identity);
      return Ok(found);
    }

    /** Lists the runtime again and adds what appeared under one of the request's names. */
    method ReconcileCreated(rt: Runtime, request: CreateRequest, before: seq<RuntimeResource>,
        created: seq<RuntimeResource>, ghost o: Origin, ghost done: seq<Op>)
      returns (all: seq<RuntimeResource>)
      requires Valid() && Reached(o, done) && o.rt == rt && before == Before(o)
      modifies this
      ensures Valid() && Reached(o, done + [List]) && all == LookedAgain(o, request, created, done + [List])
    {
      var current := Inventory(rt, o, done);
      if current.Err? { return created; }
      all := AddNewlyPresent(request, before, created, current.value);
    }

    /** The next command of the plan, unless it is the container's and cannot be built. */
    method CreateNext(rt: Runtime, request: CreateRequest, before: seq<RuntimeResource>, created: seq<RuntimeResource>,
        untranslatable: Option<string>, ghost o: Origin)
      returns (step: Result<RuntimeResource, CreateFailure>, ghost done: seq<Op>)
      requires |created| < |Plan(request)| && o.rt == rt && before == Before(o)
      requires Valid() && Reached(o, Rounds(Plan(request), |created|))
      modifies this
      ensures Valid() && Reached(o, done)
      ensures step.Ok? ==> ConfirmedNext(o, request, untranslatable, |created|, done, step.value)
      ensures step.Err? ==> Stopped(o, request, untranslatable, created, done, step.error)
    {
      var plan, n := Plan(request), |created|;
      done := Rounds(plan, n);
      PlanAt(request, n);
      if plan[n].ContainerRun? && untranslatable.Some? {
        var failure := Fail(request, created, UnsupportedCapability(untranslatable.value));
        return Err(failure), done;
      }
      var failed := RunCommand(rt, plan[n], o, done);
      step, done := AfterCommand(rt, request, before, created, untranslatable, failed, o);
    }

    /** What follows a command, whether it failed or not. */
    method AfterCommand(rt: Runtime, request: CreateRequest, before: seq<RuntimeResource>,
        created: seq<RuntimeResource>, ghost untranslatable: Option<string>, failed: Option<RuntimeError>,
        ghost o: Origin)
      returns (step: Result<RuntimeResource, CreateFailure>, ghost done: seq<Op>)
      requires Issues(Plan(request), untranslatable, |created|) && o.rt == rt && before == Before(o)
      requires Valid() && Reached(o, Sending(Plan(request), |created|))
      requires failed == Ended(o, Sending(Plan(request), |created|))
      modifies this
      ensures Valid() && Reached(o, done)
      ensures step.Ok? ==> ConfirmedNext(o, request, untranslatable, |created|, done, step.value)
      ensures step.Err? ==> Stopped(o, request, untranslatable, created, done, step.error)
    {
      var plan, n := Plan(request), |created|;
      done := Sending(plan, n);
      if failed.Some? {
        step, done := FailCommand(rt, request, before, created, untranslatable, failed.value, o);
        return;
      }
      var identity := NewIdentity(Makes(plan[n]).kind, Makes(plan[n]).name);
      if identity.Err? {
        var failure := Fail(request, created, identity.error);
        return Err(failure), done;
      }
      step, done := Confirm(rt, request, before, created, untranslatable, identity.value, o);
    }

    /** A failed command: look again if it may have taken effect, then report. */
    method FailCommand(rt: Runtime, request: CreateRequest, before: seq<RuntimeResource>,
        created: seq<RuntimeResource>, ghost untranslatable: Option<string>, error: RuntimeError, ghost o: Origin)
      returns (step: Result<RuntimeResource, CreateFailure>, ghost done: seq<Op>)
      requires Issues(Plan(request), untranslatable, |created|) && o.rt == rt && before == Before(o)
      requires Valid() && Reached(o, Sending(Plan(request), |created|))
      requires Ended(o, Sending(Plan(request), |created|)) == Some(error)
      modifies this
      ensures Valid() && Reached(o, done) && step.Err?
      ensures CommandFell(o, request, untranslatable, created, done, step.error)
    {
      done := Sending(Plan(request), |created|);
      var all := created;
      if error.CommandIo? {
        all := ReconcileCreated(rt, request, before, created, o, done);
        done := done + [List];
      }
      var failure := Fail(request, all, error);
      return Err(failure), done;
    }

    /** After a command that did not fail: what it makes, owned, or a failure with what else appeared. */
    method Confirm(rt: Runtime, request: CreateRequest, before: seq<RuntimeResource>, created: seq<RuntimeResource>,
        ghost untranslatable: Option<string>, identity: ResourceIdentity, ghost o: Origin)
      returns (step: Result<RuntimeResource, CreateFailure>, ghost done: seq<Op>)
      requires Issues(Plan(request), untranslatable, |created|) && o.rt == rt && before == Before(o)
      requires Valid() && Reached(o, Sending(Plan(request), |created|))
      requires Ended(o, Sending(Plan(request), |created|)) == None
      requires identity == Makes(Plan(request)[|created|]) && ValidName(identity.name)
      modifies this
      ensures Valid() && Reached(o, done)
      ensures step.Ok? ==> ConfirmedNext(o, request, untranslatable, |created|, done, step.value)
      ensures step.Err? ==> Unseen(o, request, untranslatable, created, done, step.error)
    {
      var current := CurrentFor(rt, identity, o, Sending(Plan(request), |created|));
      done := Rounds(Plan(request), |created| + 1);
      if current.Ok? && current.value.Some? && OwnedBy(current.value.value, request.id) {
        return Ok(current.value.value), done;
      }
      var all := ReconcileCreated(rt, request, before, created, o, done);
      done := done + [List];
      var failure := Fail(request, all, if current.Err? then current.error else OwnershipMismatch(identity.name));
      return Err(failure), done;
    }

    /** The plan in order, each command confirmed before the next is issued, and the outcome checked as a whole. */
    method CreateAll(rt: Runtime, request: CreateRequest, before: seq<RuntimeResource>, untranslatable: Option<string>,
        ghost o: Origin)
      returns (r: Result<seq<RuntimeResource>, CreateFailure>, ghost confirmed: seq<RuntimeResource>,
          ghost done: seq<Op>)
      requires Valid() && Reached(o, [List]) && o.rt == rt && before == Before(o) && Started(o, request)
      modifies this
      ensures Valid() && Reached(o, done) && CreateGoes(o, request, untranslatable, confirmed, done, r)
    {
      var plan := Plan(request);
      var created: seq<RuntimeResource> := [];
      done := Rounds(plan, 0);
      while |created| < |plan|
        invariant |created| <= |plan| && done == Rounds(plan, |created|) && Valid() && Reached(o, done)
        invariant AllConfirmed(o, plan, request.id, created)
        invariant |created| == |plan| ==> untranslatable.None?
        decreases |plan| - |created|
      {
        var step;
        step, done := CreateNext(rt, request, before, created, untranslatable, o);
        if step.Err? { return Err(step.error), created, done; }
        OneMoreConfirmed(o, plan, request.id, created);
        created := created + [step.value];
      }
      r := Finish(request, created);
      return r, created, done;
    }

    /**
     * The create saga, against any runtime: the operations it makes, in order, and what it reports of them are those of
     * `CreateGoes`. `CreateSucceedsIff`, `EvidenceWasSeen` and `FailureIsHonest` say what that means.
     */
    method Create(rt: Runtime, request: CreateRequest, untranslatable: Option<string>)
      returns (r: Result<seq<RuntimeResource>, CreateFailure>, ghost confirmed: seq<RuntimeResource>,
          ghost done: seq<Op>)
      requires Valid()
      modifies this
      ensures Valid() && Reached(Origin(rt, old(tick), old(log)), done)
      ensures CreateGoes(Origin(rt, old(tick), old(log)), request, untranslatable, confirmed, done, r)
    {
      ghost var o := Origin(rt, tick, log);
      var start := Inventory(rt, o, []);
      confirmed, done := [], [List];
      assert [] + [List] == done;
      if start.Err? { return Err(CreateFailure([], start.error)), confirmed, done; }
      var clash := FindClash(request, start.value);
      if clash.Some? {
        r := Err(CreateFailure([], Conflict(clash.value.identity.name, "resource already exists")));
        return;
      }
      r, confirmed, done := CreateAll(rt, request, start.value, untranslatable, o);
    }

    /** Container-only recreation: its operations and what it reports are those of `RecreateGoes`. */
    method CreateContainer(rt: Runtime, request: RecreateRequest, untranslatable: Option<string>)
      returns (r: Result<seq<RuntimeResource>, CreateFailure>, ghost done: seq<Op>)
      requires Valid()
      modifies this
      ensures Valid() && Reached(Origin(rt, old(tick), old(log)), done)
      ensures RecreateGoes(Origin(rt, old(tick), old(log)), request, untranslatable, done, r)
    {
      ghost var o := Origin(rt, tick, log);
      var inventory := Inventory(rt, o, []);
      done := [List];
      assert [] + [List] == done;
      if inventory.Err? { return Err(CreateFailure([], inventory.error)), done; }
      var refused := RefuseRecreate(request, inventory.value);
      if refused.Some? { return Err(CreateFailure([], refused.value)), done; }
      if untranslatable.Some? { return Err(CreateFailure([], UnsupportedCapability(untranslatable.value))), done; }
      r, done := RunContainer(rt, request.create, o);
    }

    /** Runs the container and looks for it; a command that may have taken effect is followed by a look all the same. */
    method RunContainer(rt: Runtime, create: CreateRequest, ghost o: Origin)
      returns (r: Result<seq<RuntimeResource>, CreateFailure>, ghost done: seq<Op>)
      requires Valid() && Reached(o, [List]) && o.rt == rt
      modifies this
      ensures Valid() && Reached(o, done) && RecreateIssued(o, create, done, r)
    {
      var failed := RunCommand(rt, ContainerRun(create), o, [List]);
      done := Recreating(create);
      if !ValidName(create.id) {
        return Err(CreateFailure([], if failed.Some? then failed.value else InvalidResourceIdentity(create.id))), done;
      }
      if failed.Some? && !failed.value.CommandIo? { return Err(CreateFailure([], failed.value)), done; }
      r := LookForContainer(rt, create, failed, o);
      done := done + [List];
    }

    /** The look after the container's command, whether that succeeded or may have taken effect all the same. */
    method LookForContainer(rt: Runtime, create: CreateRequest, failed: Option<RuntimeError>, ghost o: Origin)
      returns (r: Result<seq<RuntimeResource>, CreateFailure>)
      requires Valid() && Reached(o, Recreating(create)) && o.rt == rt && failed == Ended(o, Recreating(create))
      modifies this
      ensures Valid() && Reached(o, Recreating(create) + [List]) && RecreateLooked(o, create, r)
    {
      var found := CurrentFor(rt, ContainerIdentity(create.id), o, Recreating(create));
      if found.Ok? && found.value.Some? && OwnedBy(found.value.value, create.id) {
        if failed.None? { return Ok([found.value.value]); }
        var kept := KeepContainer(create, found.value.value);
        return Err(CreateFailure(kept, failed.value));
      }
      var error := if failed.Some? then failed.value
        else if found.Err? then found.error
        else OwnershipMismatch(create.id);
      return Err(CreateFailure([], error));
    }

    /** Removal, containers first, then volumes, then networks: its operations are those of `RemoveGoes`. */
    method Remove(rt: Runtime, resources: seq<RuntimeResource>)
      returns (r: Result<(), RuntimeError>, ghost n: nat, ghost done: seq<Op>)
      requires Valid()
      modifies this
      ensures Valid() && Reached(Origin(rt, old(tick), old(log)), done)
      ensures RemoveGoes(Origin(rt, old(tick), old(log)), RemovalOrder(resources), n, done, r)
    {
      ghost var o := Origin(rt, tick, log);
      var order := RemovalOrder(resources);
      done := [];
      for k := 0 to |order|
        invariant Valid() && Reached(o, done) && done == Removing(o, order, k) && AllRemovable(o, order, k)
      {
        r, done := RemoveOne(rt, order, k, o);
        if r.Err? { return r, k, done; }
        OneMoreRemovable(o, order, k);
      }
      return Ok(()), |order|, done;
    }

    /** One resource: look again, delete only the very observation recorded, then forget it. */
    method RemoveOne(rt: Runtime, order: seq<RuntimeResource>, n: nat, ghost o: Origin)
        returns (r: Result<(), RuntimeError>, ghost done: seq<Op>)
      requires n < |order| && o.rt == rt && Valid() && Reached(o, Removing(o, order, n))
      modifies this
      ensures Valid() && Reached(o, done)
      ensures r.Ok? ==> Removable(o, order, n) && done == Removing(o, order, n + 1)
      ensures r.Err? ==> !Removable(o, order, n) && StopsAt(o, order, n, done, r)
    {
      var recorded := order[n];
      var current := CurrentFor(rt, recorded.identity, o, Removing(o, order, n));
      done := Checking(o, order, n);
      if current != Ok(Some(recorded)) || recorded.ownership != GasCanOwned {
        return Err(if current.Err? then current.error else OwnershipMismatch(recorded.identity.name)), done;
      }
      var failed := RunCommand(rt, DeleteAfter(o, done, recorded), o, done);
      done := Deleting(o, order, n);
      if failed.Some? { return Err(failed.value), done; }
      ForgetEntry(rt, recorded.identity, o, done);
      done := Removing(o, order, n + 1);
      return Ok(()), done;
    }
  }

  // ------------------------------------------------------------------------- the loops

  /** The loop of `reconcile_created` over a listing. */
  method AddNewlyPresent(request: CreateRequest, before: seq<RuntimeResource>, created: seq<RuntimeResource>,
      inventory: seq<RuntimeResource>) returns (all: seq<RuntimeResource>)
    ensures all == Appeared(request, before, created, inventory)
  {
    all := created;
    for n := 0 to |inventory|
      invariant all == Appeared(request, before, created, inventory[..n])
    {
      assert inventory[..n + 1][..n] == inventory[..n];
      var resource := inventory[n];
      if OwnedBy(resource, request.id) && resource.identity !in Identities(before)
        && NamedInRequest(request, resource.identity.name) {
        if resource.identity !in Identities(all) { all := all + [resource]; }
      }
    }
    assert inventory[..|inventory|] == inventory;
  }

  /** The outcome is checked as a whole. */
  method Finish(request: CreateRequest, created: seq<RuntimeResource>)
    returns (r: Result<seq<RuntimeResource>, CreateFailure>)
    ensures r.Ok? <==> ValidNames(request) && IsCompleteEvidence(request, created)
    ensures Evidence(r) == if r.Ok? then created else Kept(request, created)
  {
    var outcome := ValidateCreatedResources(request, created, true);
    if outcome.Ok? { return Ok(created); }
    var failure := Fail(request, created, outcome.error);
    return Err(failure);
  }

  /** Reports `all`, filtered by what the request allows. */
  method Fail(request: CreateRequest, all: seq<RuntimeResource>, source: RuntimeError) returns (failure: CreateFailure)
    ensures Reports(request, all, source, failure)
  {
    var kept := FromCreatedEvidence(request, all);
    return CreateFailure(kept, source);
  }

  method Find(rs: seq<RuntimeResource>, identity: ResourceIdentity) returns (found: Option<RuntimeResource>)
    ensures found == First(rs, identity)
  {
    for n := 0 to |rs|
      invariant First(rs, identity) == First(rs[n..], identity)
    {
      if rs[n].identity == identity { return Some(rs[n]); }
      assert rs[n..][1..] == rs[n + 1..];
    }
    return None;
  }

  method FindClash(request: CreateRequest, before: seq<RuntimeResource>) returns (clash: Option<RuntimeResource>)
    ensures clash == FirstClash(request, before)
  {
    for n := 0 to |before|
      invariant FirstClash(request, before) == FirstClash(request, before[n..])
    {
      if NamedInRequest(request, before[n].identity.name) { return Some(before[n]); }
      assert before[n..][1..] == before[n + 1..];
    }
    return None;
  }

  method RefuseRecreate(request: RecreateRequest, inventory: seq<RuntimeResource>)
      returns (refused: Option<RuntimeError>)
    ensures refused == Refusal(request.create, request.retained, inventory)
  {
    for n := 0 to |request.retained|
      invariant Refusal(request.create, request.retained, inventory)
             == Refusal(request.create, request.retained[n..], inventory)
    {
      var retained := request.retained[n];
      var found := Find(inventory, retained.identity);
      if found != Some(retained) { return Some(OwnershipMismatch(retained.identity.name)); }
      assert request.retained[n..][1..] == request.retained[n + 1..];
    }
    if ContainerIdentity(request.create.id) in Identities(inventory) {
      return Some(Conflict(request.create.id, "container already exists"));
    }
    return None;
  }

  /** What a failed recreation reports of the container it found. */
  method KeepContainer(create: CreateRequest, container: RuntimeResource) returns (kept: seq<RuntimeResource>)
    requires container.identity == ContainerIdentity(create.id) && OwnedBy(container, create.id)
    ensures kept == [container]
  {
    kept := FromCreatedEvidence(create, [container]);
    KeptOfOne(create, [container]);
  }
}
