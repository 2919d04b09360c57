// A specification compiled, created and rolled back: the policy compiler and the in-memory runtime together.
module Lifecycle {
  import opened Wrappers
  import opened Resources
  import Policy
  import Fake = FakeRuntime

  lemma CompiledNames(
    spec: Policy.Spec, capabilities: Policy.Capabilities, image: string, variables: map<string, string>,
    control: Option<Policy.Control>)
    requires ValidSandboxId(spec.id) && Policy.Compile(spec, capabilities, image, variables, control).Ok?
    ensures var request := Policy.Compile(spec, capabilities, image, variables, control).value;
      Policy.Sealed(request) && request.id == spec.id && ValidNames(request)
  {
    Policy.CompiledIsSealed(spec, capabilities, image, variables, control);
    Policy.SealedHasValidNames(Policy.Compile(spec, capabilities, image, variables, control).value);
  }

  lemma RestoredNames(request: CreateRequest, control: Option<Policy.Control>)
    requires Policy.Sealed(request) && ValidSandboxId(request.id) && Policy.Restored(request, control).Ok?
    ensures var restored := Policy.Restored(request, control).value; restored.id == request.id && ValidNames(restored)
  {
    Policy.RestoredIsSealed(request, control);
    Policy.SealedHasValidNames(Policy.Restored(request, control).value);
  }

  /**
   * Whatever a specification compiles to, with its transport replaced or not, creating it and removing the reported
   * evidence restores the runtime exactly, on every outcome of create; what does not compile never reaches it.
   */
  method CompileCreateAndRollBack(
    runtime: Fake.FakeRuntime, spec: Policy.Spec, capabilities: Policy.Capabilities, image: string,
    variables: map<string, string>, control: Option<Policy.Control>, replacement: Option<Option<Policy.Control>>)
    returns (r: Result<Result<seq<RuntimeResource>, CreateFailure>, Policy.PolicyError>)
    requires runtime.Valid() && ValidSandboxId(spec.id) && Fake.AtRemove !in runtime.failures
    modifies runtime
    ensures runtime.Valid()
    ensures runtime.resources == old(runtime.resources) && runtime.sandboxes == old(runtime.sandboxes)
    ensures match Prepared(spec, capabilities, image, variables, control, replacement)
      case Err(error) => r == Err(error)
      case Ok(request) =>
        && r.Ok?
        && (r.value.Ok? <==>
              && old(runtime.Admits(request))
              && !Fake.Blocked(request, old(runtime.resources), old(runtime.createFailureAfterMutations)))
  {
    var request := Prepare(spec, capabilities, image, variables, control, replacement);
    if request.Err? { return Err(request.error); }
    var created := Fake.CreateAndRollBack(runtime, request.value);
    return Ok(created);
  }

  /** What is sent to the runtime: the compiled request, with its transport replaced if there is a replacement. */
  function Prepared(
    spec: Policy.Spec, capabilities: Policy.Capabilities, image: string, variables: map<string, string>,
    control: Option<Policy.Control>, replacement: Option<Option<Policy.Control>>): Result<CreateRequest,
      Policy.PolicyError> {
    match Policy.Compile(spec, capabilities, image, variables, control)
    case Err(error) => Err(error)
    case Ok(request) => if replacement.Some? then Policy.Restored(request, replacement.value) else Ok(request)
  }

  method Prepare(
    spec: Policy.Spec, capabilities: Policy.Capabilities, image: string, variables: map<string, string>,
    control: Option<Policy.Control>, replacement: Option<Option<Policy.Control>>)
    returns (r: Result<CreateRequest, Policy.PolicyError>)
    requires ValidSandboxId(spec.id)
    ensures r == Prepared(spec, capabilities, image, variables, control, replacement)
    ensures r.Ok? ==> r.value.id == spec.id && ValidNames(r.value)
  {
    r := Policy.Compile(spec, capabilities, image, variables, control);
    if r.Err? { return; }
    CompiledNames(spec, capabilities, image, variables, control);
    if replacement.Some? {
      var request := r.value;
      r := Policy.RestoreSshTransport(request, replacement.value);
      if r.Ok? { RestoredNames(request, replacement.value); }
    }
  }
}
