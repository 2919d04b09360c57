// The inventory proof cache of the Apple backend (crates/gascan-apple/src/backend.rs, `inventory`).
//
// Every listing hands out fresh proofs; the cache replaces a fresh proof by the one recorded before when
// the resource was seen last time with the same labels. The cache is the only thing that turns "same name"
// into "the same resource, observed without interruption".
module AppleCache {
  import opened Wrappers
  import opened Resources

  /** One row of a listing, before a proof is attached. */
  datatype Listed = Listed(identity: ResourceIdentity, sandboxId: Option<SandboxId>, ownership: ResourceOwnership)

  /** What the backend asks of the runtime. A delete names the log position of the inventory that allowed it. */
  datatype Command =
    | NetworkCreate(name: string, owner: SandboxId)
    | VolumeCreate(name: string, capacityBytes: nat, owner: SandboxId)
    | ContainerRun(request: CreateRequest)
    | Delete(resource: RuntimeResource, checkedAt: nat)

  /**
   * What happens, in order: inventories, which reach the cache only when the listing succeeds, entries dropped after a
   * delete, and commands with how they end, which leave the cache alone.
   */
  datatype Event =
    | Observed(listing: seq<Listed>)
    | Failed
    | Dropped(identity: ResourceIdentity)
    | Issued(command: Command, failure: Option<RuntimeError>)

  datatype Cache = Cache(observations: map<ResourceIdentity, RuntimeResource>, nextProof: nat)

  const EMPTY := Cache(map[], 0)

  function Label(r: RuntimeResource): Listed { Listed(r.identity, r.sandboxId, r.ownership) }

  function Discovered(listing: seq<Listed>, nextProof: nat): (rs: seq<RuntimeResource>)
    ensures |rs| == |listing|
  {
    seq(|listing|, k requires 0 <= k < |listing| =>
      RuntimeResource(listing[k].identity, listing[k].sandboxId, listing[k].ownership, nextProof + k))
  }

  /** The recorded observation when its labels still agree, else the fresh one. */
  function Stable(observations: map<ResourceIdentity, RuntimeResource>, r: RuntimeResource): RuntimeResource {
    if r.identity in observations
       && observations[r.identity].sandboxId == r.sandboxId
       && observations[r.identity].ownership == r.ownership
    then observations[r.identity] else r
  }

  datatype Reconciled = Reconciled(observations: map<ResourceIdentity, RuntimeResource>,
    resources: seq<RuntimeResource>)

  /** The loop over a listing, one row at a time. */
  function Reconcile(observations: map<ResourceIdentity, RuntimeResource>, rows: seq<RuntimeResource>): Reconciled {
    if rows == [] then Reconciled(observations, []) else
      var prior := Reconcile(observations, rows[..|rows| - 1]);
      var stable := Stable(prior.observations, rows[|rows| - 1]);
      Reconciled(prior.observations[stable.identity := stable], prior.resources + [stable])
  }

  /** Entries the latest listing did not return are forgotten. */
  function Retain(r: Reconciled): map<ResourceIdentity, RuntimeResource> {
    map id | id in r.observations && r.observations[id] in r.resources :: r.observations[id]
  }

  function Apply(c: Cache, e: Event): Cache {
    match e
    case Observed(listing) =>
      Cache(Retain(Reconcile(c.observations, Discovered(listing, c.nextProof))), c.nextProof + |listing|)
    case Dropped(id) => c.(observations := c.observations - {id})
    case _ => c
  }

  /** The cache after a whole trace. */
  function Run(trace: seq<Event>): Cache {
    if trace == [] then EMPTY else Apply(Run(trace[..|trace| - 1]), trace[|trace| - 1])
  }

  /** What the inventory at position `k` returned to its caller. */
  function ReportedAt(trace: seq<Event>, k: nat): seq<RuntimeResource>
    requires k < |trace| && trace[k].Observed?
  {
    var c := Run(trace[..k]);
    Reconcile(c.observations, Discovered(trace[k].listing, c.nextProof)).resources
  }

  // ---------------------------------------------------------------- one listing

  /** A listing may repeat an identity, as long as it says the same of it each time. */
  predicate RowsAgree(listing: seq<Listed>) {
    forall i, j | 0 <= i < j < |listing| && listing[i].identity == listing[j].identity :: listing[i] == listing[j]
  }

  /** Entries are stored under their own identity and carry proofs already handed out. */
  predicate WellFormed(c: Cache) {
    forall id | id in c.observations ::
      c.observations[id].identity == id && c.observations[id].proof < c.nextProof
  }

  lemma {:induction false} ReconcileShape(observations: map<ResourceIdentity, RuntimeResource>,
      rows: seq<RuntimeResource>)
    requires forall id | id in observations :: observations[id].identity == id
    ensures var r := Reconcile(observations, rows);
      && |r.resources| == |rows|
      && (forall k | 0 <= k < |rows| :: Label(r.resources[k]) == Label(rows[k]))
      && (forall id | id in r.observations :: r.observations[id].identity == id)
      && (forall id | id in r.observations ::
          r.observations[id] in r.resources || (id in observations && r.observations[id] == observations[id]))
      && (forall k | 0 <= k < |rows| ::
          r.resources[k] == rows[k] || r.resources[k] in observations.Values || r.resources[k] in rows)
  {
    if rows != [] {
      var init, last := rows[..|rows| - 1], rows[|rows| - 1];
      ReconcileShape(observations, init);
      var prior := Reconcile(observations, init);
      var stable := Stable(prior.observations, last);
      assert rows == init + [last];
      assert stable == last || stable in prior.resources || stable in observations.Values;
    }
  }

  predicate Recorded(observations: map<ResourceIdentity, RuntimeResource>, row: RuntimeResource) {
    row.identity in observations && Label(observations[row.identity]) == Label(row)
  }

  predicate LabelsAgree(rows: seq<RuntimeResource>) {
    forall i, j | 0 <= i < j < |rows| && rows[i].identity == rows[j].identity :: Label(rows[i]) == Label(rows[j])
  }

  /**
   * What the loop has done with some rows: each is returned as recorded before the listing, or with a proof not handed
   * out before it; the cache holds what was returned; other entries are untouched.
   */
  ghost predicate Decided(observations: map<ResourceIdentity, RuntimeResource>, next: nat, rows: seq<RuntimeResource>,
      r: Reconciled) {
    && |r.resources| == |rows|
    && (forall k | 0 <= k < |rows| :: DecidedRow(observations, next, rows[k], r.resources[k]))
    && Holds(r.observations, rows, r.resources)
    && Untouched(observations, Identities(rows), r.observations)
  }

  predicate Holds(after: map<ResourceIdentity, RuntimeResource>, rows: seq<RuntimeResource>, out: seq<RuntimeResource>)
    requires |out| == |rows|
  {
    forall k | 0 <= k < |rows| :: rows[k].identity in after && after[rows[k].identity] == out[k]
  }

  predicate Untouched(observations: map<ResourceIdentity, RuntimeResource>, listed: set<ResourceIdentity>,
      after: map<ResourceIdentity, RuntimeResource>) {
    && (forall id | id in observations && id !in listed :: id in after && after[id] == observations[id])
    && (forall id | id in after :: id in observations || id in listed)
  }

  predicate DecidedRow(observations: map<ResourceIdentity, RuntimeResource>, next: nat, row: RuntimeResource,
      out: RuntimeResource) {
    && Label(out) == Label(row)
    && (if Recorded(observations, row) then out == observations[row.identity] else out.proof >= next)
  }

  lemma StableIsDecided(observations: map<ResourceIdentity, RuntimeResource>, next: nat, rows: seq<RuntimeResource>,
      prior: Reconciled, last: RuntimeResource)
    requires Decided(observations, next, rows, prior) && LabelsAgree(rows + [last]) && last.proof >= next
    requires forall id | id in observations :: observations[id].identity == id
    ensures DecidedRow(observations, next, last, Stable(prior.observations, last))
    ensures forall k | 0 <= k < |rows| && rows[k].identity == last.identity ::
      prior.resources[k] == Stable(prior.observations, last)
  {
    var all := rows + [last];
    if last.identity in Identities(rows) {
      var k :| 0 <= k < |rows| && rows[k].identity == last.identity;
      assert all[k] == rows[k] && all[|rows|] == last;
      assert Label(prior.resources[k]) == Label(last);
      assert forall j | 0 <= j < |rows| && rows[j].identity == last.identity ::
          prior.resources[j] == prior.resources[k];
    }
  }

  lemma OneMoreRow(observations: map<ResourceIdentity, RuntimeResource>, next: nat, rows: seq<RuntimeResource>,
      prior: Reconciled, last: RuntimeResource)
    requires Decided(observations, next, rows, prior) && LabelsAgree(rows + [last]) && last.proof >= next
    requires forall id | id in observations :: observations[id].identity == id
    ensures var stable := Stable(prior.observations, last);
      Decided(observations, next, rows + [last],
        Reconciled(prior.observations[stable.identity := stable], prior.resources + [stable]))
  {
    StableIsDecided(observations, next, rows, prior, last);
    var stable := Stable(prior.observations, last);
    var after := prior.observations[stable.identity := stable];
    assert stable.identity == last.identity by { assert Label(stable) == Label(last); }
    OneMoreHeld(prior.observations, rows, prior.resources, last, stable);
    assert Identities(rows + [last]) == Identities(rows) + {last.identity};
    assert Untouched(observations, Identities(rows + [last]), after);
  }

  lemma OneMoreHeld(before: map<ResourceIdentity, RuntimeResource>, rows: seq<RuntimeResource>,
      out: seq<RuntimeResource>, last: RuntimeResource, stable: RuntimeResource)
    requires |out| == |rows| && Holds(before, rows, out) && stable.identity == last.identity
    requires forall k | 0 <= k < |rows| && rows[k].identity == last.identity :: out[k] == stable
    ensures Holds(before[stable.identity := stable], rows + [last], out + [stable])
  {
  }

  /** On a listing whose rows agree, each row is decided by the cache before the listing. */
  lemma {:induction false} RowsAreDecided(observations: map<ResourceIdentity, RuntimeResource>, next: nat,
      rows: seq<RuntimeResource>)
    requires forall id | id in observations :: observations[id].identity == id
    requires LabelsAgree(rows) && forall k | 0 <= k < |rows| :: rows[k].proof >= next
    ensures Decided(observations, next, rows, Reconcile(observations, rows))
  {
    if rows != [] {
      var init, last := rows[..|rows| - 1], rows[|rows| - 1];
      assert rows == init + [last];
      assert forall k | 0 <= k < |init| :: init[k] == rows[k];
      RowsAreDecided(observations, next, init);
      OneMoreRow(observations, next, init, Reconcile(observations, init), last);
    }
  }

  /** The cache keeps its shape over every event, duplicates in a listing included. */
  lemma ApplyKeepsWellFormed(c: Cache, e: Event)
    requires WellFormed(c)
    ensures WellFormed(Apply(c, e)) && c.nextProof <= Apply(c, e).nextProof
  {
    if e.Observed? {
      var rows := Discovered(e.listing, c.nextProof);
      ReconcileShape(c.observations, rows);
      forall r | r in Reconcile(c.observations, rows).resources
        ensures r.proof < c.nextProof + |e.listing|
      {
        if r in c.observations.Values {
          var id :| id in c.observations && c.observations[id] == r;
        } else {
          assert r in rows;
        }
      }
    }
  }

  lemma {:induction false} RunIsWellFormed(trace: seq<Event>)
    ensures WellFormed(Run(trace))
  {
    if trace != [] {
      RunIsWellFormed(trace[..|trace| - 1]);
      ApplyKeepsWellFormed(Run(trace[..|trace| - 1]), trace[|trace| - 1]);
    }
  }

  /** A listing whose rows agree: what is returned, and that exactly it is remembered. */
  lemma ObserveAgreeing(c: Cache, listing: seq<Listed>)
    requires WellFormed(c) && RowsAgree(listing)
    ensures var rows := Discovered(listing, c.nextProof);
      var out := Reconcile(c.observations, rows).resources;
      var after := Apply(c, Observed(listing)).observations;
      && |out| == |listing|
      && (forall k | 0 <= k < |listing| ::
          DecidedRow(c.observations, c.nextProof, rows[k], out[k]) && Label(out[k]) == listing[k])
      && (forall k | 0 <= k < |listing| :: listing[k].identity in after && after[listing[k].identity] == out[k])
      && (forall id | id in after :: exists k | 0 <= k < |listing| :: listing[k].identity == id)
  {
    var rows := Discovered(listing, c.nextProof);
    var r := Reconcile(c.observations, rows);
    assert forall k | 0 <= k < |rows| :: Label(rows[k]) == listing[k] && rows[k].proof >= c.nextProof;
    assert LabelsAgree(rows);
    RowsAreDecided(c.observations, c.nextProof, rows);
    forall k | 0 <= k < |listing|
      ensures listing[k].identity in Retain(r) && Retain(r)[listing[k].identity] == r.resources[k]
    {
      assert rows[k].identity == listing[k].identity;
    }
    RetainedAreListed(c, listing, r);
  }

  lemma RetainedAreListed(c: Cache, listing: seq<Listed>, r: Reconciled)
    requires WellFormed(c) && r == Reconcile(c.observations, Discovered(listing, c.nextProof))
    ensures forall id | id in Retain(r) :: exists k | 0 <= k < |listing| :: listing[k].identity == id
  {
    var rows := Discovered(listing, c.nextProof);
    ReconcileShape(c.observations, rows);
    forall id | id in Retain(r)
      ensures exists k | 0 <= k < |listing| :: listing[k].identity == id
    {
      var k :| 0 <= k < |r.resources| && r.resources[k] == r.observations[id];
      assert Label(r.resources[k]) == Label(rows[k]);
      assert listing[k].identity == id;
    }
  }

  // ------------------------------------------------------------ proof continuity

  /** The event does not interrupt the observation of `item`. */
  predicate Continues(e: Event, item: Listed) {
    match e
    case Observed(listing) => item in listing
    case Dropped(id) => id != item.identity
    case _ => true
  }

  /** From just after position `i` up to `j`, every successful inventory saw `item` and nothing dropped it. */
  predicate ContinuouslyObserved(trace: seq<Event>, i: nat, j: nat, item: Listed)
    requires i <= j < |trace|
  {
    forall k | i < k <= j :: Continues(trace[k], item)
  }

  predicate ListingsAgree(trace: seq<Event>) {
    forall k | 0 <= k < |trace| :: trace[k].Observed? ==> RowsAgree(trace[k].listing)
  }

  lemma RunPrefix(trace: seq<Event>, k: nat)
    requires k < |trace|
    ensures Run(trace[..k + 1]) == Apply(Run(trace[..k]), trace[k])
  {
    assert trace[..k + 1][..k] == trace[..k];
  }

  predicate Caches(c: Cache, r: RuntimeResource) { r.identity in c.observations && c.observations[r.identity] == r }

  /** While observation continues the cache holds the very observation made at `i`. */
  lemma {:induction false} ContinuousKeepsProof(trace: seq<Event>, i: nat, j: nat, a: nat)
    requires i <= j < |trace| && trace[i].Observed? && ListingsAgree(trace) && a < |trace[i].listing|
    requires ContinuouslyObserved(trace, i, j, trace[i].listing[a])
    ensures |ReportedAt(trace, i)| == |trace[i].listing| && Label(ReportedAt(trace, i)[a]) == trace[i].listing[a]
    ensures Caches(Run(trace[..j + 1]), ReportedAt(trace, i)[a])
    decreases j - i
  {
    ReportedIsCached(trace, i, a);
    if i < j {
      ContinuousKeepsProof(trace, i, j - 1, a);
      RunPrefix(trace, j);
      RunIsWellFormed(trace[..j]);
      StaysCached(Run(trace[..j]), trace[j], ReportedAt(trace, i)[a]);
    }
  }

  /** An event that does not interrupt an observation leaves it as it is. */
  lemma StaysCached(c: Cache, e: Event, r: RuntimeResource)
    requires WellFormed(c) && (e.Observed? ==> RowsAgree(e.listing)) && Continues(e, Label(r))
    requires Caches(c, r)
    ensures Caches(Apply(c, e), r)
  {
    if e.Observed? {
      ObserveAgreeing(c, e.listing);
      var k :| 0 <= k < |e.listing| && e.listing[k] == Label(r);
    }
  }

  predicate OnlyFresh(c: Cache, id: ResourceIdentity, bound: nat) {
    bound <= c.nextProof && (id in c.observations ==> c.observations[id].proof >= bound)
  }

  /** An old proof, once gone, never comes back. */
  lemma StaysFresh(c: Cache, e: Event, id: ResourceIdentity, bound: nat)
    requires WellFormed(c) && (e.Observed? ==> RowsAgree(e.listing)) && OnlyFresh(c, id, bound)
    ensures OnlyFresh(Apply(c, e), id, bound)
  {
    if e.Observed? { ObserveAgreeing(c, e.listing); }
  }

  /** An event that interrupts `item` removes the proof the cache held for it. */
  lemma BecomesFresh(c: Cache, e: Event, item: Listed, bound: nat)
    requires WellFormed(c) && (e.Observed? ==> RowsAgree(e.listing)) && bound <= c.nextProof
    requires item.identity in c.observations && Label(c.observations[item.identity]) == item
    requires !Continues(e, item)
    ensures OnlyFresh(Apply(c, e), item.identity, bound)
  {
    if e.Observed? { ObserveAgreeing(c, e.listing); }
  }

  /** Once interrupted, the identity is absent or carries a proof handed out after position `i`. */
  lemma {:induction false} InterruptedLosesProof(trace: seq<Event>, i: nat, j: nat, a: nat)
    requires i <= j < |trace| && trace[i].Observed? && ListingsAgree(trace) && a < |trace[i].listing|
    requires !ContinuouslyObserved(trace, i, j, trace[i].listing[a])
    ensures OnlyFresh(Run(trace[..j + 1]), trace[i].listing[a].identity, Run(trace[..i + 1]).nextProof)
    decreases j - i
  {
    if i < j {
      var item := trace[i].listing[a];
      var bound := Run(trace[..i + 1]).nextProof;
      var c := Run(trace[..j]);
      RunPrefix(trace, j);
      RunIsWellFormed(trace[..j]);
      if ContinuouslyObserved(trace, i, j - 1, item) {
        ContinuousKeepsProof(trace, i, j - 1, a);
        ProofCounterGrows(trace, i, j - 1);
        BecomesFresh(c, trace[j], item, bound);
      } else {
        InterruptedLosesProof(trace, i, j - 1, a);
        StaysFresh(c, trace[j], item.identity, bound);
      }
    }
  }

  lemma {:induction false} ProofCounterGrows(trace: seq<Event>, i: nat, j: nat)
    requires i <= j < |trace|
    ensures Run(trace[..i + 1]).nextProof <= Run(trace[..j + 1]).nextProof
    decreases j - i
  {
    if i < j {
      ProofCounterGrows(trace, i, j - 1);
      RunPrefix(trace, j);
      RunIsWellFormed(trace[..j]);
      ApplyKeepsWellFormed(Run(trace[..j]), trace[j]);
    }
  }

  /** What an inventory returns is what the cache holds right after it. */
  lemma ReportedIsCached(trace: seq<Event>, k: nat, b: nat)
    requires k < |trace| && trace[k].Observed? && RowsAgree(trace[k].listing) && b < |trace[k].listing|
    ensures |ReportedAt(trace, k)| == |trace[k].listing|
    ensures var r := ReportedAt(trace, k)[b];
      Label(r) == trace[k].listing[b] && Caches(Run(trace[..k + 1]), r) && r.proof < Run(trace[..k + 1]).nextProof
  {
    RunPrefix(trace, k);
    RunIsWellFormed(trace[..k]);
    RunIsWellFormed(trace[..k + 1]);
    ObserveAgreeing(Run(trace[..k]), trace[k].listing);
  }

  /**
   * Proof continuity. Two inventories report an identity with the same proof exactly when it was observed
   * without interruption in between; then they report the same resource, labels included.
   */
  lemma ProofContinuity(trace: seq<Event>, i: nat, j: nat, a: nat, b: nat)
    requires i < j < |trace| && trace[i].Observed? && trace[j].Observed? && ListingsAgree(trace)
    requires a < |trace[i].listing| && b < |trace[j].listing|
    requires trace[i].listing[a].identity == trace[j].listing[b].identity
    ensures |ReportedAt(trace, i)| == |trace[i].listing| && |ReportedAt(trace, j)| == |trace[j].listing|
    ensures var item := trace[i].listing[a];
      && (ReportedAt(trace, i)[a].proof == ReportedAt(trace, j)[b].proof <==> ContinuouslyObserved(trace, i, j, item))
      && (ReportedAt(trace, i)[a] == ReportedAt(trace, j)[b] <==> ContinuouslyObserved(trace, i, j, item))
  {
    ReportedIsCached(trace, i, a);
    ReportedIsCached(trace, j, b);
    if ContinuouslyObserved(trace, i, j, trace[i].listing[a]) {
      ContinuousKeepsProof(trace, i, j, a);
    } else {
      InterruptedLosesProof(trace, i, j, a);
    }
  }

  // ------------------------------------------------------------- the condition is exact

  /** Row `p` is the first of its identity. */
  predicate IsFirst(rows: seq<RuntimeResource>, p: nat)
    requires p < |rows|
  {
    forall k | 0 <= k < p :: rows[k].identity != rows[p].identity
  }

  /** Some later row of the same identity says otherwise. */
  predicate Contradicted(rows: seq<RuntimeResource>, p: nat)
    requires p < |rows|
  {
    exists k | p < k < |rows| :: rows[k].identity == rows[p].identity && Label(rows[k]) != Label(rows[p])
  }

  lemma {:induction false} UnlistedUntouched(observations: map<ResourceIdentity, RuntimeResource>,
      rows: seq<RuntimeResource>, id: ResourceIdentity)
    requires forall k | 0 <= k < |rows| :: rows[k].identity != id
    requires forall i | i in observations :: observations[i].identity == i
    ensures var after := Reconcile(observations, rows).observations;
      (id in after <==> id in observations) && (id in after ==> after[id] == observations[id])
  {
    if rows != [] {
      UnlistedUntouched(observations, rows[..|rows| - 1], id);
      ReconcileLabels(observations, rows[..|rows| - 1]);
    }
  }

  /** What the loop makes of the first row of an identity, and what the cache then holds for it. */
  ghost predicate FirstRowFate(observations: map<ResourceIdentity, RuntimeResource>, next: nat,
      rows: seq<RuntimeResource>, p: nat, r: Reconciled)
    requires p < |rows|
  {
    && |r.resources| == |rows| && r.resources[p] == Stable(observations, rows[p])
    && rows[p].identity in r.observations && r.observations[rows[p].identity] in r.resources
    && (if Contradicted(rows, p) then r.observations[rows[p].identity].proof > next + p
        else r.observations[rows[p].identity] == r.resources[p])
  }

  lemma {:induction false} FollowFirstRow(observations: map<ResourceIdentity, RuntimeResource>, next: nat,
      rows: seq<RuntimeResource>, p: nat)
    requires forall i | i in observations :: observations[i].identity == i
    requires p < |rows| && IsFirst(rows, p) && forall k | 0 <= k < |rows| :: rows[k].proof == next + k
    ensures FirstRowFate(observations, next, rows, p, Reconcile(observations, rows))
  {
    var init, last := rows[..|rows| - 1], rows[|rows| - 1];
    var prior := Reconcile(observations, init);
    ReconcileLabels(observations, init);
    assert rows == init + [last] && forall k | 0 <= k < |init| :: init[k] == rows[k];
    if p == |init| {
      UnlistedUntouched(observations, init, last.identity);
      FirstIsLast(observations, next, init, prior, last);
    } else {
      FollowFirstRow(observations, next, init, p);
      OneMoreAfterFirst(observations, next, init, p, prior, last);
    }
  }

  lemma ReconcileLabels(observations: map<ResourceIdentity, RuntimeResource>, rows: seq<RuntimeResource>)
    requires forall id | id in observations :: observations[id].identity == id
    ensures var r := Reconcile(observations, rows);
      && |r.resources| == |rows|
      && (forall k | 0 <= k < |rows| :: Label(r.resources[k]) == Label(rows[k]))
      && (forall id | id in r.observations :: r.observations[id].identity == id)
  {
    ReconcileShape(observations, rows);
  }

  lemma FirstIsLast(observations: map<ResourceIdentity, RuntimeResource>, next: nat, rows: seq<RuntimeResource>,
      prior: Reconciled, last: RuntimeResource)
    requires |prior.resources| == |rows| && (last.identity in prior.observations <==> last.identity in observations)
    requires last.identity in observations ==>
      && prior.observations[last.identity] == observations[last.identity]
      && observations[last.identity].identity == last.identity
    ensures var stable := Stable(prior.observations, last);
      FirstRowFate(observations, next, rows + [last], |rows|,
        Reconciled(prior.observations[stable.identity := stable], prior.resources + [stable]))
  {
    var all := rows + [last];
    assert all[|rows|] == last && !Contradicted(all, |rows|);
  }

  lemma OneMoreAfterFirst(observations: map<ResourceIdentity, RuntimeResource>, next: nat, rows: seq<RuntimeResource>,
      p: nat, prior: Reconciled, last: RuntimeResource)
    requires forall i | i in prior.observations :: prior.observations[i].identity == i
    requires p < |rows| && FirstRowFate(observations, next, rows, p, prior) && last.proof == next + |rows|
    requires Label(prior.resources[p]) == Label(rows[p])
    ensures var stable := Stable(prior.observations, last);
      FirstRowFate(observations, next, rows + [last], p,
        Reconciled(prior.observations[stable.identity := stable], prior.resources + [stable]))
  {
    var all := rows + [last];
    assert forall k | 0 <= k < |rows| :: all[k] == rows[k];
    assert all[|rows|] == last;
    assert Contradicted(all, p)
      <==> Contradicted(rows, p) || (last.identity == rows[p].identity && Label(last) != Label(rows[p]));
  }

  /** Listings that say two things of one identity are the whole of what breaks continuity. */
  lemma RepeatKeepsProofsIffRowsAgree(trace: seq<Event>, listing: seq<Listed>)
    ensures var twice := trace + [Observed(listing), Observed(listing)];
      var first, second := ReportedAt(twice, |trace|), ReportedAt(twice, |trace| + 1);
      && |first| == |second| == |listing|
      && (RowsAgree(listing) <==> forall k | 0 <= k < |listing| :: first[k].proof == second[k].proof)
  {
    var twice := trace + [Observed(listing), Observed(listing)];
    assert twice[..|trace|] == trace;
    RunPrefix(twice, |trace|);
    RunIsWellFormed(trace);
    RepeatFromCache(Run(trace), listing);
  }

  lemma RepeatFromCache(c: Cache, listing: seq<Listed>)
    requires WellFormed(c)
    ensures var d := Apply(c, Observed(listing));
      var first := Reconcile(c.observations, Discovered(listing, c.nextProof)).resources;
      var second := Reconcile(d.observations, Discovered(listing, d.nextProof)).resources;
      && |first| == |second| == |listing|
      && (RowsAgree(listing) <==> forall k | 0 <= k < |listing| :: first[k].proof == second[k].proof)
  {
    var d := Apply(c, Observed(listing));
    ApplyKeepsWellFormed(c, Observed(listing));
    ReconcileLabels(c.observations, Discovered(listing, c.nextProof));
    ReconcileLabels(d.observations, Discovered(listing, d.nextProof));
    if RowsAgree(listing) {
      AgreeingRepeat(c, listing);
    } else {
      var i, j :| 0 <= i < j < |listing| && listing[i].identity == listing[j].identity && listing[i] != listing[j];
      DisagreeingRepeat(c, listing, i, j);
    }
  }

  lemma AgreeingRepeat(c: Cache, listing: seq<Listed>)
    requires WellFormed(c) && RowsAgree(listing)
    ensures var rows := Discovered(listing, c.nextProof);
      var d := Apply(c, Observed(listing));
      Reconcile(c.observations, rows).resources == Reconcile(d.observations, Discovered(listing, d.nextProof)).resources
  {
    var d := Apply(c, Observed(listing));
    ApplyKeepsWellFormed(c, Observed(listing));
    ObserveAgreeing(c, listing);
    ObserveAgreeing(d, listing);
    var again := Discovered(listing, d.nextProof);
    forall k | 0 <= k < |listing| ensures Recorded(d.observations, again[k]) {
      assert Label(again[k]) == listing[k];
    }
  }

  /** The first row, from `k` on, of the identity of row `i`. */
  function FirstRow(listing: seq<Listed>, k: nat, i: nat): (p: nat)
    requires k <= i < |listing|
    ensures k <= p <= i && listing[p].identity == listing[i].identity
    ensures forall m | k <= m < p :: listing[m].identity != listing[p].identity
    decreases i - k
  {
    if listing[k].identity == listing[i].identity then k else FirstRow(listing, k + 1, i)
  }

  /** The first row of an identity that later rows contradict gets another proof, although it is listed both times. */
  lemma {:induction false} DisagreeingRepeat(c: Cache, listing: seq<Listed>, i: nat, j: nat)
    requires WellFormed(c) && i < j < |listing|
    requires listing[i].identity == listing[j].identity && listing[i] != listing[j]
    ensures var d, p := Apply(c, Observed(listing)), FirstRow(listing, 0, i);
      var first := Reconcile(c.observations, Discovered(listing, c.nextProof)).resources;
      var second := Reconcile(d.observations, Discovered(listing, d.nextProof)).resources;
      |first| == |second| == |listing| && first[p].proof < second[p].proof
  {
    var p := FirstRow(listing, 0, i);
    var rows := Discovered(listing, c.nextProof);
    var d := Apply(c, Observed(listing));
    var again := Discovered(listing, d.nextProof);
    var k := if listing[i] != listing[p] then i else j;
    assert rows[k].identity == rows[p].identity && Label(rows[k]) != Label(rows[p]);
    FollowFirstRow(c.observations, c.nextProof, rows, p);
    ApplyKeepsWellFormed(c, Observed(listing));
    FollowFirstRow(d.observations, d.nextProof, again, p);
    assert Contradicted(rows, p);
  }
}
