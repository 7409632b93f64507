/** One promotion: the initial authority, and the callback that the container step runs before it assigns the tag. */
module PromotionOperation {
  import opened GitHubReads
  import opened Promotion
  import opened PromotionAuthority
  import opened Snapshots
  import opened Wrappers

  datatype Receipt = Receipt(passed: bool, request: Request, candidate: string, identity: Identity)

  const INITIAL := File("initial authority")
  const EVIDENCE := File("downloaded evidence")

  class Operation {
    const api: Client
    const request: Request
    const gates: Gates
    const select: Selection
    const initial: Receipt
    const initialDigest: Fact
    const evidence: Fact
    ghost const bound: nat
    var callbackCompleted: bool
    /** The instants at which a completed callback found the authority. */
    ghost var completed: seq<nat>

    constructor (
      api: Client, request: Request, gates: Gates, select: Selection, initial: Receipt, initialDigest: Fact, evidence: Fact,
      ghost bound: nat)
      requires BoundedGates(gates, bound)
      ensures this.api == api && this.request == request && this.gates == gates && this.select == select
      ensures this.initial == initial && this.initialDigest == initialDigest && this.evidence == evidence && this.bound == bound
      ensures !callbackCompleted && completed == []
    {
      this.api, this.request, this.gates, this.select := api, request, gates, select;
      this.initial, this.initialDigest, this.evidence, this.bound := initial, initialDigest, evidence, bound;
      callbackCompleted, completed := false, [];
    }

    /** Nothing changed back since `start`, and inventories agree with lookups: what the remote side is trusted for. */
    ghost predicate Trusted(start: nat)
      reads api
    {
      Steady(api.env, start, api.clock) && ListingsAgree(api.env)
    }

    /** At most one callback completed; it found, after `start`, the very authority that was approved initially. */
    ghost predicate Once(start: nat)
      reads this, api
    {
      && |completed| == (if callbackCompleted then 1 else 0)
      && (callbackCompleted && Trusted(start) ==>
            start <= completed[0] <= api.clock && Authorized(api.env, completed[0], gates, request, initial.identity))
    }

    /** The callback; it raises unless this is the first completion and nothing at all differs. */
    method BeforeLatestAssignment(ghost start: nat) returns (ok: bool)
      requires BoundedGates(gates, bound) && Once(start) && start <= api.clock
      modifies this, api
      ensures Once(start) && api.clock >= old(api.clock)
      ensures ok ==> !old(callbackCompleted) && callbackCompleted
      ensures !ok ==> callbackCompleted == old(callbackCompleted)
      ensures old(callbackCompleted) ==> !ok && completed == old(completed)
    {
      hide Authorized, BoundedGates, ListingsAgree;
      if callbackCompleted {
        return false;
      }
      var latest, w := CollectAuthority(api, request, gates, select, bound);
      if latest.Err? {
        return false;
      }
      var digest := api.Get(INITIAL);
      if digest != Some(initialDigest) || latest.value != initial.identity {
        return false;
      }
      var files := api.Get(EVIDENCE);
      if files != Some(evidence) {
        return false;
      }
      callbackCompleted, completed := true, [w.at];
      ok := true;
    }

    /**
     The container step, seen from here: it runs the callback any number of times; an exception of the callback
     escapes or is swallowed; and the step succeeds or fails for reasons of its own.
     */
    method PromoteApprovedDigest(escapes: seq<bool>, succeeds: bool, ghost start: nat) returns (ok: bool)
      requires BoundedGates(gates, bound) && Once(start) && start <= api.clock
      modifies this, api
      ensures Once(start) && api.clock >= old(api.clock)
      ensures ok ==> succeeds
    {
      for k := 0 to |escapes|
        invariant Once(start) && api.clock >= old(api.clock)
      {
        var completes := BeforeLatestAssignment(start);
        if !completes && escapes[k] { return false; }
      }
      ok := succeeds;
    }
  }

  /** The initial observation fixes this request. */
  predicate InitialIsFixed(initial: Receipt, request: Request) {
    initial.passed && initial.request == request && initial.candidate == initial.identity.release.source && IsSha(initial.candidate)
  }

  /**
   A promotion succeeds only if the callback completed exactly once, during this operation, and there was an
   instant of it in which the whole identity approved initially was true.
   */
  method Promote(
    api: Client, request: Request, gates: Gates, select: Selection, initial: Receipt, escapes: seq<bool>, succeeds: bool,
    ghost bound: nat)
    returns (ok: bool, operation: Operation)
    requires BoundedGates(gates, bound)
    modifies api
    ensures api.clock >= old(api.clock) && fresh(operation)
    ensures operation.api == api && operation.initial == initial && operation.request == request && operation.gates == gates
    ensures operation.Once(old(api.clock))
    ensures ok ==> InitialIsFixed(initial, request) && operation.callbackCompleted && |operation.completed| == 1
    ensures ok && Steady(api.env, old(api.clock), api.clock) && ListingsAgree(api.env) ==>
              exists t :: old(api.clock) <= t <= api.clock && Authorized(api.env, t, gates, request, initial.identity)
  {
    hide Authorized, BoundedGates, ListingsAgree, Steady;
    ghost var start := api.clock;
    var digest := api.Get(INITIAL);
    var checkout := api.Get(Checkout(request.tooling));
    var files := api.Get(EVIDENCE);
    var nothing := Content("");
    operation := new Operation(
      api, request, gates, select, initial, digest.UnwrapOr(nothing), files.UnwrapOr(nothing), bound);
    if digest.None? || !InitialIsFixed(initial, request) || checkout.None? || files.None? { return false, operation; }
    var promoted := operation.PromoteApprovedDigest(escapes, succeeds, start);
    ok := promoted && operation.callbackCompleted;
  }
}
