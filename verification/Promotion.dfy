/**
 The promotion of a released container: the authority collected by reading everything twice around the producer
 lookup, and the once-only callback that collects it again right before the latest tag is assigned.
 */
module Promotion {
  import opened CheckLookups
  import opened GitHubReads
  import opened PromotionAuthority
  import opened ReleasedSource
  import opened Snapshots
  import opened Wrappers

  /** The lookups of the other tools: main protection, tooling checks, and the checks of the released source. */
  datatype Gates = Gates(protection: Lookup<string>, toolingChecks: Lookup<seq<Row>>, historical: string -> Lookup<seq<Row>>)

  /** Every lookup ends after boundedly many reads. */
  ghost predicate BoundedGates(gates: Gates, bound: nat) {
    && Bounded(gates.protection, bound) && Bounded(gates.toolingChecks, bound)
    && forall source :: Bounded(gates.historical(source), bound)
  }

  datatype Request = Request(tag: string, tooling: string)

  datatype Identity = Identity(
    checkout: Fact, release: ReleaseId, protection: string, toolingChecks: seq<Row>, historical: seq<Row>, producer: Producer)

  /**
   In the one instant `t`, the release and the producer are as the identity says, and so is everything that the
   results of the other lookups fix.
   */
  ghost predicate Authorized(env: History<Query, Fact>, t: nat, gates: Gates, request: Request, id: Identity) {
    && env(t, OperatorRun(request.tooling)) == Some(Confirmed)
    && env(t, Checkout(request.tooling)) == Some(id.checkout)
    && Shown(env, gates.protection, t, id.protection)
    && Shown(env, gates.toolingChecks, t, id.toolingChecks)
    && Holds(env, ReleaseReads(request.tag, request.tooling), t, id.release)
    && Shown(env, gates.historical(id.release.source), t, id.historical)
    && ProducerStands(env, t, id.release.source, id.producer)
  }

  /** Results of the reads made around the producer lookup. */
  datatype Around = Around(protection: string, toolingChecks: seq<Row>, release: ReleaseId, historical: seq<Row>)

  ghost predicate AroundHolds(env: History<Query, Fact>, t: nat, gates: Gates, request: Request, a: Around) {
    && Shown(env, gates.protection, t, a.protection)
    && Shown(env, gates.toolingChecks, t, a.toolingChecks)
    && Holds(env, ReleaseReads(request.tag, request.tooling), t, a.release)
    && Shown(env, gates.historical(a.release.source), t, a.historical)
  }

  /** The facts and times of the four runs behind such results. */
  datatype Traces = Traces(f: seq<seq<Fact>>, times: seq<seq<nat>>)

  ghost predicate Traced(env: History<Query, Fact>, gates: Gates, request: Request, a: Around, tr: Traces, lo: nat, hi: nat) {
    && |tr.f| == 4 && |tr.times| == 4
    && IsRun(env, gates.protection, tr.f[0], tr.times[0], a.protection) && Within(tr.times[0], lo, hi)
    && IsRun(env, gates.toolingChecks, tr.f[1], tr.times[1], a.toolingChecks) && Within(tr.times[1], lo, hi)
    && IsRun(env, ReleaseReads(request.tag, request.tooling), tr.f[2], tr.times[2], a.release) && Within(tr.times[2], lo, hi)
    && IsRun(env, gates.historical(a.release.source), tr.f[3], tr.times[3], a.historical) && Within(tr.times[3], lo, hi)
  }

  lemma AgreeingTracesHold(
    env: History<Query, Fact>, gates: Gates, request: Request, a: Around, before: Traces, after: Traces,
    lo: nat, t: nat, hi: nat)
    requires Steady(env, lo, hi) && lo <= t <= hi
    requires Traced(env, gates, request, a, before, lo, t) && Traced(env, gates, request, a, after, t, hi)
    ensures AroundHolds(env, t, gates, request, a)
  {
    hide Steady, IsRun, Within, Holds;
    var release := ReleaseReads(request.tag, request.tooling);
    AgreementShows(env, gates.protection, before.f[0], before.times[0], after.f[0], after.times[0], a.protection, lo, t, hi);
    AgreementShows(env, gates.toolingChecks, before.f[1], before.times[1], after.f[1], after.times[1], a.toolingChecks, lo, t, hi);
    AgreementShows(env, release, before.f[2], before.times[2], after.f[2], after.times[2], a.release, lo, t, hi);
    AgreementShows(env, gates.historical(a.release.source),
                   before.f[3], before.times[3], after.f[3], after.times[3], a.historical, lo, t, hi);
    ReleaseIsFaithful(request.tag, request.tooling);
    FaithfulIsSettled(release, a.release);
  }

  /** The first reading, in the order of the program. */
  method ReadBefore(api: Client, request: Request, gates: Gates, ghost bound: nat)
    returns (r: Option<Around>, ghost tr: Traces)
    requires BoundedGates(gates, bound)
    modifies api
    ensures api.clock >= old(api.clock)
    ensures r.Some? ==> Traced(api.env, gates, request, r.value, tr, old(api.clock), api.clock)
  {
    hide IsRun, Within;
    tr := Traces([], []);
    ghost var t0 := api.clock;
    var protection, f0, times0 := api.Perform(gates.protection, bound);
    if protection.None? { return None, tr; }
    ghost var t1 := api.clock;
    var checks, f1, times1 := api.Perform(gates.toolingChecks, bound);
    if checks.None? { return None, tr; }
    ghost var t2 := api.clock;
    var release, f2, times2 := ReleaseIdentity(api, request.tag, request.tooling);
    if release.None? { return None, tr; }
    ghost var t3 := api.clock;
    var historical, f3, times3 := api.Perform(gates.historical(release.value.source), bound);
    if historical.None? { return None, tr; }
    WithinWider(times0, t0, t1, t0, api.clock);
    WithinWider(times1, t1, t2, t0, api.clock);
    WithinWider(times2, t2, t3, t0, api.clock);
    WithinWider(times3, t3, api.clock, t0, api.clock);
    r := Some(Around(protection.value, checks.value, release.value, historical.value));
    tr := Traces([f0, f1, f2, f3], [times0, times1, times2, times3]);
  }

  lemma Unchanged<R>(
    env: History<Query, Fact>, p: Procedure<Query, Fact, R>, f: seq<Fact>, before: seq<nat>, a: R,
    g: seq<Fact>, after: seq<nat>, b: R, lo: nat, start: nat, from: nat, hi: nat)
    requires lo <= start <= from <= hi
    requires IsRun(env, p, f, before, a) && Within(before, lo, start)
    requires IsRun(env, p, g, after, b) && Within(after, from, hi)
    ensures Still(env, lo, hi) ==> a == b
  {
    if Still(env, lo, hi) {
      StillRunsAgree(env, p, f, before, a, g, after, b, lo, hi);
    }
  }

  lemma StillWithin(env: History<Query, Fact>, lo: nat, from: nat, to: nat, hi: nat)
    requires lo <= from <= to <= hi
    ensures Still(env, lo, hi) ==> Still(env, from, to)
  {
  }

  /** The second reading: in another order, each result compared with the first before going on. */
  method ReadAfter(api: Client, request: Request, gates: Gates, expected: Around, ghost before: Traces, ghost lo: nat, ghost bound: nat)
    returns (r: Result<bool, Failure>, ghost tr: Traces)
    requires BoundedGates(gates, bound)
    requires lo <= api.clock && Traced(api.env, gates, request, expected, before, lo, api.clock)
    modifies api
    ensures api.clock >= old(api.clock)
    ensures Still(api.env, lo, api.clock) ==> r != Err(Changed)
    ensures r.Ok? ==> Traced(api.env, gates, request, expected, tr, old(api.clock), api.clock)
  {
    hide IsRun, Within, Still;
    tr := Traces([], []);
    ghost var t0 := api.clock;
    var release, f2, times2 := ReleaseIdentity(api, request.tag, request.tooling);
    if release.None? { return Err(Refused), tr; }
    Unchanged(api.env, ReleaseReads(request.tag, request.tooling), before.f[2], before.times[2], expected.release,
              f2, times2, release.value, lo, t0, t0, api.clock);
    if release.value != expected.release { return Err(Changed), tr; }
    ghost var t1 := api.clock;
    var historical, f3, times3 := api.Perform(gates.historical(release.value.source), bound);
    if historical.None? { return Err(Refused), tr; }
    Unchanged(api.env, gates.historical(release.value.source), before.f[3], before.times[3], expected.historical,
              f3, times3, historical.value, lo, t0, t1, api.clock);
    if historical.value != expected.historical { return Err(Changed), tr; }
    ghost var t2 := api.clock;
    var protection, f0, times0 := api.Perform(gates.protection, bound);
    if protection.None? { return Err(Refused), tr; }
    Unchanged(api.env, gates.protection, before.f[0], before.times[0], expected.protection,
              f0, times0, protection.value, lo, t0, t2, api.clock);
    if protection.value != expected.protection { return Err(Changed), tr; }
    ghost var t3 := api.clock;
    var checks, f1, times1 := api.Perform(gates.toolingChecks, bound);
    if checks.None? { return Err(Refused), tr; }
    Unchanged(api.env, gates.toolingChecks, before.f[1], before.times[1], expected.toolingChecks,
              f1, times1, checks.value, lo, t0, t3, api.clock);
    if checks.value != expected.toolingChecks { return Err(Changed), tr; }
    WithinWider(times2, t0, t1, t0, api.clock);
    WithinWider(times3, t1, t2, t0, api.clock);
    WithinWider(times0, t2, t3, t0, api.clock);
    WithinWider(times1, t3, api.clock, t0, api.clock);
    r := Ok(true);
    tr := Traces([f0, f1, f2, f3], [times0, times1, times2, times3]);
  }

  method Confirm(api: Client, q: Query) returns (ok: bool)
    modifies api
    ensures api.clock > old(api.clock) && ok == (api.env(api.clock, q) == Some(Confirmed))
  {
    var fact := api.Get(q);
    ok := fact == Some(Confirmed);
  }

  /** The run of the producer lookup, where it began and ended, and the instant the artifacts were listed. */
  datatype Window = Window(from: nat, at: nat, to: nat, facts: seq<Fact>, times: seq<nat>)

  /** The window is that of a run of the producer lookup which gave this producer. */
  ghost predicate IsWindow(env: History<Query, Fact>, w: Window, source: string, select: Selection, p: Producer) {
    && IsRun(env, ProducerReads(source, select), w.facts, w.times, p) && Within(w.times, w.from, w.to)
    && w.from <= w.at <= w.to && w.at in w.times
  }

  /**
   Collects the authority. On success there was one instant, during the producer lookup, in which the identity
   was true together, for every interleaving with other actors in which no changed value changes back between
   two reads of it.
   */
  method CollectAuthority(api: Client, request: Request, gates: Gates, select: Selection, ghost bound: nat)
    returns (r: Result<Identity, Failure>, ghost w: Window)
    requires BoundedGates(gates, bound)
    modifies api
    ensures api.clock >= old(api.clock)
    ensures r.Ok? ==>
              && IsWindow(api.env, w, r.value.release.source, select, r.value.producer)
              && old(api.clock) <= w.from && w.to <= api.clock
    ensures r.Ok? && Steady(api.env, old(api.clock), api.clock) && ListingsAgree(api.env) ==>
              Authorized(api.env, w.at, gates, request, r.value)
    ensures Still(api.env, old(api.clock), api.clock) && ListingsAgree(api.env) ==> r != Err(Changed)
  {
    hide Holds, Shown, ListingsAgree, BoundedGates, Still, Steady, Traced, ProducerStands, IsRun;
    w := Window(0, 0, 0, [], []);
    ghost var start := api.clock;
    var checkout := api.Get(Checkout(request.tooling));
    if checkout.None? { return Err(Refused), w; }
    ghost var checkoutAt := api.clock;
    var operator := Confirm(api, OperatorRun(request.tooling));
    if !operator { return Err(Refused), w; }
    ghost var operatorAt := api.clock;
    var around, before := ReadBefore(api, request, gates, bound);
    if around.None? { return Err(Refused), w; }
    ghost var lookup := api.clock;
    var producer, facts, times := ContainerAuthority(api, around.value.release.source, select);
    StillWithin(api.env, start, lookup, api.clock, api.clock);
    if producer.Err? { return Err(producer.error), w; }
    ghost var reread, at := api.clock, times[2];
    w := Window(lookup, at, reread, facts, times);
    TracesWiden(api.env, gates, request, around.value, before, operatorAt, lookup, start, reread);
    var same, after := ReadAfter(api, request, gates, around.value, before, start, bound);
    if same.Err? { return Err(same.error), w; }
    ghost var rereadEnd := api.clock;
    operator := Confirm(api, OperatorRun(request.tooling));
    if !operator { return Err(Refused), w; }
    ghost var operatorAgain := api.clock;
    var checkoutAgain := api.Get(Checkout(request.tooling));
    if checkoutAgain.None? { return Err(Refused), w; }
    StillRead(api.env, Checkout(request.tooling), start, checkoutAt, api.clock);
    if checkoutAgain != checkout { return Err(Changed), w; }
    var a := around.value;
    r := Ok(Identity(checkout.value, a.release, a.protection, a.toolingChecks, a.historical, producer.value));
    if Steady(api.env, start, api.clock) && ListingsAgree(api.env) {
      SteadyWithin(api.env, start, lookup, reread, api.clock);
      TracesWiden(api.env, gates, request, a, before, operatorAt, lookup, start, at);
      TracesWiden(api.env, gates, request, a, after, reread, rereadEnd, at, api.clock);
      AgreeingTracesHold(api.env, gates, request, a, before, after, start, at, api.clock);
      ReadHolds(api.env, OperatorRun(request.tooling), Confirmed, start, operatorAt, at, operatorAgain, api.clock);
      ReadHolds(api.env, Checkout(request.tooling), checkout.value, start, checkoutAt, at, api.clock, api.clock);
    }
  }

  lemma StillRead(env: History<Query, Fact>, q: Query, lo: nat, first: nat, last: nat)
    requires lo <= first <= last
    ensures Still(env, lo, last) ==> env(first, q) == env(last, q)
  {
  }

  lemma TracesWiden(
    env: History<Query, Fact>, gates: Gates, request: Request, a: Around, tr: Traces, lo: nat, hi: nat, lower: nat, higher: nat)
    requires Traced(env, gates, request, a, tr, lo, hi) && lower <= lo && hi <= higher
    ensures Traced(env, gates, request, a, tr, lower, higher)
  {
    hide IsRun, Within;
    WithinWider(tr.times[0], lo, hi, lower, higher);
    WithinWider(tr.times[1], lo, hi, lower, higher);
    WithinWider(tr.times[2], lo, hi, lower, higher);
    WithinWider(tr.times[3], lo, hi, lower, higher);
  }

  // ----- the lookups as they are -----

  /** The lookups of the tools; what protection reads is left open. */
  function ToolingGates(protection: Lookup<string>, tooling: string, main: seq<Requirement>, required: seq<Requirement>): Gates {
    Gates(protection, Checks(Push, tooling, main), (source: string) => ReleasedChecks(source, tooling, required))
  }

  lemma ToolingGatesAreBounded(protection: Lookup<string>, tooling: string, main: seq<Requirement>, required: seq<Requirement>, n: nat)
    requires Bounded(protection, n)
    ensures BoundedGates(ToolingGates(protection, tooling, main, required), n + 7 * |main| + 12 * |required| + 10)
  {
    hide Checks, ReleasedChecks;
    ChecksAreBounded(Push, tooling, main);
    forall source
      ensures Bounded(ReleasedChecks(source, tooling, required), 12 * |required| + 10)
    {
      ReleasedIsBounded(source, tooling, required);
    }
  }

  /**
   What an authorization says about checks: those of the tooling were as reported, as a whole, and each row of the
   released source tells only what was so. Which merge it was is not said; see `MergeIsNotFixed`.
   */
  lemma AuthorizedMeans(
    env: History<Query, Fact>, t: nat, protection: Lookup<string>, main: seq<Requirement>, required: seq<Requirement>,
    request: Request, id: Identity)
    requires Authorized(env, t, ToolingGates(protection, request.tooling, main, required), request, id)
    ensures RowsStand(At(env, t), Push, request.tooling, main, id.toolingChecks)
    ensures || RowsTell(At(env, t), Push, id.release.source, required, id.historical)
            || RowsTell(At(env, t), PullRequest, id.release.source, required, id.historical)
  {
    hide Shown, Holds, Checks, ReleasedChecks, RowsStand, RowsTell;
    ChecksShow(env, t, Push, request.tooling, main, id.toolingChecks);
    ChecksHoldMeans(env, t, Push, request.tooling, main, id.toolingChecks);
    ReleasedShows(env, t, id.release.source, request.tooling, required, id.historical);
  }
}
