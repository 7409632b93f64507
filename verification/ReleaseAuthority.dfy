/**
 Authorization of a release: protection and main checks are read around the promotion of the merged candidate,
 which itself reads the merge subject and the checks of the pull request around the candidate lookup.
 */
module ReleaseAuthority {
  import opened CheckLookups
  import opened GitHubReads
  import opened Lookups
  import opened ReleasedSource
  import opened Snapshots
  import opened Wrappers

  /** The lookups the authorization is made of, by what they depend on. */
  datatype Gates = Gates(
    protection: string -> Lookup<string>, mainChecks: string -> Lookup<seq<Row>>,
    subject: string -> Lookup<Subject>, pullChecks: Subject -> Lookup<seq<Row>>, candidate: Subject -> Lookup<string>)

  /** Every lookup ends after boundedly many reads. */
  ghost predicate BoundedGates(gates: Gates, bound: nat) {
    && (forall main :: Bounded(gates.protection(main), bound))
    && (forall main :: Bounded(gates.mainChecks(main), bound))
    && (forall main :: Bounded(gates.subject(main), bound))
    && (forall subject :: Bounded(gates.pullChecks(subject), bound))
    && (forall subject :: Bounded(gates.candidate(subject), bound))
  }

  datatype Failure = Refused | Changed | WrongSource

  datatype PromotionReport = PromotionReport(subject: Subject, checks: seq<Row>, candidate: string)

  datatype Authorization = Authorization(main: string, protection: string, mainChecks: seq<Row>, promotion: PromotionReport)

  /** What the merge subject and the pull-request checks fix is so at `t`. */
  ghost predicate Stands(env: History<Query, Fact>, t: nat, gates: Gates, main: string, r: PromotionReport) {
    && Shown(env, gates.subject(main), t, r.subject)
    && Shown(env, gates.pullChecks(r.subject), t, r.checks)
  }

  /** What all the results fix is so at `t`. */
  ghost predicate Authorized(env: History<Query, Fact>, t: nat, gates: Gates, a: Authorization) {
    && Shown(env, gates.protection(a.main), t, a.protection)
    && Shown(env, gates.mainChecks(a.main), t, a.mainChecks)
    && Stands(env, t, gates, a.main, a.promotion)
  }

  /** One lookup read before and after some other work: what its result fixes was so all through that work. */
  lemma Bracketed<R(!new)>(
    env: History<Query, Fact>, p: Lookup<R>, f: seq<Fact>, before: seq<nat>, g: seq<Fact>, after: seq<nat>, result: R,
    lo: nat, first: nat, t: nat, second: nat, hi: nat)
    requires lo <= first <= t <= second <= hi
    requires IsRun(env, p, f, before, result) && Within(before, lo, first)
    requires IsRun(env, p, g, after, result) && Within(after, second, hi)
    ensures Steady(env, lo, hi) ==> Shown(env, p, t, result)
  {
    if Steady(env, lo, hi) {
      AgreementShows(env, p, f, before, g, after, result, lo, t, hi);
    }
  }

  /** The run of the candidate lookup, and where it began and ended. */
  datatype Window = Window(from: nat, to: nat, facts: seq<Fact>, times: seq<nat>)

  /** The window is that of a run of the candidate lookup which gave this candidate. */
  ghost predicate IsWindow(env: History<Query, Fact>, w: Window, gates: Gates, r: PromotionReport) {
    && w.from <= w.to && Within(w.times, w.from, w.to)
    && IsRun(env, gates.candidate(r.subject), w.facts, w.times, r.candidate)
  }

  /** Promotes the merged candidate of the main commit; the window is that of its candidate lookup. */
  method PromoteMain(api: Client, main: string, gates: Gates, ghost bound: nat)
    returns (r: Result<PromotionReport, Failure>, ghost w: Window)
    requires BoundedGates(gates, bound)
    modifies api
    ensures old(api.clock) <= api.clock
    ensures r.Ok? ==> IsWindow(api.env, w, gates, r.value) && old(api.clock) <= w.from && w.to <= api.clock
    ensures r.Ok? && Steady(api.env, old(api.clock), api.clock) ==>
              forall t :: w.from <= t <= w.to ==> Stands(api.env, t, gates, main, r.value)
  {
    hide IsRun, Within, Shown, Steady;
    ghost var start := api.clock;
    w := Window(0, 0, [], []);
    var subject, f0, times0 := api.Perform(gates.subject(main), bound);
    if subject.None? { return Err(Refused), w; }
    ghost var t1 := api.clock;
    var checks, f1, times1 := api.Perform(gates.pullChecks(subject.value), bound);
    if checks.None? { return Err(Refused), w; }
    ghost var from := api.clock;
    var candidate, f2, times2 := api.Perform(gates.candidate(subject.value), bound);
    if candidate.None? { return Err(Refused), w; }
    ghost var to := api.clock;
    w := Window(from, to, f2, times2);
    var again, g0, after0 := api.Perform(gates.subject(main), bound);
    if again.None? { return Err(Refused), w; }
    if again != subject { return Err(Changed), w; }
    ghost var t4 := api.clock;
    var checksAgain, g1, after1 := api.Perform(gates.pullChecks(subject.value), bound);
    if checksAgain.None? { return Err(Refused), w; }
    if checksAgain != checks { return Err(Changed), w; }
    r := Ok(PromotionReport(subject.value, checks.value, candidate.value));
    ghost var env, end := api.env, api.clock;
    forall t | from <= t <= to
      ensures Steady(env, start, end) ==> Stands(env, t, gates, main, r.value)
    {
      SteadyWithin(env, start, start, t4, end);
      SteadyWithin(env, start, t1, end, end);
      Bracketed(env, gates.subject(main), f0, times0, g0, after0, subject.value, start, t1, t, to, t4);
      Bracketed(env, gates.pullChecks(subject.value), f1, times1, g1, after1, checks.value, t1, from, t, t4, end);
    }
  }

  /**
   Authorizes publishing `source`. On success the main commit was read from the branch first; at every instant of
   the candidate lookup all that the protection and the checks of main, the merge subject and the checks of the pull
   request fix was so together; and the source is the very head that was merged.
   */
  method AuthorizeRelease(api: Client, source: string, gates: Gates, ghost bound: nat)
    returns (r: Result<Authorization, Failure>, ghost w: Window)
    requires BoundedGates(gates, bound)
    modifies api
    ensures old(api.clock) <= api.clock
    ensures r.Ok? ==> IsWindow(api.env, w, gates, r.value.promotion) && old(api.clock) <= w.from && w.to <= api.clock
    ensures r.Ok? ==> exists t :: old(api.clock) <= t <= w.from && api.env(t, MainBranch) == Some(Commit(r.value.main))
    ensures r.Ok? ==> r.value.promotion.subject.candidate == source
    ensures r.Ok? && Steady(api.env, old(api.clock), api.clock) ==>
              forall t :: w.from <= t <= w.to ==> Authorized(api.env, t, gates, r.value)
  {
    hide IsRun, Within, Shown, Steady, Stands, IsWindow;
    ghost var start := api.clock;
    w := Window(0, 0, [], []);
    var branch := api.Get(MainBranch);
    if !(branch.Some? && branch.value.Commit?) { return Err(Refused), w; }
    var main := branch.value.sha;
    ghost var t0 := api.clock;
    var protection, f0, times0 := api.Perform(gates.protection(main), bound);
    if protection.None? { return Err(Refused), w; }
    ghost var t1 := api.clock;
    var checks, f1, times1 := api.Perform(gates.mainChecks(main), bound);
    if checks.None? { return Err(Refused), w; }
    ghost var t2 := api.clock;
    var promotion, inner := PromoteMain(api, main, gates, bound);
    w := inner;
    if promotion.Err? { return Err(promotion.error), w; }
    if source != promotion.value.subject.candidate { return Err(WrongSource), w; }
    ghost var t3 := api.clock;
    var again, g0, after0 := api.Perform(gates.protection(main), bound);
    if again.None? { return Err(Refused), w; }
    if again != protection { return Err(Changed), w; }
    ghost var t4 := api.clock;
    var checksAgain, g1, after1 := api.Perform(gates.mainChecks(main), bound);
    if checksAgain.None? { return Err(Refused), w; }
    if checksAgain != checks { return Err(Changed), w; }
    r := Ok(Authorization(main, protection.value, checks.value, promotion.value));
    ghost var env, end := api.env, api.clock;
    SteadyWithin(env, start, t2, t3, end);
    SteadyWithin(env, start, t0, t4, end);
    SteadyWithin(env, start, t1, end, end);
    forall t | w.from <= t <= w.to
      ensures Steady(env, start, end) ==> Authorized(env, t, gates, r.value)
    {
      Bracketed(env, gates.protection(main), f0, times0, g0, after0, protection.value, t0, t1, t, t3, t4);
      Bracketed(env, gates.mainChecks(main), f1, times1, g1, after1, checks.value, t1, t2, t, t4, end);
    }
  }

  // ----- the lookups as they are -----

  /** The merge subject of the current main commit. */
  function CurrentSubject(main: string): Lookup<Subject> {
    Reading([MainBranch], AfterBranch(main))
  }

  function AfterBranch(main: string): seq<Fact> -> Lookup<Subject> {
    (f: seq<Fact>) => if f == [Commit(main)] then MergedSubject(main, (s: Subject) => Return(s)) else Refuse()
  }

  /** The lookups of the tools; what protection and the candidate's evidence read is left open. */
  function ToolingGates(
    protection: string -> Lookup<string>, candidate: Subject -> Lookup<string>, main: seq<Requirement>, required: seq<Requirement>): Gates
  {
    Gates(protection, (sha: string) => Checks(Push, sha, main), (sha: string) => CurrentSubject(sha),
          (s: Subject) => Checks(PullRequest, s.candidate, required), candidate)
  }

  lemma ToolingGatesAreBounded(
    protection: string -> Lookup<string>, candidate: Subject -> Lookup<string>, main: seq<Requirement>, required: seq<Requirement>, n: nat)
    requires (forall sha :: Bounded(protection(sha), n)) && forall s :: Bounded(candidate(s), n)
    ensures BoundedGates(ToolingGates(protection, candidate, main, required), n + 7 * |main| + 7 * |required| + 9)
  {
    hide Checks, MergedSubject;
    forall sha
      ensures Bounded(Checks(Push, sha, main), 7 * |main|) && Bounded(CurrentSubject(sha), 9)
    {
      ChecksAreBounded(Push, sha, main);
      SubjectIsBounded(sha, (s: Subject) => Return(s), 0);
      ReadingIsBounded([MainBranch], AfterBranch(sha), 8);
    }
    forall s: Subject
      ensures Bounded(Checks(PullRequest, s.candidate, required), 7 * |required|)
    {
      ChecksAreBounded(PullRequest, s.candidate, required);
    }
  }

  /** All that a subject tells about what was read. */
  function SubjectTold(main: string, s: Subject): set<(Query, Fact)> {
    { (MainBranch, Commit(main)), (MergeParents(main), Parents(s.base, s.candidate)), (Tree(main), Commit(s.tree)),
      (AssociatedPull(main, s.candidate), Number(s.pull)), (PullBase(s.pull, s.candidate), Commit(s.base)),
      (PullReference(s.pull, s.candidate), Content(s.reference)), (PullMerge(s.pull, s.candidate), Commit(main)),
      (MergeBase(s.base, s.candidate), Commit(s.base)), (Tree(s.candidate), Commit(s.tree)) }
  }

  lemma CurrentSubjectIsRead(main: string, f: seq<Fact>, s: Subject)
    requires Yields(CurrentSubject(main), f, s)
    ensures SubjectStands(ReadBy(CurrentSubject(main), f), main, s)
    ensures forall claim :: claim in SubjectTold(main, s) ==> ReadBy(CurrentSubject(main), f)(claim.0, claim.1)
  {
    hide Reads, Yields, GoesOn, Reading, MergedSubject, Refuse;
    var p := CurrentSubject(main);
    StartsAsItself(p, f);
    ReadingFurther(p, f, 0, [MainBranch], AfterBranch(main), s);
    assert f[0..1] == [Commit(main)] && f[0 + 0] == Commit(main);
    assert Reads(p, f, [MainBranch][0], f[0 + 0]);
    var next := (s: Subject) => Return(s);
    var read := SubjectIsRead(p, f, 1, main, next, s);
    GoesOnReads(p, f, next(read), 9);
    ReturnYields<Query, Fact, Subject>(read, f[9..], s);
  }

  /** The subject hides nothing: read before and after an instant, it stands in that instant. */
  lemma CurrentSubjectShows(env: History<Query, Fact>, t: nat, main: string, s: Subject)
    requires Shown(env, CurrentSubject(main), t, s)
    ensures SubjectStands(At(env, t), main, s) && env(t, MainBranch) == Some(Commit(main))
  {
    hide Shown, Yields, Reads, CurrentSubject;
    var p := CurrentSubject(main);
    ShownWasYielded(env, p, t, s, MainBranch, Confirmed, Number(0));
    var f :| Yields(p, f, s);
    CurrentSubjectIsRead(main, f, s);
    forall claim | claim in SubjectTold(main, s)
      ensures env(t, claim.0) == Some(claim.1)
    {
      forall g | Yields(p, g, s)
        ensures Reads(p, g, claim.0, claim.1)
      {
        CurrentSubjectIsRead(main, g, s);
      }
      RevealedIsFixed(p, s, claim.0, claim.1);
      ShownIsSo(env, p, t, s, claim.0, claim.1);
    }
    ToldSubjectStands(At(env, t), main, s);
  }

  lemma ToldSubjectStands(answers: Answers, main: string, s: Subject)
    requires s.main == s.merge == main && forall claim :: claim in SubjectTold(main, s) ==> answers(claim.0, claim.1)
    ensures SubjectStands(answers, main, s) && answers(MainBranch, Commit(main))
  {
    assert (MainBranch, Commit(main)) in SubjectTold(main, s) && (MergeParents(main), Parents(s.base, s.candidate)) in SubjectTold(main, s);
    assert (Tree(main), Commit(s.tree)) in SubjectTold(main, s) && (Tree(s.candidate), Commit(s.tree)) in SubjectTold(main, s);
    assert (AssociatedPull(main, s.candidate), Number(s.pull)) in SubjectTold(main, s);
    assert (PullBase(s.pull, s.candidate), Commit(s.base)) in SubjectTold(main, s);
    assert (PullReference(s.pull, s.candidate), Content(s.reference)) in SubjectTold(main, s);
    assert (PullMerge(s.pull, s.candidate), Commit(main)) in SubjectTold(main, s);
    assert (MergeBase(s.base, s.candidate), Commit(s.base)) in SubjectTold(main, s);
  }

  lemma ShownIsSo<R>(env: History<Query, Fact>, p: Lookup<R>, t: nat, result: R, q: Query, fact: Fact)
    requires Shown(env, p, t, result) && Fixed(p, result, q, fact)
    ensures env(t, q) == Some(fact)
  {
  }

  /**
   What an authorization says of an instant: main was the commit that merged the candidate, with the candidate's
   tree and on its base, the checks of main were as reported as a whole, and the rows of the pull request tell only
   what was so.
   */
  lemma AuthorizedMeans(
    env: History<Query, Fact>, t: nat, protection: string -> Lookup<string>, candidate: Subject -> Lookup<string>,
    main: seq<Requirement>, required: seq<Requirement>, a: Authorization)
    requires Authorized(env, t, ToolingGates(protection, candidate, main, required), a)
    ensures env(t, MainBranch) == Some(Commit(a.main)) && SubjectStands(At(env, t), a.main, a.promotion.subject)
    ensures RowsStand(At(env, t), Push, a.main, main, a.mainChecks)
    ensures RowsTell(At(env, t), PullRequest, a.promotion.subject.candidate, required, a.promotion.checks)
  {
    hide Shown, Holds, Checks, CurrentSubject, RowsStand, RowsTell, SubjectStands;
    CurrentSubjectShows(env, t, a.main, a.promotion.subject);
    ChecksShow(env, t, Push, a.main, main, a.mainChecks);
    ChecksHoldMeans(env, t, Push, a.main, main, a.mainChecks);
    ChecksShow(env, t, PullRequest, a.promotion.subject.candidate, required, a.promotion.checks);
  }
}
