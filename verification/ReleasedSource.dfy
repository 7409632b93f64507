/**
 The checks of a released source: the event of the selected checks decides whether they are those of main, or
 those of the pull request whose merge is an ancestor of the tooling. Only the rows of a second selection are
 returned, so reading everything twice leaves the pull request and its merge open.
 */
module ReleasedSource {
  import opened CheckLookups
  import opened GitHubReads
  import opened Lookups
  import opened Snapshots
  import opened Wrappers

  // ----- the subject of a merge -----

  datatype Subject = Subject(
    pull: int, candidate: string, base: string, reference: string, merge: string, main: string, tree: string)

  function MergedSubject<R>(main: string, next: Subject -> Lookup<R>): Lookup<R> {
    Reading([MergeParents(main), Tree(main)], AfterMerge(main, next))
  }

  function AfterMerge<R>(main: string, next: Subject -> Lookup<R>): seq<Fact> -> Lookup<R> {
    (f: seq<Fact>) =>
      if |f| == 2 && f[0].Parents? && f[1].Commit? then
        var subject := Subject(0, f[0].source, f[0].base, "", "", main, f[1].sha);
        Reading([AssociatedPull(main, subject.candidate)], AfterPull(subject, next))
      else Refuse()
  }

  function AfterPull<R>(subject: Subject, next: Subject -> Lookup<R>): seq<Fact> -> Lookup<R> {
    (f: seq<Fact>) =>
      if |f| == 1 && f[0].Number? then
        var pull, source := f[0].n, subject.candidate;
        Reading([PullBase(pull, source), PullReference(pull, source), PullMerge(pull, source)],
                AfterDetails(subject.(pull := pull), next))
      else Refuse()
  }

  function AfterDetails<R>(subject: Subject, next: Subject -> Lookup<R>): seq<Fact> -> Lookup<R> {
    (f: seq<Fact>) =>
      if |f| == 3 && f[0].Commit? && f[1].Content? && f[2].Commit? then
        Reading([MergeBase(f[0].sha, subject.candidate)],
                AfterMergeBase(subject.(reference := f[1].text, merge := f[2].sha), f[0].sha, next))
      else Refuse()
  }

  function AfterMergeBase<R>(subject: Subject, base: string, next: Subject -> Lookup<R>): seq<Fact> -> Lookup<R> {
    (f: seq<Fact>) =>
      if f == [Commit(base)] then Reading([Tree(subject.candidate)], AfterTree(subject, base, next)) else Refuse()
  }

  /** The merge changed neither the tree nor the base of the candidate. */
  function AfterTree<R>(subject: Subject, base: string, next: Subject -> Lookup<R>): seq<Fact> -> Lookup<R> {
    (f: seq<Fact>) =>
      if f == [Commit(subject.tree)] && subject.merge == subject.main && base == subject.base then next(subject) else Refuse()
  }

  ghost predicate SubjectStands(answers: Answers, main: string, s: Subject) {
    && s.main == s.merge == main
    && answers(MergeParents(main), Parents(s.base, s.candidate)) && answers(Tree(main), Commit(s.tree))
    && answers(AssociatedPull(main, s.candidate), Number(s.pull))
    && answers(PullBase(s.pull, s.candidate), Commit(s.base)) && answers(PullReference(s.pull, s.candidate), Content(s.reference))
    && answers(PullMerge(s.pull, s.candidate), Commit(main))
    && answers(MergeBase(s.base, s.candidate), Commit(s.base)) && answers(Tree(s.candidate), Commit(s.tree))
  }

  /** The first half of the reads: the merge and its pull request. */
  lemma PullIsRead<R>(p: Lookup<R>, f: seq<Fact>, k: nat, main: string, next: Subject -> Lookup<R>, result: R) returns (s: Subject)
    requires Yields(p, f, result) && GoesOn(p, f, MergedSubject(main, next), k)
    ensures k + 3 <= |f| && s.main == main && s == Subject(s.pull, s.candidate, s.base, "", "", main, s.tree)
    ensures ReadBy(p, f)(MergeParents(main), Parents(s.base, s.candidate)) && ReadBy(p, f)(Tree(main), Commit(s.tree))
    ensures ReadBy(p, f)(AssociatedPull(main, s.candidate), Number(s.pull))
    ensures GoesOn(p, f, Reading([PullBase(s.pull, s.candidate), PullReference(s.pull, s.candidate), PullMerge(s.pull, s.candidate)],
                                 AfterDetails(s, next)), k + 3)
  {
    hide Reads, Yields, GoesOn, Reading, Refuse;
    var first := [MergeParents(main), Tree(main)];
    ReadingFurther(p, f, k, first, AfterMerge(main, next), result);
    var a := f[k..k + 2];
    assert a[0] == f[k + 0] && a[1] == f[k + 1];
    assert Reads(p, f, first[0], f[k + 0]) && Reads(p, f, first[1], f[k + 1]);
    s := Subject(0, a[0].source, a[0].base, "", "", main, a[1].sha);
    var second := [AssociatedPull(main, s.candidate)];
    ReadingFurther(p, f, k + 2, second, AfterPull(s, next), result);
    var b := f[k + 2..k + 3];
    assert b[0] == f[k + 2 + 0] && Reads(p, f, second[0], f[k + 2 + 0]);
    s := s.(pull := b[0].n);
  }

  /** The second half: the pull request as it was merged, against its base and its tree. */
  lemma DetailsAreRead<R>(p: Lookup<R>, f: seq<Fact>, k: nat, s: Subject, next: Subject -> Lookup<R>, result: R)
    returns (reference: string)
    requires Yields(p, f, result)
    requires GoesOn(p, f, Reading([PullBase(s.pull, s.candidate), PullReference(s.pull, s.candidate), PullMerge(s.pull, s.candidate)],
                                  AfterDetails(s, next)), k)
    ensures k + 5 <= |f| && GoesOn(p, f, next(s.(reference := reference, merge := s.main)), k + 5)
    ensures ReadBy(p, f)(PullBase(s.pull, s.candidate), Commit(s.base))
    ensures ReadBy(p, f)(PullReference(s.pull, s.candidate), Content(reference))
    ensures ReadBy(p, f)(PullMerge(s.pull, s.candidate), Commit(s.main))
    ensures ReadBy(p, f)(MergeBase(s.base, s.candidate), Commit(s.base)) && ReadBy(p, f)(Tree(s.candidate), Commit(s.tree))
  {
    hide Reads, Yields, GoesOn, Reading, Refuse;
    var third := [PullBase(s.pull, s.candidate), PullReference(s.pull, s.candidate), PullMerge(s.pull, s.candidate)];
    ReadingFurther(p, f, k, third, AfterDetails(s, next), result);
    var c := f[k..k + 3];
    assert c[0] == f[k + 0] && c[1] == f[k + 1] && c[2] == f[k + 2];
    assert Reads(p, f, third[0], f[k + 0]) && Reads(p, f, third[1], f[k + 1]) && Reads(p, f, third[2], f[k + 2]);
    reference := c[1].text;
    var base, known := c[0].sha, s.(reference := reference, merge := c[2].sha);
    var fourth, fifth := [MergeBase(base, s.candidate)], [Tree(s.candidate)];
    ReadingFurther(p, f, k + 3, fourth, AfterMergeBase(known, base, next), result);
    assert f[k + 3..k + 4][0] == f[k + 3 + 0] && Reads(p, f, fourth[0], f[k + 3 + 0]);
    ReadingFurther(p, f, k + 4, fifth, AfterTree(known, base, next), result);
    assert f[k + 4..k + 5][0] == f[k + 4 + 0] && Reads(p, f, fifth[0], f[k + 4 + 0]);
  }

  /** A lookup that comes to a merged subject has read it after eight more answers. */
  lemma SubjectIsRead<R>(p: Lookup<R>, f: seq<Fact>, k: nat, main: string, next: Subject -> Lookup<R>, result: R) returns (s: Subject)
    requires Yields(p, f, result) && GoesOn(p, f, MergedSubject(main, next), k)
    ensures SubjectStands(ReadBy(p, f), main, s)
    ensures k + 8 <= |f| && GoesOn(p, f, next(s), k + 8)
  {
    hide Reads, Yields, GoesOn, Reading;
    s := PullIsRead(p, f, k, main, next, result);
    var reference := DetailsAreRead(p, f, k + 3, s, next, result);
    s := s.(reference := reference, merge := main);
  }

  lemma SubjectHolds<R>(env: History<Query, Fact>, t: nat, main: string, s: Subject, next: Subject -> Lookup<R>, result: R)
    requires SubjectStands(At(env, t), main, s)
    ensures Holds(env, MergedSubject(main, next), t, result) <==> Holds(env, next(s), t, result)
  {
    hide Holds;
    var s0 := Subject(0, s.candidate, s.base, "", "", main, s.tree);
    ReadingHolds(env, [MergeParents(main), Tree(main)], AfterMerge(main, next), t,
                 [Parents(s.base, s.candidate), Commit(s.tree)], result);
    ReadingHolds(env, [AssociatedPull(main, s.candidate)], AfterPull(s0, next), t, [Number(s.pull)], result);
    var s1 := s0.(pull := s.pull);
    ReadingHolds(env, [PullBase(s.pull, s.candidate), PullReference(s.pull, s.candidate), PullMerge(s.pull, s.candidate)],
                 AfterDetails(s1, next), t, [Commit(s.base), Content(s.reference), Commit(main)], result);
    var s2 := s1.(reference := s.reference, merge := main);
    ReadingHolds(env, [MergeBase(s.base, s.candidate)], AfterMergeBase(s2, s.base, next), t, [Commit(s.base)], result);
    ReadingHolds(env, [Tree(s.candidate)], AfterTree(s2, s.base, next), t, [Commit(s.tree)], result);
  }

  // ----- the released source -----

  function EventQueries(checks: seq<Check>): (queries: seq<Query>)
    ensures |queries| == |checks| && forall k :: 0 <= k < |checks| ==> queries[k] == RunEvent(checks[k].run)
  {
    seq(|checks|, k requires 0 <= k < |checks| => RunEvent(checks[k].run))
  }

  predicate AllAre(events: seq<Fact>, event: string) {
    events != [] && forall k :: 0 <= k < |events| ==> events[k] == Content(event)
  }

  function ReleasedChecks(source: string, tooling: string, required: seq<Requirement>): Lookup<seq<Row>> {
    Reading(AllAspects(source, required), AfterSelection(source, tooling, required))
  }

  function AfterSelection(source: string, tooling: string, required: seq<Requirement>): seq<Fact> -> Lookup<seq<Row>> {
    (f: seq<Fact>) =>
      if AreChecks(f, |required|) then
        Reading(EventQueries(ChecksOf(f, |required|)), AfterEvents(source, tooling, required))
      else Refuse()
  }

  function AfterEvents(source: string, tooling: string, required: seq<Requirement>): seq<Fact> -> Lookup<seq<Row>> {
    (events: seq<Fact>) =>
      if AllAre(events, "push") then Checks(Push, source, required)
      else if AllAre(events, "pull_request") then Reading([MergedPull(source)], AfterInventory(source, tooling, required))
      else Refuse()
  }

  function AfterInventory(source: string, tooling: string, required: seq<Requirement>): seq<Fact> -> Lookup<seq<Row>> {
    (f: seq<Fact>) =>
      if |f| == 1 && f[0].Commit? then MergedSubject(f[0].sha, AfterSubject(source, tooling, required)) else Refuse()
  }

  function AfterSubject(source: string, tooling: string, required: seq<Requirement>): Subject -> Lookup<seq<Row>> {
    (s: Subject) => Reading([MergeBase(s.main, tooling)], AfterComparison(source, s, required))
  }

  function AfterComparison(source: string, s: Subject, required: seq<Requirement>): seq<Fact> -> Lookup<seq<Row>> {
    (f: seq<Fact>) =>
      if s.candidate == source && f == [Commit(s.main)] then Checks(PullRequest, s.candidate, required) else Refuse()
  }

  lemma DetailsAreBounded<R>(s: Subject, next: Subject -> Lookup<R>, n: nat)
    requires forall any :: Bounded(next(any), n)
    ensures forall f :: Bounded(AfterDetails(s, next)(f), n + 2)
  {
    forall f: seq<Fact>
      ensures Bounded(AfterDetails(s, next)(f), n + 2)
    {
      if |f| == 3 && f[0].Commit? && f[1].Content? && f[2].Commit? {
        var known, base := s.(reference := f[1].text, merge := f[2].sha), f[0].sha;
        ReadingIsBounded([Tree(s.candidate)], AfterTree(known, base, next), n);
        ReadingIsBounded([MergeBase(base, s.candidate)], AfterMergeBase(known, base, next), n + 1);
      }
    }
  }

  lemma PullIsBounded<R>(s: Subject, next: Subject -> Lookup<R>, n: nat)
    requires forall any :: Bounded(next(any), n)
    ensures forall f :: Bounded(AfterPull(s, next)(f), n + 5)
  {
    forall f: seq<Fact>
      ensures Bounded(AfterPull(s, next)(f), n + 5)
    {
      if |f| == 1 && f[0].Number? {
        var pull, source := f[0].n, s.candidate;
        DetailsAreBounded(s.(pull := pull), next, n);
        ReadingIsBounded([PullBase(pull, source), PullReference(pull, source), PullMerge(pull, source)],
                         AfterDetails(s.(pull := pull), next), n + 2);
      }
    }
  }

  lemma SubjectIsBounded<R>(main: string, next: Subject -> Lookup<R>, n: nat)
    requires forall any :: Bounded(next(any), n)
    ensures Bounded(MergedSubject(main, next), n + 8)
  {
    forall f: seq<Fact>
      ensures Bounded(AfterMerge(main, next)(f), n + 6)
    {
      if |f| == 2 && f[0].Parents? && f[1].Commit? {
        var s := Subject(0, f[0].source, f[0].base, "", "", main, f[1].sha);
        PullIsBounded(s, next, n);
        ReadingIsBounded([AssociatedPull(main, s.candidate)], AfterPull(s, next), n + 5);
      }
    }
    ReadingIsBounded([MergeParents(main), Tree(main)], AfterMerge(main, next), n + 6);
  }

  lemma InventoryIsBounded(source: string, tooling: string, required: seq<Requirement>)
    ensures forall f :: Bounded(AfterInventory(source, tooling, required)(f), 7 * |required| + 9)
  {
    hide Checks, Reading, MergedSubject;
    var next := AfterSubject(source, tooling, required);
    ChecksAreBounded(PullRequest, source, required);
    forall s: Subject
      ensures Bounded(next(s), 7 * |required| + 1)
    {
      ReadingIsBounded([MergeBase(s.main, tooling)], AfterComparison(source, s, required), 7 * |required|);
    }
    forall f: seq<Fact>
      ensures Bounded(AfterInventory(source, tooling, required)(f), 7 * |required| + 9)
    {
      if |f| == 1 && f[0].Commit? {
        SubjectIsBounded(f[0].sha, next, 7 * |required| + 1);
      }
    }
  }

  lemma ReleasedIsBounded(source: string, tooling: string, required: seq<Requirement>)
    ensures Bounded(ReleasedChecks(source, tooling, required), 12 * |required| + 10)
  {
    hide Checks, Reading, AfterInventory, IsCheck, AllAre, AllAspects;
    var n := |required|;
    var events := AfterEvents(source, tooling, required);
    ChecksAreBounded(Push, source, required);
    InventoryIsBounded(source, tooling, required);
    ReadingIsBounded([MergedPull(source)], AfterInventory(source, tooling, required), 7 * n + 9);
    forall f: seq<Fact>
      ensures Bounded(AfterSelection(source, tooling, required)(f), 8 * n + 10)
    {
      if AreChecks(f, n) {
        ReadingIsBounded(EventQueries(ChecksOf(f, n)), events, 7 * n + 10);
      }
    }
    ReadingIsBounded(AllAspects(source, required), AfterSelection(source, tooling, required), 8 * n + 10);
  }

  // ----- what it means -----

  ghost predicate IsSelected(answers: Answers, source: string, required: seq<Requirement>, checks: seq<Check>, event: string) {
    && |checks| == |required| > 0
    && (forall k :: 0 <= k < |checks| ==> CheckStands(answers, source, required[k].name, checks[k]))
    && forall k :: 0 <= k < |checks| ==> answers(RunEvent(checks[k].run), Content(event))
  }

  ghost predicate Selected(answers: Answers, source: string, required: seq<Requirement>, event: string) {
    exists checks :: IsSelected(answers, source, required, checks, event)
  }

  /** The candidate's pull request was merged as `s`, and that merge is an ancestor of the tooling. */
  ghost predicate IsMerged(answers: Answers, source: string, tooling: string, s: Subject) {
    && answers(MergedPull(source), Commit(s.main)) && SubjectStands(answers, s.main, s) && s.candidate == source
    && answers(MergeBase(s.main, tooling), Commit(s.main))
  }

  ghost predicate Merged(answers: Answers, source: string, tooling: string) {
    exists s :: IsMerged(answers, source, tooling, s)
  }

  ghost predicate ReleasedStands(answers: Answers, source: string, tooling: string, required: seq<Requirement>, rows: seq<Row>) {
    || (Selected(answers, source, required, "push") && RowsStand(answers, Push, source, required, rows))
    || (Selected(answers, source, required, "pull_request") && Merged(answers, source, tooling)
        && RowsStand(answers, PullRequest, source, required, rows))
  }

  lemma SelectionIsRead(
    p: Lookup<seq<Row>>, source: string, tooling: string, required: seq<Requirement>, f: seq<Fact>, rows: seq<Row>)
    returns (checks: seq<Check>, events: seq<Fact>)
    requires p == ReleasedChecks(source, tooling, required) && Yields(p, f, rows)
    ensures |checks| == |events| == |required| && 5 * |required| <= |f|
    ensures forall k :: 0 <= k < |checks| ==> CheckStands(ReadBy(p, f), source, required[k].name, checks[k])
    ensures forall k :: 0 <= k < |checks| ==> ReadBy(p, f)(RunEvent(checks[k].run), events[k])
    ensures GoesOn(p, f, AfterEvents(source, tooling, required)(events), 5 * |required|)
    ensures AllAre(events, "push") || AllAre(events, "pull_request")
  {
    hide Reads, Yields, GoesOn, AllAre, IsCheck, Reading, Refuse, Checks, MergedSubject;
    var n := |required|;
    StartsAsItself(p, f);
    ReadingFurther(p, f, 0, AllAspects(source, required), AfterSelection(source, tooling, required), rows);
    var answers := f[..4 * n];
    assert f[0..0 + 4 * n] == answers;
    checks := ChecksOf(answers, n);
    assert forall j :: 0 <= j < |answers| ==> f[0 + j] == answers[j];
    assert forall j :: 0 <= j < |answers| ==> ReadBy(p, f)(AllAspects(source, required)[j], answers[j]);
    forall k | 0 <= k < n
      ensures CheckStands(ReadBy(p, f), source, required[k].name, checks[k])
    {
      CheckIsRead(source, required, answers, k, ReadBy(p, f));
    }
    ReadingFurther(p, f, 4 * n, EventQueries(checks), AfterEvents(source, tooling, required), rows);
    events := f[4 * n..4 * n + n];
    assert forall k :: 0 <= k < n ==> events[k] == f[4 * n + k];
  }

  /** The rows of a released source are rows of a whole lookup of checks at the end of it. */
  lemma ReleasedIsRead(source: string, tooling: string, required: seq<Requirement>, f: seq<Fact>, rows: seq<Row>)
    returns (event: Event, k: nat)
    requires Yields(ReleasedChecks(source, tooling, required), f, rows)
    ensures required != [] && 5 * |required| <= k <= |f|
    ensures GoesOn(ReleasedChecks(source, tooling, required), f, Checks(event, source, required), k)
    ensures RowsStand(ReadBy(ReleasedChecks(source, tooling, required), f), event, source, required, rows)
    ensures ReleasedStands(ReadBy(ReleasedChecks(source, tooling, required), f), source, tooling, required, rows)
  {
    hide Reads, Yields, GoesOn, CheckStands, SubjectStands, RowsStand, Reading, Refuse, Checks, MergedSubject;
    var p := ReleasedChecks(source, tooling, required);
    var checks, events := SelectionIsRead(p, source, tooling, required, f, rows);
    k := 5 * |required|;
    if AllAre(events, "push") {
      event := Push;
      EndsWithChecks(p, Push, source, required, f, rows, k);
      assert IsSelected(ReadBy(p, f), source, required, checks, "push");
    } else {
      event := PullRequest;
      var s := MergeIsRead(p, source, tooling, required, f, rows, k);
      k := k + 10;
      EndsWithChecks(p, PullRequest, source, required, f, rows, k);
      assert IsSelected(ReadBy(p, f), source, required, checks, "pull_request");
    }
  }

  lemma MergeIsRead(
    p: Lookup<seq<Row>>, source: string, tooling: string, required: seq<Requirement>, f: seq<Fact>, rows: seq<Row>, k: nat)
    returns (s: Subject)
    requires Yields(p, f, rows) && GoesOn(p, f, Reading([MergedPull(source)], AfterInventory(source, tooling, required)), k)
    ensures k + 10 <= |f| && GoesOn(p, f, Checks(PullRequest, source, required), k + 10)
    ensures IsMerged(ReadBy(p, f), source, tooling, s)
  {
    hide Reads, Yields, GoesOn, SubjectStands, Reading, Refuse, Checks, MergedSubject;
    ReadingFurther(p, f, k, [MergedPull(source)], AfterInventory(source, tooling, required), rows);
    var main := f[k..k + 1][0].sha;
    assert f[k..k + 1][0] == f[k + 0] && Reads(p, f, [MergedPull(source)][0], f[k + 0]);
    s := SubjectIsRead(p, f, k + 1, main, AfterSubject(source, tooling, required), rows);
    MainOfSubject(ReadBy(p, f), main, s);
    ReadingFurther(p, f, k + 9, [MergeBase(main, tooling)], AfterComparison(source, s, required), rows);
    assert f[k + 9..k + 10][0] == f[k + 9 + 0] && Reads(p, f, [MergeBase(main, tooling)][0], f[k + 9 + 0]);
  }

  lemma MainOfSubject(answers: Answers, main: string, s: Subject)
    requires SubjectStands(answers, main, s)
    ensures s.main == main
  {
  }

  lemma EndsWithChecks(
    p: Lookup<seq<Row>>, event: Event, source: string, required: seq<Requirement>, f: seq<Fact>, rows: seq<Row>, k: nat)
    requires Yields(p, f, rows) && GoesOn(p, f, Checks(event, source, required), k)
    ensures k <= |f| && RowsStand(ReadBy(p, f), event, source, required, rows)
  {
    hide Reads, Yields, RowsStand;
    var last := Checks(event, source, required);
    GoesOnReads(p, f, last, k);
    ChecksRead(event, source, required, f[k..], rows);
    RowsStandStill(ReadBy(last, f[k..]), ReadBy(p, f), event, source, required, rows);
  }

  /** In one instant the lookup yields exactly the rows of the route that its event selects, with the merge standing. */
  lemma ReleasedHoldsMeans(
    env: History<Query, Fact>, t: nat, source: string, tooling: string, required: seq<Requirement>, rows: seq<Row>)
    ensures Holds(env, ReleasedChecks(source, tooling, required), t, rows) <==>
            ReleasedStands(At(env, t), source, tooling, required, rows)
  {
    hide Holds, Reads, Yields, Checks, Reading, ReleasedStands;
    var p := ReleasedChecks(source, tooling, required);
    if Holds(env, p, t, rows) {
      var f := HeldIsRead(env, p, t, rows);
      var event, k := ReleasedIsRead(source, tooling, required, f, rows);
      ReleasedStandsStill(ReadBy(p, f), At(env, t), source, tooling, required, rows);
    }
    if ReleasedStands(At(env, t), source, tooling, required, rows) {
      StandingReleaseHolds(env, t, source, tooling, required, rows);
    }
  }

  lemma ReleasedStandsStill(
    some: Answers, more: Answers, source: string, tooling: string, required: seq<Requirement>, rows: seq<Row>)
    requires ReleasedStands(some, source, tooling, required, rows) && forall q, fact :: some(q, fact) ==> more(q, fact)
    ensures ReleasedStands(more, source, tooling, required, rows)
  {
    hide RowsStand, Selected, Merged;
    var event := if Selected(some, source, required, "push") && RowsStand(some, Push, source, required, rows) then Push else PullRequest;
    RowsStandStill(some, more, event, source, required, rows);
    SelectedStill(some, more, source, required, if event.Push? then "push" else "pull_request");
    MergedStill(some, more, source, tooling);
  }

  lemma SelectedStill(some: Answers, more: Answers, source: string, required: seq<Requirement>, event: string)
    requires Selected(some, source, required, event) && forall q, fact :: some(q, fact) ==> more(q, fact)
    ensures Selected(more, source, required, event)
  {
    var checks: seq<Check> :| IsSelected(some, source, required, checks, event);
    assert IsSelected(more, source, required, checks, event);
  }

  lemma MergedStill(some: Answers, more: Answers, source: string, tooling: string)
    requires forall q, fact :: some(q, fact) ==> more(q, fact)
    ensures Merged(some, source, tooling) ==> Merged(more, source, tooling)
  {
    if Merged(some, source, tooling) {
      var s: Subject :| IsMerged(some, source, tooling, s);
      assert IsMerged(more, source, tooling, s);
    }
  }

  /** Up to the events, the lookup goes on in one instant as they say. */
  lemma SelectionHolds(
    env: History<Query, Fact>, t: nat, source: string, tooling: string, required: seq<Requirement>, event: string, rows: seq<Row>)
    returns (events: seq<Fact>)
    requires Selected(At(env, t), source, required, event)
    ensures AllAre(events, event)
    ensures Holds(env, ReleasedChecks(source, tooling, required), t, rows) <==>
            Holds(env, AfterEvents(source, tooling, required)(events), t, rows)
  {
    hide Holds, Reading, AfterEvents, CheckStands;
    var checks: seq<Check> :| IsSelected(At(env, t), source, required, checks, event);
    StandingChecksAnswer(env, t, source, required, checks);
    FactsAreChecks(checks);
    ReadingHolds(env, AllAspects(source, required), AfterSelection(source, tooling, required), t, FactsOf(checks), rows);
    events := seq(|checks|, k => Content(event));
    forall k | 0 <= k < |checks|
      ensures env(t, EventQueries(checks)[k]) == Some(events[k])
    {
      assert At(env, t)(RunEvent(checks[k].run), Content(event));
    }
    ReadingHolds(env, EventQueries(checks), AfterEvents(source, tooling, required), t, events, rows);
  }

  lemma StandingReleaseHolds(
    env: History<Query, Fact>, t: nat, source: string, tooling: string, required: seq<Requirement>, rows: seq<Row>)
    requires ReleasedStands(At(env, t), source, tooling, required, rows)
    ensures Holds(env, ReleasedChecks(source, tooling, required), t, rows)
  {
    hide Holds, Checks, Reading, RowsStand, Selected, ReleasedChecks, SubjectStands;
    if Selected(At(env, t), source, required, "push") && RowsStand(At(env, t), Push, source, required, rows) {
      var events := SelectionHolds(env, t, source, tooling, required, "push", rows);
      ChecksHoldMeans(env, t, Push, source, required, rows);
    } else {
      var events := SelectionHolds(env, t, source, tooling, required, "pull_request", rows);
      assert events[0] == Content("pull_request") && !AllAre(events, "push");
      var s: Subject :| IsMerged(At(env, t), source, tooling, s);
      var inventory: seq<Fact> := [Commit(s.main)];
      ReadingHolds(env, [MergedPull(source)], AfterInventory(source, tooling, required), t, inventory, rows);
      SubjectHolds(env, t, s.main, s, AfterSubject(source, tooling, required), rows);
      ReadingHolds(env, [MergeBase(s.main, tooling)], AfterComparison(source, s, required), t, inventory, rows);
      ChecksHoldMeans(env, t, PullRequest, source, required, rows);
    }
  }

  // ----- what reading it twice fixes, and what it does not -----

  /** All that the rows tell was so at the instant between two readings. */
  lemma ReleasedShows(
    env: History<Query, Fact>, t: nat, source: string, tooling: string, required: seq<Requirement>, rows: seq<Row>)
    requires Shown(env, ReleasedChecks(source, tooling, required), t, rows)
    ensures RowsTell(At(env, t), Push, source, required, rows) || RowsTell(At(env, t), PullRequest, source, required, rows)
  {
    hide Shown, Reads, Yields, Checks, Reading, RowsStand, ReleasedStands;
    var p := ReleasedChecks(source, tooling, required);
    ShownWasYielded(env, p, t, rows, MainBranch, Confirmed, Number(0));
    var f :| Yields(p, f, rows);
    var event, k := ReleasedIsRead(source, tooling, required, f, rows);
    StandingRowsTell(ReadBy(p, f), event, source, required, rows);
    forall g | Yields(p, g, rows)
      ensures RowsTell(ReadBy(p, g), event, source, required, rows)
    {
      var other, m := ReleasedIsRead(source, tooling, required, g, rows);
      StandingRowsTell(ReadBy(p, g), other, source, required, rows);
      assert RowTells(ReadBy(p, f), event, source, required[0], rows[0]) && RowTells(ReadBy(p, g), other, source, required[0], rows[0]);
      assert other == event;
    }
    TellingRowsAreFixed(env, p, t, event, source, required, rows);
  }

  /** Every finished run asks for the first check twice. */
  lemma ReleasedAsksTwice(source: string, tooling: string, required: seq<Requirement>, f: seq<Fact>, rows: seq<Row>)
    requires Yields(ReleasedChecks(source, tooling, required), f, rows)
    ensures !AsksOnce(ReleasedChecks(source, tooling, required))
  {
    hide Reads, Reading, RowsStand, ReleasedStands, Checks, ReleasedChecks;
    var p := ReleasedChecks(source, tooling, required);
    var event, k := ReleasedIsRead(source, tooling, required, f, rows);
    LookupStarts(event, source, tooling, required, f);
    assert f[k..][..0] == f[..0];
    assert p(f[..k]) == Checks(event, source, required)(f[k..][..k - k]);
    assert f[..|f|] == f;
  }

  lemma LookupStarts(event: Event, source: string, tooling: string, required: seq<Requirement>, f: seq<Fact>)
    requires required != []
    ensures ReleasedChecks(source, tooling, required)(f[..0]) == Get(AllAspects(source, required)[0])
    ensures Checks(event, source, required)(f[..0]) == Get(AllAspects(source, required)[0])
  {
  }

  /** The same state, but with the pull request merged as `other`. */
  function MergedAs(state: State<Query, Fact>, source: string, tooling: string, s: Subject, other: string): State<Query, Fact> {
    (q: Query) =>
      if q == MergedPull(source) then Some(Commit(other))
      else if q == MergeParents(other) then Some(Parents(s.base, source))
      else if q == Tree(other) then Some(Commit(s.tree))
      else if q == AssociatedPull(other, source) then Some(Number(s.pull))
      else if q == PullMerge(s.pull, source) then Some(Commit(other))
      else if q == MergeBase(other, tooling) then Some(Commit(other))
      else state(q)
  }

  ghost function Of(state: State<Query, Fact>): Answers {
    (q: Query, fact: Fact) => state(q) == Some(fact)
  }

  lemma OtherMergeStands(
    state: State<Query, Fact>, source: string, tooling: string, required: seq<Requirement>, rows: seq<Row>, s: Subject, other: string)
    requires Selected(Of(state), source, required, "pull_request") && RowsStand(Of(state), PullRequest, source, required, rows)
    requires IsMerged(Of(state), source, tooling, s) && other != s.base
    ensures ReleasedStands(Of(MergedAs(state, source, tooling, s, other)), source, tooling, required, rows)
  {
    hide RowsStand, SubjectStands;
    var after := MergedAs(state, source, tooling, s, other);
    RowsStandStill(Of(state), Of(after), PullRequest, source, required, rows);
    var checks: seq<Check> :| IsSelected(Of(state), source, required, checks, "pull_request");
    assert IsSelected(Of(after), source, required, checks, "pull_request");
    OtherSubjectStands(state, source, tooling, s, other);
    assert IsMerged(Of(after), source, tooling, s.(merge := other, main := other));
  }

  lemma OtherSubjectStands(state: State<Query, Fact>, source: string, tooling: string, s: Subject, other: string)
    requires IsMerged(Of(state), source, tooling, s) && other != s.base
    ensures IsMerged(Of(MergedAs(state, source, tooling, s, other)), source, tooling, s.(merge := other, main := other))
  {
  }

  lemma AlwaysStands(state: State<Query, Fact>, source: string, tooling: string, required: seq<Requirement>, rows: seq<Row>)
    requires ReleasedStands(Of(state), source, tooling, required, rows)
    ensures Holds(Always(state), ReleasedChecks(source, tooling, required), 0, rows)
  {
    ReleasedStandsStill(Of(state), At(Always(state), 0), source, tooling, required, rows);
    ReleasedHoldsMeans(Always(state), 0, source, tooling, required, rows);
  }

  /**
   Whatever the state in which the rows of a pull request's released source hold: let its merge be replaced by any
   other commit, and let the inventory name none for an instant. No value changes back, the readings before and
   after agree, and yet in that instant the lookup would have yielded nothing; the merge is not fixed.
   */
  lemma MergeIsNotFixed(
    state: State<Query, Fact>, source: string, tooling: string, required: seq<Requirement>, rows: seq<Row>, s: Subject, other: string)
    requires Selected(Of(state), source, required, "pull_request") && RowsStand(Of(state), PullRequest, source, required, rows)
    requires IsMerged(Of(state), source, tooling, s) && other !in {s.base, s.main}
    ensures var p, after := ReleasedChecks(source, tooling, required), MergedAs(state, source, tooling, s, other);
            && !Settled(p, rows) && (forall fact :: !Fixed(p, rows, MergedPull(source), fact))
            && exists f, g ::
                 && Agree(Switched(state, after, |f|), p, f, Times(0, |f|), g, Times(|f| + 1, |g|), rows, 0, |f|, |f| + |g| + 1)
                 && forall any :: !Holds(Switched(state, after, |f|), p, |f|, any)
  {
    hide Holds, Agree, Fixed, Settled, Yields, RowsStand, Selected, ReleasedChecks, ReleasedStands, IsMerged, MergedAs, Switched;
    var p, after := ReleasedChecks(source, tooling, required), MergedAs(state, source, tooling, s, other);
    StandsAsPull(Of(state), source, tooling, required, rows, s);
    OtherMergeStands(state, source, tooling, required, rows, s, other);
    AlwaysStands(state, source, tooling, required, rows);
    AlwaysStands(after, source, tooling, required, rows);
    OtherMergeDiffers(state, source, tooling, s, other);
    var f, g := SwitchAgrees(state, after, p, rows);
    var env := Switched(state, after, |f|);
    forall any
      ensures !Holds(env, p, |f|, any)
    {
      NothingWithoutMerge(state, after, source, tooling, required, |f|, any);
    }
    forall fact
      ensures !Fixed(p, rows, MergedPull(source), fact)
    {
      SwitchedIsNotFixed(state, after, p, rows, MergedPull(source), fact);
    }
    AgreementIsDecisive(p, rows);
  }

  lemma OtherMergeDiffers(state: State<Query, Fact>, source: string, tooling: string, s: Subject, other: string)
    requires IsMerged(Of(state), source, tooling, s) && other != s.main
    ensures var after := MergedAs(state, source, tooling, s, other);
            && after(MergedPull(source)) != state(MergedPull(source))
            && forall q: Query :: q.RunEvent? || q.CheckRun? ==> after(q) == state(q)
  {
    hide SubjectStands;
  }

  lemma NothingWithoutMerge(
    state: State<Query, Fact>, after: State<Query, Fact>, source: string, tooling: string, required: seq<Requirement>, t: nat,
    any: seq<Row>)
    requires Selected(Of(state), source, required, "pull_request")
    requires forall q: Query :: q.RunEvent? || q.CheckRun? ==> after(q) == state(q)
    requires after(MergedPull(source)) != state(MergedPull(source))
    ensures !Holds(Switched(state, after, t), ReleasedChecks(source, tooling, required), t, any)
  {
    hide Holds, RowsStand, SubjectStands, ReleasedChecks, Selected;
    var env := Switched(state, after, t);
    ReleasedHoldsMeans(env, t, source, tooling, required, any);
    assert env(t, MergedPull(source)) == None;
    OneEvent(Of(state), At(env, t), source, required, "pull_request", "push");
    assert "pull_request" != "push" by {
      assert |"pull_request"| != |"push"|;
    }
  }

  /** Where the runs of the checks and their events agree, one event is selected. */
  lemma OneEvent(some: Answers, more: Answers, source: string, required: seq<Requirement>, a: string, b: string)
    requires forall q: Query, x, y :: (q.CheckRun? || q.RunEvent?) && some(q, x) && more(q, y) ==> x == y
    requires Selected(some, source, required, a)
    ensures Selected(more, source, required, b) ==> a == b
  {
    if Selected(more, source, required, b) {
      var checks: seq<Check> :| IsSelected(some, source, required, checks, a);
      var others: seq<Check> :| IsSelected(more, source, required, others, b);
      assert CheckStands(some, source, required[0].name, checks[0]) && CheckStands(more, source, required[0].name, others[0]);
      assert checks[0].run == others[0].run;
      assert some(RunEvent(checks[0].run), Content(a)) && more(RunEvent(others[0].run), Content(b));
    }
  }

  // ----- one such state -----

  const ONE_CHECK := [Requirement("ci", "ci.yml")]

  const SUBJECT := Subject(1, "head", "base", "feature", "merge", "merge", "tree")

  /** One required check, and one pull request with it. */
  function Example(q: Query): Option<Fact> {
    match q
    case CheckId(_, _) => Some(Number(7))
    case CheckRun(_, _) => Some(Number(8))
    case CheckSuite(_, _) => Some(Number(9))
    case CheckCompleted(_, _) => Some(Content("today"))
    case RunEvent(_) => Some(Content("pull_request"))
    case RunPath(_) => Some(Content("ci.yml"))
    case RunSuite(_) => Some(Number(9))
    case RunAttempt(_, _, _) => Some(Attempt(1))
    case MergedPull(_) => Some(Commit("merge"))
    case MergeParents(_) => Some(Parents("base", "head"))
    case AssociatedPull(_, _) => Some(Number(1))
    case PullBase(_, _) => Some(Commit("base"))
    case PullReference(_, _) => Some(Content("feature"))
    case PullMerge(_, _) => Some(Commit("merge"))
    case Tree(_) => Some(Commit("tree"))
    case MergeBase(base, _) => Some(Commit(base))
    case _ => None
  }

  lemma ExampleSubject()
    ensures SubjectStands(Of(Example), "merge", SUBJECT)
  {
    assert Example(MergeParents("merge")) == Some(Parents("base", "head")) && Example(Tree("merge")) == Some(Commit("tree"));
    assert Example(AssociatedPull("merge", "head")) == Some(Number(1)) && Example(PullBase(1, "head")) == Some(Commit("base"));
    assert Example(PullReference(1, "head")) == Some(Content("feature")) && Example(PullMerge(1, "head")) == Some(Commit("merge"));
    assert Example(MergeBase("base", "head")) == Some(Commit("base")) && Example(Tree("head")) == Some(Commit("tree"));
  }

  const ONE_ROW := [PullRow("ci", 7, 8, 1, "ci.yml")]

  lemma ExampleRun()
    ensures RunStands(Of(Example), PullRequest, "head", 8, Run("ci.yml", 9, 1))
  {
    assert Example(RunPath(8)) == Some(Content("ci.yml"));
    assert Example(RunSuite(8)) == Some(Number(9));
    assert Example(RunAttempt(8, "head", PullRequest)) == Some(Attempt(1));
  }

  lemma ExampleCheck()
    ensures CheckStands(Of(Example), "head", "ci", Check(7, 8, 9, "today"))
  {
    assert Example(CheckId("head", "ci")) == Some(Number(7)) && Example(CheckRun("head", "ci")) == Some(Number(8));
    assert Example(CheckSuite("head", "ci")) == Some(Number(9)) && Example(CheckCompleted("head", "ci")) == Some(Content("today"));
  }

  lemma ExampleChecks()
    ensures Selected(Of(Example), "head", ONE_CHECK, "pull_request")
    ensures RowsStand(Of(Example), PullRequest, "head", ONE_CHECK, ONE_ROW)
  {
    hide RunStands, CheckStands;
    var check, run := Check(7, 8, 9, "today"), Run("ci.yml", 9, 1);
    ExampleCheck();
    ExampleRun();
    assert Example(RunEvent(8)) == Some(Content("pull_request"));
    assert IsSelected(Of(Example), "head", ONE_CHECK, [check], "pull_request");
    assert RowStands(Of(Example), PullRequest, "head", ONE_CHECK[0], ONE_ROW[0]);
  }

  lemma ExampleMerge()
    ensures IsMerged(Of(Example), "head", "main", SUBJECT)
  {
    hide SubjectStands;
    ExampleSubject();
    assert Example(MergedPull("head")) == Some(Commit("merge")) && Example(MergeBase("merge", "main")) == Some(Commit("merge"));
  }

  lemma StandsAsPull(answers: Answers, source: string, tooling: string, required: seq<Requirement>, rows: seq<Row>, s: Subject)
    requires Selected(answers, source, required, "pull_request") && RowsStand(answers, PullRequest, source, required, rows)
    requires IsMerged(answers, source, tooling, s)
    ensures ReleasedStands(answers, source, tooling, required, rows)
  {
    hide Selected, RowsStand, IsMerged;
  }

  /** So there is a history of agreeing readings in which the merge changed and the lookup failed in between. */
  lemma MergeCanChangeUnseen()
    ensures var p, after := ReleasedChecks("head", "main", ONE_CHECK), MergedAs(Example, "head", "main", SUBJECT, "remerged");
            && !AsksOnce(p) && !Settled(p, ONE_ROW)
            && exists f, g ::
                 && Agree(Switched(Example, after, |f|), p, f, Times(0, |f|), g, Times(|f| + 1, |g|), ONE_ROW, 0, |f|, |f| + |g| + 1)
                 && forall any :: !Holds(Switched(Example, after, |f|), p, |f|, any)
  {
    hide Agree, Settled, Holds, Fixed, ReleasedChecks, AsksOnce, Selected, RowsStand, IsMerged, ReleasedStands, MergedAs;
    ExampleChecks();
    ExampleMerge();
    MergeIsNotFixed(Example, "head", "main", ONE_CHECK, ONE_ROW, SUBJECT, "remerged");
    StandsAsPull(Of(Example), "head", "main", ONE_CHECK, ONE_ROW, SUBJECT);
    AlwaysStands(Example, "head", "main", ONE_CHECK, ONE_ROW);
    var f := HeldIsRead(Always(Example), ReleasedChecks("head", "main", ONE_CHECK), 0, ONE_ROW);
    ReleasedAsksTwice("head", "main", ONE_CHECK, f, ONE_ROW);
  }
}
