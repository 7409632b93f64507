/**
 The lookups of required checks: the latest checks of a commit, and the workflow run that produced each, read once
 per run. A pull-request lookup reports less of what it read than the lookup of checks on main does.
 */
module CheckLookups {
  import opened GitHubReads
  import opened Lookups
  import opened Snapshots
  import opened Wrappers

  datatype Requirement = Requirement(name: string, workflow: string)

  datatype Check = Check(id: int, run: int, suite: int, completed: string)

  datatype Run = Run(path: string, suite: int, attempt: int)

  /** What is reported of a required check, on a pull request and on main. */
  datatype Row =
    | PullRow(name: string, check: int, run: int, attempt: int, workflow: string)
    | MainRow(name: string, check: int, suite: int, run: int, attempt: int, workflow: string, completed: string)

  function RowOf(event: Event, required: Requirement, check: Check, run: Run): Row {
    if event.PullRequest? then PullRow(required.name, check.id, check.run, run.attempt, run.path)
    else MainRow(required.name, check.id, run.suite, check.run, run.attempt, required.workflow, check.completed)
  }

  /** The run belongs to the required workflow and to the suite of the check. */
  predicate Fits(required: Requirement, check: Check, run: Run) {
    run.path == required.workflow && run.suite == check.suite
  }

  // ----- the reads -----

  function CheckAspects(source: string, name: string): (queries: seq<Query>)
    ensures |queries| == 4
  {
    [CheckId(source, name), CheckRun(source, name), CheckSuite(source, name), CheckCompleted(source, name)]
  }

  function AllAspects(source: string, required: seq<Requirement>): (queries: seq<Query>)
    ensures |queries| == 4 * |required|
  {
    seq(4 * |required|, j requires 0 <= j < 4 * |required| => CheckAspects(source, required[j / 4].name)[j % 4])
  }

  function RunAspects(event: Event, source: string, run: int): (queries: seq<Query>)
    ensures |queries| == 3
  {
    [RunPath(run), RunSuite(run), RunAttempt(run, source, event)]
  }

  predicate IsCheck(f: seq<Fact>) {
    |f| == 4 && f[0].Number? && f[1].Number? && f[2].Number? && f[3].Content?
  }

  function CheckOf(f: seq<Fact>): Check
    requires IsCheck(f)
  {
    Check(f[0].n, f[1].n, f[2].n, f[3].text)
  }

  predicate AreChecks(f: seq<Fact>, n: nat) {
    |f| == 4 * n && forall k :: 0 <= k < n ==> IsCheck(f[4 * k..4 * k + 4])
  }

  function ChecksOf(f: seq<Fact>, n: nat): (checks: seq<Check>)
    requires AreChecks(f, n)
    ensures |checks| == n && forall k :: 0 <= k < n ==> checks[k] == CheckOf(f[4 * k..4 * k + 4])
  {
    seq(n, k requires 0 <= k < n => CheckOf(f[4 * k..4 * k + 4]))
  }

  predicate AreRunFacts(f: seq<Fact>) {
    |f| == 3 && f[0].Content? && f[1].Number? && f[2].Attempt?
  }

  function RunFrom(f: seq<Fact>): Run
    requires AreRunFacts(f)
  {
    Run(f[0].text, f[1].n, f[2].n)
  }

  /** The producers of the selected checks; a run that two checks share is read once. */
  function Producers(event: Event, source: string, required: seq<Requirement>, checks: seq<Check>, runs: map<int, Run>, rows: seq<Row>)
    : Lookup<seq<Row>>
    requires |checks| == |required|
    decreases |required|, 1
  {
    if required == [] then Return(rows)
    else if checks[0].run in runs then Accept(event, source, required, checks, runs, rows)
    else Reading(RunAspects(event, source, checks[0].run), AfterRun(event, source, required, checks, runs, rows))
  }

  function AfterRun(event: Event, source: string, required: seq<Requirement>, checks: seq<Check>, runs: map<int, Run>, rows: seq<Row>)
    : seq<Fact> -> Lookup<seq<Row>>
    requires |checks| == |required| && required != []
    decreases |required|, 0, 1
  {
    (f: seq<Fact>) =>
      if AreRunFacts(f) then Accept(event, source, required, checks, runs[checks[0].run := RunFrom(f)], rows) else Refuse()
  }

  function Accept(event: Event, source: string, required: seq<Requirement>, checks: seq<Check>, runs: map<int, Run>, rows: seq<Row>)
    : Lookup<seq<Row>>
    requires |checks| == |required| && required != [] && checks[0].run in runs
    decreases |required|, 0, 0
  {
    var run := runs[checks[0].run];
    if Fits(required[0], checks[0], run) then
      Producers(event, source, required[1..], checks[1..], runs, rows + [RowOf(event, required[0], checks[0], run)])
    else Refuse()
  }

  function AfterChecks(event: Event, source: string, required: seq<Requirement>): seq<Fact> -> Lookup<seq<Row>> {
    (f: seq<Fact>) =>
      if AreChecks(f, |required|) then Producers(event, source, required, ChecksOf(f, |required|), map[], []) else Refuse()
  }

  /** The checks of a commit that are required of a pull request, or of main. */
  function Checks(event: Event, source: string, required: seq<Requirement>): Lookup<seq<Row>> {
    Reading(AllAspects(source, required), AfterChecks(event, source, required))
  }

  lemma {:induction false} ProducersAreBounded(
    event: Event, source: string, required: seq<Requirement>, checks: seq<Check>, runs: map<int, Run>, rows: seq<Row>)
    requires |checks| == |required|
    ensures Bounded(Producers(event, source, required, checks, runs, rows), 3 * |required|)
    decreases |required|, 1
  {
    if required != [] {
      if checks[0].run in runs {
        AcceptIsBounded(event, source, required, checks, runs, rows);
      } else {
        var next, n := AfterRun(event, source, required, checks, runs, rows), 3 * |required| - 3;
        forall f
          ensures Bounded(next(f), n)
        {
          if AreRunFacts(f) {
            AcceptIsBounded(event, source, required, checks, runs[checks[0].run := RunFrom(f)], rows);
          }
        }
        ReadingIsBounded(RunAspects(event, source, checks[0].run), next, n);
      }
    }
  }

  lemma AcceptIsBounded(
    event: Event, source: string, required: seq<Requirement>, checks: seq<Check>, runs: map<int, Run>, rows: seq<Row>)
    requires |checks| == |required| && required != [] && checks[0].run in runs
    ensures Bounded(Accept(event, source, required, checks, runs, rows), 3 * |required| - 3)
    decreases |required|, 0
  {
    ProducersAreBounded(
      event, source, required[1..], checks[1..], runs, rows + [RowOf(event, required[0], checks[0], runs[checks[0].run])]);
  }

  lemma ChecksAreBounded(event: Event, source: string, required: seq<Requirement>)
    ensures Bounded(Checks(event, source, required), 7 * |required|)
  {
    hide Producers, IsCheck, AllAspects;
    var next := AfterChecks(event, source, required);
    forall f
      ensures Bounded(next(f), 3 * |required|)
    {
      if AreChecks(f, |required|) {
        ProducersAreBounded(event, source, required, ChecksOf(f, |required|), map[], []);
      }
    }
    ReadingIsBounded(AllAspects(source, required), next, 3 * |required|);
  }

  // ----- what they tell -----

  /** A source of answers: either one instant, or what a run has read. */
  type Answers = (Query, Fact) -> bool

  ghost predicate CheckStands(answers: Answers, source: string, name: string, check: Check) {
    && answers(CheckId(source, name), Number(check.id)) && answers(CheckRun(source, name), Number(check.run))
    && answers(CheckSuite(source, name), Number(check.suite)) && answers(CheckCompleted(source, name), Content(check.completed))
  }

  ghost predicate RunStands(answers: Answers, event: Event, source: string, id: int, run: Run) {
    && answers(RunPath(id), Content(run.path)) && answers(RunSuite(id), Number(run.suite))
    && answers(RunAttempt(id, source, event), Attempt(run.attempt))
  }

  /** The run belongs to the required workflow and to the check's suite, and the row names the check, the run and its attempt. */
  predicate IsRowOf(event: Event, required: Requirement, check: Check, run: Run, row: Row) {
    && run.path == required.workflow && run.suite == check.suite
    && row == match event
              case PullRequest => PullRow(required.name, check.id, check.run, run.attempt, required.workflow)
              case Push => MainRow(required.name, check.id, check.suite, check.run, run.attempt, required.workflow, check.completed)
  }

  /** The row reports a check and the run that produced it. */
  ghost predicate RowStands(answers: Answers, event: Event, source: string, required: Requirement, row: Row) {
    exists check, run ::
      && CheckStands(answers, source, required.name, check) && RunStands(answers, event, source, check.run, run)
      && IsRowOf(event, required, check, run, row)
  }

  ghost predicate RowsStand(answers: Answers, event: Event, source: string, required: seq<Requirement>, rows: seq<Row>) {
    |rows| == |required| && forall k :: 0 <= k < |required| ==> RowStands(answers, event, source, required[k], rows[k])
  }

  ghost function At(env: History<Query, Fact>, t: nat): Answers {
    (q: Query, fact: Fact) => env(t, q) == Some(fact)
  }

  ghost function ReadBy<R>(p: Lookup<R>, f: seq<Fact>): Answers {
    (q: Query, fact: Fact) => Reads(p, f, q, fact)
  }

  ghost predicate RowFollows(answers: Answers, event: Event, source: string, required: Requirement, check: Check, row: Row) {
    exists run ::
      RunStands(answers, event, source, check.run, run) && IsRowOf(event, required, check, run, row)
  }

  ghost predicate RowsFollow(
    answers: Answers, event: Event, source: string, required: seq<Requirement>, checks: seq<Check>, rows: seq<Row>)
    requires |checks| == |required|
  {
    |rows| == |required| && forall k :: 0 <= k < |rows| ==> RowFollows(answers, event, source, required[k], checks[k], rows[k])
  }

  ghost predicate RunsStand(answers: Answers, event: Event, source: string, runs: map<int, Run>) {
    forall id :: id in runs ==> RunStands(answers, event, source, id, runs[id])
  }

  lemma OneMoreStands(
    answers: Answers, event: Event, source: string, required: seq<Requirement>, checks: seq<Check>, row: Row, rest: seq<Row>)
    requires |checks| == |required| > 0
    requires RowFollows(answers, event, source, required[0], checks[0], row)
    requires RowsFollow(answers, event, source, required[1..], checks[1..], rest)
    ensures RowsFollow(answers, event, source, required, checks, [row] + rest)
  {
    hide RowFollows;
    var rows := [row] + rest;
    forall k | 0 <= k < |rows|
      ensures RowFollows(answers, event, source, required[k], checks[k], rows[k])
    {
      if k > 0 {
        assert RowFollows(answers, event, source, required[1..][k - 1], checks[1..][k - 1], rest[k - 1]);
      }
    }
  }

  /** Every row that is added tells what was read, or what was read before it of the same run. */
  lemma {:induction false} ProducersRead(
    answers: Answers, event: Event, source: string, required: seq<Requirement>, checks: seq<Check>, runs: map<int, Run>,
    rows: seq<Row>, f: seq<Fact>, result: seq<Row>)
    requires |checks| == |required| && RunsStand(answers, event, source, runs)
    requires Yields(Producers(event, source, required, checks, runs, rows), f, result)
    requires forall q, fact :: Reads(Producers(event, source, required, checks, runs, rows), f, q, fact) ==> answers(q, fact)
    ensures |rows| <= |result| && result[..|rows|] == rows
    ensures RowsFollow(answers, event, source, required, checks, result[|rows|..])
    decreases |required|
  {
    hide RowFollows, Reads, Yields, Fits, IsRowOf;
    if required == [] {
      ReturnYields<Query, Fact, seq<Row>>(rows, f, result);
    } else {
      var id := checks[0].run;
      if id in runs {
        AcceptedRead(answers, event, source, required, checks, runs, rows, f, result);
      } else {
        var next := AfterRun(event, source, required, checks, runs, rows);
        var aspects := RunAspects(event, source, id);
        assert Producers(event, source, required, checks, runs, rows) == Reading(aspects, next);
        ReadingReads(aspects, next, f, result);
        assert Reads(Reading(aspects, next), f, aspects[0], f[0]) && Reads(Reading(aspects, next), f, aspects[1], f[1])
            && Reads(Reading(aspects, next), f, aspects[2], f[2]);
        RefuseYieldsNothing<Query, Fact, seq<Row>>(f[3..], result);
        var run := RunFrom(f[..3]);
        assert RunStands(answers, event, source, id, run);
        AcceptedRead(answers, event, source, required, checks, runs[id := run], rows, f[3..], result);
      }
    }
  }

  lemma {:induction false} AcceptedRead(
    answers: Answers, event: Event, source: string, required: seq<Requirement>, checks: seq<Check>, runs: map<int, Run>,
    rows: seq<Row>, f: seq<Fact>, result: seq<Row>)
    requires |checks| == |required| && required != [] && checks[0].run in runs && RunsStand(answers, event, source, runs)
    requires Yields(Accept(event, source, required, checks, runs, rows), f, result)
    requires forall q, fact :: Reads(Accept(event, source, required, checks, runs, rows), f, q, fact) ==> answers(q, fact)
    ensures |rows| <= |result| && result[..|rows|] == rows
    ensures RowsFollow(answers, event, source, required, checks, result[|rows|..])
    decreases |required|, 0
  {
    hide Reads, Yields, RowsFollow;
    RefuseYieldsNothing<Query, Fact, seq<Row>>(f, result);
    var run := runs[checks[0].run];
    var row := RowOf(event, required[0], checks[0], run);
    ProducersRead(answers, event, source, required[1..], checks[1..], runs, rows + [row], f, result);
    assert RowFollows(answers, event, source, required[0], checks[0], row);
    var n := |rows|;
    OneMoreStands(answers, event, source, required, checks, row, result[n + 1..]);
    assert result[..n + 1] == rows + [row];
    assert result[..n] == result[..n + 1][..n] && result[n] == result[..n + 1][n];
    assert result[n..] == [row] + result[n + 1..];
  }

  /** When the producers stand in one instant, reading them in that instant yields their rows. */
  lemma {:induction false} ProducersHold(
    env: History<Query, Fact>, t: nat, event: Event, source: string, required: seq<Requirement>, checks: seq<Check>,
    runs: map<int, Run>, rows: seq<Row>, more: seq<Row>)
    requires |checks| == |required| && RunsStand(At(env, t), event, source, runs)
    requires RowsFollow(At(env, t), event, source, required, checks, more)
    ensures Holds(env, Producers(event, source, required, checks, runs, rows), t, rows + more)
    decreases |required|
  {
    hide Holds;
    if required == [] {
      assert rows + more == rows;
      ReturnHolds(env, t, rows, rows);
    } else {
      var id := checks[0].run;
      assert RowFollows(At(env, t), event, source, required[0], checks[0], more[0]);
      var run :| RunStands(At(env, t), event, source, id, run) && IsRowOf(event, required[0], checks[0], run, more[0]);
      assert forall k :: 0 < k < |more| ==> RowFollows(At(env, t), event, source, required[k], checks[k], more[k]);
      ProducersHold(env, t, event, source, required[1..], checks[1..], runs[id := run], rows + [more[0]], more[1..]);
      assert rows + [more[0]] + more[1..] == rows + more;
      assert Holds(env, Accept(event, source, required, checks, runs[id := run], rows), t, rows + more);
      if id in runs {
        assert RunStands(At(env, t), event, source, id, runs[id]) && runs[id] == run;
        assert runs[id := run] == runs;
      } else {
        var f := [Content(run.path), Number(run.suite), Attempt(run.attempt)];
        ReadingHolds(env, RunAspects(event, source, id), AfterRun(event, source, required, checks, runs, rows), t, f, rows + more);
      }
    }
  }

  lemma InFours(k: nat, i: nat)
    requires i < 4
    ensures (4 * k + i) / 4 == k && (4 * k + i) % 4 == i
  {
  }

  lemma AspectOf(source: string, required: seq<Requirement>, k: nat, i: nat)
    requires k < |required| && i < 4
    ensures AllAspects(source, required)[4 * k + i] == CheckAspects(source, required[k].name)[i]
  {
    InFours(k, i);
  }

  lemma CheckIsRead(source: string, required: seq<Requirement>, f: seq<Fact>, k: nat, answers: Answers)
    requires AreChecks(f, |required|) && k < |required|
    requires forall j :: 0 <= j < |f| ==> answers(AllAspects(source, required)[j], f[j])
    ensures CheckStands(answers, source, required[k].name, ChecksOf(f, |required|)[k])
  {
    var mine := f[4 * k..4 * k + 4];
    assert IsCheck(mine);
    forall i | 0 <= i < 4
      ensures answers(CheckAspects(source, required[k].name)[i], mine[i])
    {
      AspectOf(source, required, k, i);
      assert answers(AllAspects(source, required)[4 * k + i], f[4 * k + i]);
    }
    assert answers(CheckAspects(source, required[k].name)[0], mine[0]) && answers(CheckAspects(source, required[k].name)[1], mine[1]);
    assert answers(CheckAspects(source, required[k].name)[2], mine[2]) && answers(CheckAspects(source, required[k].name)[3], mine[3]);
  }

  /** The rows that a run reports tell what the run read. */
  lemma ChecksRead(event: Event, source: string, required: seq<Requirement>, f: seq<Fact>, rows: seq<Row>)
    requires Yields(Checks(event, source, required), f, rows)
    ensures RowsStand(ReadBy(Checks(event, source, required), f), event, source, required, rows)
  {
    hide Reads, Yields, IsRowOf;
    var p, n, m := Checks(event, source, required), |required|, 4 * |required|;
    var queries, next := AllAspects(source, required), AfterChecks(event, source, required);
    var answers := ReadBy(p, f);
    ReadingReads(queries, next, f, rows);
    RefuseYieldsNothing<Query, Fact, seq<Row>>(f[m..], rows);
    var checks := ChecksOf(f[..m], n);
    ProducersRead(answers, event, source, required, checks, map[], [], f[m..], rows);
    assert rows[0..] == rows;
    forall k | 0 <= k < n
      ensures RowStands(answers, event, source, required[k], rows[k])
    {
      assert forall j :: 0 <= j < m ==> answers(queries[j], f[..m][j]);
      CheckIsRead(source, required, f[..m], k, answers);
      assert RowFollows(answers, event, source, required[k], checks[k], rows[k]);
    }
  }

  /** In one instant the lookup yields exactly the rows that stand in that instant. */
  lemma ChecksHoldMeans(env: History<Query, Fact>, t: nat, event: Event, source: string, required: seq<Requirement>, rows: seq<Row>)
    ensures Holds(env, Checks(event, source, required), t, rows) <==> RowsStand(At(env, t), event, source, required, rows)
  {
    hide Reads, Yields, Holds, RowsStand;
    var p := Checks(event, source, required);
    if Holds(env, p, t, rows) {
      var f := HeldIsRead(env, p, t, rows);
      ChecksRead(event, source, required, f, rows);
      RowsStandStill(ReadBy(p, f), At(env, t), event, source, required, rows);
    }
    if RowsStand(At(env, t), event, source, required, rows) {
      StandingRowsHold(env, t, event, source, required, rows);
    }
  }

  /** What rows are about. */
  predicate OfChecks(q: Query) {
    q.CheckId? || q.CheckRun? || q.CheckSuite? || q.CheckCompleted? || q.RunEvent? || q.RunPath? || q.RunSuite? || q.RunAttempt?
  }

  lemma RowsStandStill(some: Answers, more: Answers, event: Event, source: string, required: seq<Requirement>, rows: seq<Row>)
    requires RowsStand(some, event, source, required, rows) && forall q, fact :: OfChecks(q) && some(q, fact) ==> more(q, fact)
    ensures RowsStand(more, event, source, required, rows)
  {
    forall k | 0 <= k < |required|
      ensures RowStands(more, event, source, required[k], rows[k])
    {
      assert RowStands(some, event, source, required[k], rows[k]);
    }
  }

  function CheckFacts(check: Check): (f: seq<Fact>)
    ensures IsCheck(f) && CheckOf(f) == check
  {
    [Number(check.id), Number(check.run), Number(check.suite), Content(check.completed)]
  }

  function FactsOf(checks: seq<Check>): (f: seq<Fact>)
    ensures |f| == 4 * |checks|
  {
    seq(4 * |checks|, j requires 0 <= j < 4 * |checks| => CheckFacts(checks[j / 4])[j % 4])
  }

  lemma FactsAreChecks(checks: seq<Check>)
    ensures AreChecks(FactsOf(checks), |checks|) && ChecksOf(FactsOf(checks), |checks|) == checks
  {
    hide CheckFacts, CheckOf, IsCheck;
    var f := FactsOf(checks);
    forall k | 0 <= k < |checks|
      ensures IsCheck(f[4 * k..4 * k + 4]) && CheckOf(f[4 * k..4 * k + 4]) == checks[k]
    {
      CheckHasFour(checks[k]);
      InFours(k, 0);
      InFours(k, 1);
      InFours(k, 2);
      InFours(k, 3);
      assert f[4 * k..4 * k + 4] == CheckFacts(checks[k]);
    }
    assert AreChecks(f, |checks|);
    assert ChecksOf(f, |checks|) == checks;
  }

  lemma CheckHasFour(check: Check)
    ensures |CheckFacts(check)| == 4
  {
  }

  lemma StandingChecksAnswer(env: History<Query, Fact>, t: nat, source: string, required: seq<Requirement>, checks: seq<Check>)
    requires |checks| == |required|
    requires forall k :: 0 <= k < |checks| ==> CheckStands(At(env, t), source, required[k].name, checks[k])
    ensures forall j :: 0 <= j < 4 * |required| ==> env(t, AllAspects(source, required)[j]) == Some(FactsOf(checks)[j])
  {
    hide CheckStands, CheckFacts, CheckAspects, IsCheck;
    forall j | 0 <= j < 4 * |required|
      ensures env(t, AllAspects(source, required)[j]) == Some(FactsOf(checks)[j])
    {
      AspectAnswers(env, t, source, required[j / 4].name, checks[j / 4], j % 4);
    }
  }

  lemma AspectAnswers(env: History<Query, Fact>, t: nat, source: string, name: string, check: Check, i: nat)
    requires i < 4 && CheckStands(At(env, t), source, name, check)
    ensures |CheckFacts(check)| == 4 && env(t, CheckAspects(source, name)[i]) == Some(CheckFacts(check)[i])
  {
  }

  lemma StandingRowsHold(env: History<Query, Fact>, t: nat, event: Event, source: string, required: seq<Requirement>, rows: seq<Row>)
    requires RowsStand(At(env, t), event, source, required, rows)
    ensures Holds(env, Checks(event, source, required), t, rows)
  {
    hide Holds, CheckStands, RunStands, IsRowOf, Checks, Producers, IsCheck;
    var answers := At(env, t);
    var checks: seq<Check> := [];
    for n := 0 to |rows|
      invariant |checks| == n
      invariant forall k :: 0 <= k < n ==> CheckStands(answers, source, required[k].name, checks[k])
      invariant forall k :: 0 <= k < n ==> RowFollows(answers, event, source, required[k], checks[k], rows[k])
    {
      assert RowStands(answers, event, source, required[n], rows[n]);
      var check, run :| CheckStands(answers, source, required[n].name, check) && RunStands(answers, event, source, check.run, run)
        && IsRowOf(event, required[n], check, run, rows[n]);
      assert RowFollows(answers, event, source, required[n], check, rows[n]);
      checks := checks + [check];
    }
    SelectedRowsHold(env, t, event, source, required, checks, rows);
  }

  lemma SelectedRowsHold(
    env: History<Query, Fact>, t: nat, event: Event, source: string, required: seq<Requirement>, checks: seq<Check>, rows: seq<Row>)
    requires |checks| == |required| && RowsFollow(At(env, t), event, source, required, checks, rows)
    requires forall k :: 0 <= k < |checks| ==> CheckStands(At(env, t), source, required[k].name, checks[k])
    ensures Holds(env, Checks(event, source, required), t, rows)
  {
    hide Holds, CheckStands, RowsFollow, Producers, IsCheck;
    ProducersHold(env, t, event, source, required, checks, map[], [], rows);
    assert [] + rows == rows;
    StandingChecksAnswer(env, t, source, required, checks);
    FactsAreChecks(checks);
    ReadingHolds(env, AllAspects(source, required), AfterChecks(event, source, required), t, FactsOf(checks), rows);
  }

  // ----- what reading them twice fixes -----

  /** All that a row tells about what was read. */
  function Told(event: Event, source: string, row: Row): set<(Query, Fact)> {
    { (CheckId(source, row.name), Number(row.check)), (CheckRun(source, row.name), Number(row.run)),
      (RunPath(row.run), Content(row.workflow)), (RunAttempt(row.run, source, event), Attempt(row.attempt)) }
    + (if row.PullRow? then {}
       else { (CheckSuite(source, row.name), Number(row.suite)), (RunSuite(row.run), Number(row.suite)),
              (CheckCompleted(source, row.name), Content(row.completed)) })
  }

  ghost predicate RowTells(answers: Answers, event: Event, source: string, required: Requirement, row: Row) {
    && row.name == required.name && row.workflow == required.workflow && (row.MainRow? <==> event.Push?)
    && forall claim :: claim in Told(event, source, row) ==> answers(claim.0, claim.1)
  }

  ghost predicate RowsTell(answers: Answers, event: Event, source: string, required: seq<Requirement>, rows: seq<Row>) {
    |rows| == |required| && forall k :: 0 <= k < |required| ==> RowTells(answers, event, source, required[k], rows[k])
  }

  lemma StandingRowsTell(answers: Answers, event: Event, source: string, required: seq<Requirement>, rows: seq<Row>)
    requires RowsStand(answers, event, source, required, rows)
    ensures RowsTell(answers, event, source, required, rows)
  {
    forall k | 0 <= k < |required|
      ensures RowTells(answers, event, source, required[k], rows[k])
    {
      assert RowStands(answers, event, source, required[k], rows[k]);
    }
  }

  /** On main nothing is hidden: rows that tell the truth stand. */
  lemma TellingMainRowsStand(answers: Answers, source: string, required: seq<Requirement>, rows: seq<Row>)
    requires RowsTell(answers, Push, source, required, rows)
    ensures RowsStand(answers, Push, source, required, rows)
  {
    forall k | 0 <= k < |required|
      ensures RowStands(answers, Push, source, required[k], rows[k])
    {
      var row := rows[k];
      assert RowTells(answers, Push, source, required[k], row);
      assert forall claim :: claim in Told(Push, source, row) ==> answers(claim.0, claim.1);
      assert (CheckId(source, row.name), Number(row.check)) in Told(Push, source, row);
      assert (CheckRun(source, row.name), Number(row.run)) in Told(Push, source, row);
      assert (CheckSuite(source, row.name), Number(row.suite)) in Told(Push, source, row);
      assert (CheckCompleted(source, row.name), Content(row.completed)) in Told(Push, source, row);
      assert (RunPath(row.run), Content(row.workflow)) in Told(Push, source, row);
      assert (RunSuite(row.run), Number(row.suite)) in Told(Push, source, row);
      assert (RunAttempt(row.run, source, Push), Attempt(row.attempt)) in Told(Push, source, row);
      var check, run := Check(row.check, row.run, row.suite, row.completed), Run(row.workflow, row.suite, row.attempt);
      assert CheckStands(answers, source, required[k].name, check) && RunStands(answers, Push, source, check.run, run);
    }
  }

  /** Any lookup whose rows tell what each run of it read: all that they tell is fixed. */
  lemma TellingRowsAreFixed(
    env: History<Query, Fact>, p: Lookup<seq<Row>>, t: nat, event: Event, source: string, required: seq<Requirement>, rows: seq<Row>)
    requires forall f :: Yields(p, f, rows) ==> RowsTell(ReadBy(p, f), event, source, required, rows)
    requires Shown(env, p, t, rows)
    ensures RowsTell(At(env, t), event, source, required, rows)
  {
    ShownWasYielded(env, p, t, rows, MainBranch, Confirmed, Number(0));
    var f :| Yields(p, f, rows);
    assert RowsTell(ReadBy(p, f), event, source, required, rows);
    forall k | 0 <= k < |required|
      ensures RowTells(At(env, t), event, source, required[k], rows[k])
    {
      assert RowTells(ReadBy(p, f), event, source, required[k], rows[k]);
      forall claim | claim in Told(event, source, rows[k])
        ensures At(env, t)(claim.0, claim.1)
      {
        forall g | Yields(p, g, rows)
          ensures Reads(p, g, claim.0, claim.1)
        {
          assert RowsTell(ReadBy(p, g), event, source, required, rows);
          assert RowTells(ReadBy(p, g), event, source, required[k], rows[k]);
          assert ReadBy(p, g)(claim.0, claim.1);
        }
        RevealedIsFixed(p, rows, claim.0, claim.1);
      }
    }
  }

  /**
   Rows found before and after an instant: every check id, run id, workflow and attempt in them was so at that
   instant. On main that is the whole lookup, so it would have yielded the rows then.
   */
  lemma ChecksShow(env: History<Query, Fact>, t: nat, event: Event, source: string, required: seq<Requirement>, rows: seq<Row>)
    requires Shown(env, Checks(event, source, required), t, rows)
    ensures RowsTell(At(env, t), event, source, required, rows)
    ensures event.Push? ==> Holds(env, Checks(event, source, required), t, rows)
  {
    hide Shown, Reads, Yields, Holds, RowsStand, RowsTell;
    var p := Checks(event, source, required);
    forall f | Yields(p, f, rows)
      ensures RowsTell(ReadBy(p, f), event, source, required, rows)
    {
      ChecksRead(event, source, required, f, rows);
      StandingRowsTell(ReadBy(p, f), event, source, required, rows);
    }
    TellingRowsAreFixed(env, p, t, event, source, required, rows);
    if event.Push? {
      TellingMainRowsStand(At(env, t), source, required, rows);
      ChecksHoldMeans(env, t, event, source, required, rows);
    }
  }

  // ----- what stays hidden -----

  /** The same state with all suites renumbered. */
  function Renumbered(state: State<Query, Fact>): State<Query, Fact> {
    (q: Query) =>
      if (q.CheckSuite? || q.RunSuite?) && state(q).Some? && state(q).value.Number? then Some(Number(state(q).value.n + 1)) else state(q)
  }

  lemma RenumberedRowsStand(
    before: Answers, after: Answers, state: State<Query, Fact>, source: string, required: seq<Requirement>, rows: seq<Row>)
    requires forall q, fact :: before(q, fact) <==> state(q) == Some(fact)
    requires forall q, fact :: after(q, fact) <==> Renumbered(state)(q) == Some(fact)
    requires RowsStand(before, PullRequest, source, required, rows)
    ensures RowsStand(after, PullRequest, source, required, rows)
  {
    forall k | 0 <= k < |required|
      ensures RowStands(after, PullRequest, source, required[k], rows[k])
    {
      assert RowStands(before, PullRequest, source, required[k], rows[k]);
      var check, run :| CheckStands(before, source, required[k].name, check) && RunStands(before, PullRequest, source, check.run, run)
        && IsRowOf(PullRequest, required[k], check, run, rows[k]);
      var check', run' := check.(suite := check.suite + 1), run.(suite := run.suite + 1);
      assert CheckStands(after, source, required[k].name, check') && RunStands(after, PullRequest, source, check'.run, run');
    }
  }

  /**
   The rows of a pull request never fix the suite of a check, although the lookup compares it: whenever they hold,
   they would be the same with another suite, and with none in between.
   */
  lemma PullSuiteIsNotFixed(
    env: History<Query, Fact>, t: nat, source: string, required: seq<Requirement>, rows: seq<Row>, k: nat, fact: Fact)
    requires Holds(env, Checks(PullRequest, source, required), t, rows) && k < |required|
    ensures !Fixed(Checks(PullRequest, source, required), rows, CheckSuite(source, required[k].name), fact)
  {
    hide Holds, Fixed, IsRowOf;
    var p, state := Checks(PullRequest, source, required), (q: Query) => env(t, q);
    var q := CheckSuite(source, required[k].name);
    ChecksHoldMeans(env, t, PullRequest, source, required, rows);
    assert RowsStand(At(env, t), PullRequest, source, required, rows);
    assert RowStands(At(env, t), PullRequest, source, required[k], rows[k]);
    assert state(q).Some? && state(q).value.Number?;
    RowsStandStill(At(env, t), At(Always(state), 0), PullRequest, source, required, rows);
    RenumberedRowsStand(At(env, t), At(Always(Renumbered(state)), 0), state, source, required, rows);
    ChecksHoldMeans(Always(state), 0, PullRequest, source, required, rows);
    ChecksHoldMeans(Always(Renumbered(state)), 0, PullRequest, source, required, rows);
    SwitchedIsNotFixed(state, Renumbered(state), p, rows, q, fact);
  }
}
