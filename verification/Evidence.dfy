/**
 Joining evidence shards against the behaviour catalog: the checks on one proof entry, one shard and one lane, and
 the aggregate, which passes only without any error.
 */
module Evidence {
  import opened Wrappers

  /** A parsed JSON value. */
  datatype Json =
    | Null
    | Bool(truth: bool)
    | Int(number: int)
    | Float(value: real)
    | Text(text: string)
    | Arr(items: seq<Json>)
    | Obj(fields: map<string, Json>)

  type Fields = map<string, Json>

  function Get(fields: Fields, key: string): Json {
    if key in fields then fields[key] else Null
  }

  /** Equality with an integer as the host language sees it: booleans and whole floats count. */
  predicate EqualsInt(value: Json, n: int) {
    match value
    case Int(m) => m == n
    case Bool(b) => n == (if b then 1 else 0)
    case Float(x) => x == n as real
    case _ => false
  }

  function TextsOf(items: seq<string>): Json {
    Arr(seq(|items|, k requires 0 <= k < |items| => Text(items[k])))
  }

  // ----- the catalog -----

  datatype ProofKind = RustTest | Semantic

  /** A catalog proof with the commands its policy prescribes. */
  datatype Proof = Proof(
    id: string, kind: ProofKind, selector: string, lane: string, operatingSystems: seq<string>,
    discoveryCommand: seq<string>, command: seq<string>)

  datatype Behavior = Behavior(id: string, proofs: seq<Proof>)

  /** A lane; only a semantic lane has scenarios and the two suite commands. */
  datatype Lane = Lane(
    name: string, operatingSystems: seq<string>, semantic: bool, scenarios: seq<string>,
    inventoryCommand: seq<string>, executionCommand: seq<string>)

  /** The lanes stand in the order of their names. */
  datatype Catalog = Catalog(requiredJobs: set<string>, lanes: seq<Lane>, behaviors: seq<Behavior>)

  datatype Run = Run(digest: string, sha: string, repository: string, runId: string, attempt: Json)

  datatype Expected = Expected(behavior: string, proof: Proof)

  const PASSED := "passed"

  predicate AllowedStatus(s: string) {
    s in {"passed", "failed", "ignored", "skipped", "error"}
  }

  // ----- errors -----

  datatype ProofProblem =
    | WrongFields | WrongScalar(field: string) | InvalidStatus | BadDuration | BadReturnCode | BadObserved
    | WrongDiscovery | WrongCommand | WrongInventoryCommand | MalformedObservations | ContradictsPassing

  datatype LaneProblem =
    | ShardCount(count: nat) | WrongShardFields | WrongField(field: string) | SchemaNotInteger | BadAttempt | NewerAttempt
    | WrongOperatingSystem | BadTimestamps | BadToolVersions | BadErrors | PassedWithErrors | NotPassed | ProofsNotArray
    | MalformedProof | CasesNotArray | MalformedCase | NonTextScenario | CaseFailed(scenario: string) | DuplicateCases
    | UnexpectedInventory | InventoryDiffers

  datatype EvidenceError =
    | InvalidExpectedAttempt
    | MissingJobs(jobs: set<string>)
    | UnexpectedJobs(jobs: set<string>)
    | JobConclusion(job: string, conclusion: string)
    | NotAnObject
    | UnexpectedLane(claimed: Json)
    | InLane(lane: string, problem: LaneProblem)
    | InProof(proof: string, entryProblem: ProofProblem)
    | DuplicateProof(proof: string)
    | UnexpectedProof(proof: string)
    | MisplacedProof(proof: string, lane: string)
    | UnsupportedSystem(proof: string)
    | MissingProofs(proofs: set<string>)
    | UnexpectedProofs(proofs: set<string>)
    | ProofNotPassed(proof: string, status: string)

  type Errors = set<EvidenceError>

  function When<T>(condition: bool, error: T): set<T> {
    if condition then {error} else {}
  }

  // ----- one proof entry -----

  predicate IsTextIn(value: Json, texts: seq<string>) {
    value.Text? && value.text in texts
  }

  const COMMON_KEYS: set<string> :=
    {"behavior_id", "proof_id", "kind", "selector", "status", "duration_ms", "return_code", "observed", "command"}

  function KindName(kind: ProofKind): string {
    if kind == RustTest then "rust-test" else "semantic-scenario"
  }

  predicate AllIntegers(fields: Fields) {
    forall key :: key in fields ==> fields[key].Int?
  }

  function ObservedKeys(kind: ProofKind): set<string> {
    if kind == RustTest then {"passed", "failed", "ignored", "discovered_exactly"} else {"passed"}
  }

  /** The observations of a Rust test or scenario that really ran once and passed. */
  predicate ObservedPassing(kind: ProofKind, observed: Fields) {
    observed.Keys == ObservedKeys(kind) &&
    forall key :: key in observed ==> EqualsInt(observed[key], if key in {"failed", "ignored"} then 0 else 1)
  }

  /** The checks one proof entry must survive, given the catalog's expectation and its lane. */
  function ProofProblems(entry: Fields, expected: Expected, lane: Lane): set<ProofProblem> {
    var proof := expected.proof;
    var rust := proof.kind == RustTest;
    var observed := if Get(entry, "observed").Obj? then Get(entry, "observed").fields else map[];
    var claimsPassed := Get(entry, "status") == Text(PASSED);
    var wellFormed := observed.Keys == ObservedKeys(proof.kind) && AllIntegers(observed);
    When(entry.Keys != COMMON_KEYS + {if rust then "discovery_command" else "inventory_command"}, WrongFields) +
    When(Get(entry, "behavior_id") != Text(expected.behavior), WrongScalar("behavior_id")) +
    When(Get(entry, "proof_id") != Text(proof.id), WrongScalar("proof_id")) +
    When(Get(entry, "kind") != Text(KindName(proof.kind)), WrongScalar("kind")) +
    When(Get(entry, "selector") != Text(proof.selector), WrongScalar("selector")) +
    When(!Get(entry, "status").Text? || !AllowedStatus(Get(entry, "status").text), InvalidStatus) +
    When(!Get(entry, "duration_ms").Int? || Get(entry, "duration_ms").number < 0, BadDuration) +
    When(!Get(entry, "return_code").Int?, BadReturnCode) +
    When(!Get(entry, "observed").Obj?, BadObserved) +
    When(rust && Get(entry, "discovery_command") != TextsOf(proof.discoveryCommand), WrongDiscovery) +
    When(rust && Get(entry, "command") != TextsOf(proof.command), WrongCommand) +
    When(!rust && Get(entry, "inventory_command") != TextsOf(lane.inventoryCommand), WrongInventoryCommand) +
    When(!rust && Get(entry, "command") != TextsOf(lane.executionCommand), WrongCommand) +
    When(!wellFormed, MalformedObservations) +
    When(claimsPassed && (!EqualsInt(Get(entry, "return_code"), 0) || !ObservedPassing(proof.kind, observed)),
         ContradictsPassing)
  }

  // ----- one shard -----

  const SHARD_KEYS: set<string> :=
    {"schema_version", "kind", "catalog_sha256", "repository", "sha", "run_id", "run_attempt", "lane",
     "operating_system", "status", "started_at", "finished_at", "tool_versions", "proofs", "inventory_cases", "errors"}

  predicate ValidAttempt(attempt: Json) {
    attempt.Int? && attempt.number >= 1
  }

  predicate AllTexts(items: seq<Json>) {
    forall item :: item in items ==> item.Text?
  }

  predicate TextMap(value: Json) {
    value.Obj? && forall key :: key in value.fields ==> value.fields[key].Text?
  }

  function ShardProblems(shard: Fields, lane: Lane, run: Run): set<LaneProblem> {
    var attempt, errors := Get(shard, "run_attempt"), Get(shard, "errors");
    var errorsOk := errors.Arr? && AllTexts(errors.items);
    When(shard.Keys != SHARD_KEYS, WrongShardFields) +
    When(!EqualsInt(Get(shard, "schema_version"), 1), WrongField("schema_version")) +
    When(Get(shard, "kind") != Text("sorotte-behavior-evidence-shard"), WrongField("kind")) +
    When(Get(shard, "catalog_sha256") != Text(run.digest), WrongField("catalog_sha256")) +
    When(Get(shard, "repository") != Text(run.repository), WrongField("repository")) +
    When(Get(shard, "sha") != Text(run.sha), WrongField("sha")) +
    When(Get(shard, "run_id") != Text(run.runId), WrongField("run_id")) +
    When(Get(shard, "lane") != Text(lane.name), WrongField("lane")) +
    When(!Get(shard, "schema_version").Int?, SchemaNotInteger) +
    When(!ValidAttempt(attempt), BadAttempt) +
    When(ValidAttempt(attempt) && ValidAttempt(run.attempt) && attempt.number > run.attempt.number, NewerAttempt) +
    When(!IsTextIn(Get(shard, "operating_system"), lane.operatingSystems), WrongOperatingSystem) +
    When(!Get(shard, "started_at").Text? || !Get(shard, "finished_at").Text?, BadTimestamps) +
    When(!TextMap(Get(shard, "tool_versions")), BadToolVersions) +
    When(!errorsOk, BadErrors) +
    When(errorsOk && Get(shard, "status") == Text(PASSED) && errors.items != [], PassedWithErrors) +
    When(Get(shard, "status") != Text(PASSED), NotPassed) +
    When(!Get(shard, "proofs").Arr?, ProofsNotArray) +
    When(!Get(shard, "inventory_cases").Arr?, CasesNotArray)
  }

  function ItemsOf(value: Json): seq<Json> {
    if value.Arr? then value.items else []
  }

  function InLaneAll(lane: string, problems: set<LaneProblem>): Errors {
    set problem | problem in problems :: InLane(lane, problem)
  }

  function InProofAll(proof: string, problems: set<ProofProblem>): Errors {
    set problem | problem in problems :: InProof(proof, problem)
  }

  type ExpectedProofs = map<string, Expected>

  /** What the lane loop accumulates. */
  datatype State = State(errors: Errors, observed: map<string, string>, inventory: map<string, seq<string>>)

  /** The identifier of a proof entry that has one. */
  function ProofId(entry: Json): Option<string> {
    if entry.Obj? && Get(entry.fields, "proof_id").Text? then Some(Get(entry.fields, "proof_id").text) else None
  }

  function StatusOf(entry: Fields): string {
    if Get(entry, "status").Text? && AllowedStatus(Get(entry, "status").text) then Get(entry, "status").text else "error"
  }

  function EntryErrors(entry: Fields, id: string, shard: Fields, lane: Lane, expected: ExpectedProofs): Errors {
    (if id !in expected then {UnexpectedProof(id)}
     else
       When(expected[id].proof.lane != lane.name, MisplacedProof(id, lane.name)) +
       When(!IsTextIn(Get(shard, "operating_system"), expected[id].proof.operatingSystems), UnsupportedSystem(id)) +
       InProofAll(id, ProofProblems(entry, expected[id], lane))) +
    When(!Get(entry, "status").Text? || !AllowedStatus(Get(entry, "status").text), InProof(id, InvalidStatus))
  }

  /** One entry of a shard's proof list. */
  function TakeProof(entry: Json, shard: Fields, lane: Lane, expected: ExpectedProofs, st: State): State {
    match ProofId(entry)
    case None => st.(errors := st.errors + {InLane(lane.name, MalformedProof)})
    case Some(id) =>
      st.(errors := st.errors + When(id in st.observed, DuplicateProof(id)) + EntryErrors(entry.fields, id, shard, lane, expected),
          observed := st.observed[id := StatusOf(entry.fields)])
  }

  function TakeProofs(entries: seq<Json>, shard: Fields, lane: Lane, expected: ExpectedProofs, st: State): State {
    if entries == [] then st
    else TakeProof(entries[|entries| - 1], shard, lane, expected, TakeProofs(entries[..|entries| - 1], shard, lane, expected, st))
  }

  /** One inventory case: the scenario it names, if it is well formed, and its problems. */
  function CaseName(c: Json): Option<string> {
    if c.Obj? && c.fields.Keys == {"scenario", "status"} && c.fields["scenario"].Text? then Some(c.fields["scenario"].text)
    else None
  }

  function CaseProblems(c: Json): set<LaneProblem> {
    if !c.Obj? || c.fields.Keys != {"scenario", "status"} then {MalformedCase}
    else if !c.fields["scenario"].Text? then {NonTextScenario}
    else When(c.fields["status"] != Text(PASSED), CaseFailed(c.fields["scenario"].text))
  }

  function CaseNames(cases: seq<Json>): seq<string> {
    if cases == [] then []
    else CaseNames(cases[..|cases| - 1]) +
         (match CaseName(cases[|cases| - 1]) case None => [] case Some(name) => [name])
  }

  function AllCaseProblems(cases: seq<Json>): set<LaneProblem> {
    if cases == [] then {} else AllCaseProblems(cases[..|cases| - 1]) + CaseProblems(cases[|cases| - 1])
  }

  predicate Distinct(names: seq<string>) {
    forall j, k :: 0 <= j < k < |names| ==> names[j] != names[k]
  }

  /** One lane with exactly one shard. */
  function TakeShard(shard: Fields, lane: Lane, run: Run, expected: ExpectedProofs, st: State): State {
    var checked := st.(errors := st.errors + InLaneAll(lane.name, ShardProblems(shard, lane, run)));
    var proved := TakeProofs(ItemsOf(Get(shard, "proofs")), shard, lane, expected, checked);
    var cases := ItemsOf(Get(shard, "inventory_cases"));
    var problems := AllCaseProblems(cases) + When(!Distinct(CaseNames(cases)), DuplicateCases);
    proved.(errors := proved.errors + InLaneAll(lane.name, problems),
            inventory := proved.inventory[lane.name := CaseNames(cases)])
  }

  // ----- the aggregate -----

  /** The shards that claim a lane. */
  function ShardsOf(shards: seq<Json>, lane: string): seq<Fields> {
    if shards == [] then []
    else ShardsOf(shards[..|shards| - 1], lane) +
         (var last := shards[|shards| - 1];
          if last.Obj? && Get(last.fields, "lane") == Text(lane) then [last.fields] else [])
  }

  predicate KnownLane(lanes: seq<Lane>, claimed: Json) {
    claimed.Text? && exists k :: 0 <= k < |lanes| && lanes[k].name == claimed.text
  }

  /** What a shard costs before it reaches its lane. */
  function IntakeErrors(shard: Json, lanes: seq<Lane>): Errors {
    if !shard.Obj? then {NotAnObject}
    else if !KnownLane(lanes, Get(shard.fields, "lane")) then {UnexpectedLane(Get(shard.fields, "lane"))}
    else {}
  }

  function AllIntakeErrors(shards: seq<Json>, lanes: seq<Lane>): Errors {
    if shards == [] then {}
    else AllIntakeErrors(shards[..|shards| - 1], lanes) + IntakeErrors(shards[|shards| - 1], lanes)
  }

  function BehaviorProofs(b: Behavior, k: nat, expected: ExpectedProofs): ExpectedProofs
    requires k <= |b.proofs|
  {
    if k == 0 then expected
    else BehaviorProofs(b, k - 1, expected)[b.proofs[k - 1].id := Expected(b.id, b.proofs[k - 1])]
  }

  function ExpectedOf(behaviors: seq<Behavior>): ExpectedProofs {
    if behaviors == [] then map[]
    else
      var last := behaviors[|behaviors| - 1];
      BehaviorProofs(last, |last.proofs|, ExpectedOf(behaviors[..|behaviors| - 1]))
  }

  /** A lane's turn: its only shard is checked, any other number of shards is an error. */
  function TakeLane(lane: Lane, shards: seq<Fields>, run: Run, expected: ExpectedProofs, st: State): State {
    if |shards| != 1 then st.(errors := st.errors + {InLane(lane.name, ShardCount(|shards|))})
    else TakeShard(shards[0], lane, run, expected, st)
  }

  function TakeLanes(lanes: seq<Lane>, shards: seq<Json>, run: Run, expected: ExpectedProofs, st: State): State {
    if lanes == [] then st
    else
      var lane := lanes[|lanes| - 1];
      TakeLane(lane, ShardsOf(shards, lane.name), run, expected, TakeLanes(lanes[..|lanes| - 1], shards, run, expected, st))
  }

  function JobErrors(jobs: map<string, string>): Errors {
    set job | job in jobs && jobs[job] != "success" :: JobConclusion(job, jobs[job])
  }

  function OpeningErrors(catalog: Catalog, run: Run, jobs: map<string, string>): Errors {
    var missing, unexpected := catalog.requiredJobs - jobs.Keys, jobs.Keys - catalog.requiredJobs;
    When(!ValidAttempt(run.attempt), InvalidExpectedAttempt) +
    When(missing != {}, MissingJobs(missing)) + When(unexpected != {}, UnexpectedJobs(unexpected)) + JobErrors(jobs)
  }

  /** The joins at the end: expected against observed proofs. */
  function ProofJoinErrors(expected: ExpectedProofs, observed: map<string, string>): Errors {
    var missing, unexpected := expected.Keys - observed.Keys, observed.Keys - expected.Keys;
    When(missing != {}, MissingProofs(missing)) + When(unexpected != {}, UnexpectedProofs(unexpected)) +
    (set id | id in expected.Keys * observed.Keys && observed[id] != PASSED :: ProofNotPassed(id, observed[id]))
  }

  function ToSet(names: seq<string>): set<string> {
    set name | name in names
  }

  function InventoryProblems(lane: Lane, inventory: map<string, seq<string>>): set<LaneProblem> {
    var cases := if lane.name in inventory then inventory[lane.name] else [];
    if !lane.semantic then When(cases != [], UnexpectedInventory)
    else When(ToSet(cases) != ToSet(lane.scenarios) || |cases| != |lane.scenarios|, InventoryDiffers)
  }

  function InventoryErrors(lanes: seq<Lane>, inventory: map<string, seq<string>>): Errors {
    if lanes == [] then {}
    else
      var lane := lanes[|lanes| - 1];
      InventoryErrors(lanes[..|lanes| - 1], inventory) + InLaneAll(lane.name, InventoryProblems(lane, inventory))
  }

  predicate BehaviorPasses(b: Behavior, observed: map<string, string>) {
    b.proofs != [] && forall proof :: proof in b.proofs ==> proof.id in observed && observed[proof.id] == PASSED
  }

  /** The result: the verdict, each behaviour's status and the set of errors. */
  datatype Aggregate = Aggregate(passed: bool, behaviors: seq<(string, bool)>, errors: Errors)

  function BehaviorStatuses(behaviors: seq<Behavior>, observed: map<string, string>): (statuses: seq<(string, bool)>)
    ensures |statuses| == |behaviors|
  {
    seq(|behaviors|, k requires 0 <= k < |behaviors| => (behaviors[k].id, BehaviorPasses(behaviors[k], observed)))
  }

  function Join(catalog: Catalog, shards: seq<Json>, run: Run, jobs: map<string, string>): State {
    var opening := OpeningErrors(catalog, run, jobs) + AllIntakeErrors(shards, catalog.lanes);
    TakeLanes(catalog.lanes, shards, run, ExpectedOf(catalog.behaviors), State(opening, map[], map[]))
  }

  function AggregateOf(catalog: Catalog, shards: seq<Json>, run: Run, jobs: map<string, string>): Aggregate {
    var st := Join(catalog, shards, run, jobs);
    var errors := st.errors + ProofJoinErrors(ExpectedOf(catalog.behaviors), st.observed)
                + InventoryErrors(catalog.lanes, st.inventory);
    Aggregate(errors == {}, BehaviorStatuses(catalog.behaviors, st.observed), errors)
  }

  // ----- the loops -----

  method CheckProofs(entries: seq<Json>, shard: Fields, lane: Lane, expected: ExpectedProofs, start: State)
    returns (st: State)
    ensures st == TakeProofs(entries, shard, lane, expected, start)
  {
    hide EntryErrors;
    var errors, observed := start.errors, start.observed;
    for k := 0 to |entries|
      invariant State(errors, observed, start.inventory) == TakeProofs(entries[..k], shard, lane, expected, start)
    {
      assert entries[..k + 1][..k] == entries[..k];
      var id := ProofId(entries[k]);
      if id.None? {
        errors := errors + {InLane(lane.name, MalformedProof)};
        continue;
      }
      if id.value in observed {
        errors := errors + {DuplicateProof(id.value)};
      }
      errors := errors + EntryErrors(entries[k].fields, id.value, shard, lane, expected);
      observed := observed[id.value := StatusOf(entries[k].fields)];
    }
    assert entries[..|entries|] == entries;
    st := State(errors, observed, start.inventory);
  }

  method CheckCases(cases: seq<Json>) returns (names: seq<string>, problems: set<LaneProblem>)
    ensures names == CaseNames(cases) && problems == AllCaseProblems(cases)
  {
    names, problems := [], {};
    for k := 0 to |cases|
      invariant names == CaseNames(cases[..k]) && problems == AllCaseProblems(cases[..k])
    {
      assert cases[..k + 1][..k] == cases[..k];
      problems := problems + CaseProblems(cases[k]);
      var name := CaseName(cases[k]);
      if name.Some? {
        names := names + [name.value];
      }
    }
    assert cases[..|cases|] == cases;
  }

  method CheckShard(shard: Fields, lane: Lane, run: Run, expected: ExpectedProofs, start: State) returns (st: State)
    ensures st == TakeShard(shard, lane, run, expected, start)
  {
    hide ShardProblems, TakeProofs;
    st := start.(errors := start.errors + InLaneAll(lane.name, ShardProblems(shard, lane, run)));
    st := CheckProofs(ItemsOf(Get(shard, "proofs")), shard, lane, expected, st);
    var names, problems := CheckCases(ItemsOf(Get(shard, "inventory_cases")));
    if !Distinct(names) {
      problems := problems + {DuplicateCases};
    }
    st := st.(errors := st.errors + InLaneAll(lane.name, problems), inventory := st.inventory[lane.name := names]);
  }

  method EmptyLanes(lanes: seq<Lane>) returns (byLane: map<string, seq<Fields>>)
    ensures forall name :: name in byLane <==> KnownLane(lanes, Text(name))
    ensures forall name :: name in byLane ==> byLane[name] == []
  {
    byLane := map[];
    for k := 0 to |lanes|
      invariant forall name :: name in byLane <==> exists j :: 0 <= j < k && lanes[j].name == name
      invariant forall name :: name in byLane ==> byLane[name] == []
    {
      byLane := byLane[lanes[k].name := []];
    }
  }

  lemma LanesAreKnown(lanes: seq<Lane>)
    ensures forall k :: 0 <= k < |lanes| ==> KnownLane(lanes, Text(lanes[k].name))
  {
  }

  /** Shards by lane, and the errors of those that reach none. */
  method SortShards(shards: seq<Json>, lanes: seq<Lane>) returns (byLane: map<string, seq<Fields>>, errors: Errors)
    ensures errors == AllIntakeErrors(shards, lanes)
    ensures forall k :: 0 <= k < |lanes| ==>
              lanes[k].name in byLane && byLane[lanes[k].name] == ShardsOf(shards, lanes[k].name)
  {
    hide KnownLane;
    byLane := EmptyLanes(lanes);
    errors := {};
    for s := 0 to |shards|
      invariant errors == AllIntakeErrors(shards[..s], lanes)
      invariant forall name :: name in byLane <==> KnownLane(lanes, Text(name))
      invariant forall name :: name in byLane ==> byLane[name] == ShardsOf(shards[..s], name)
    {
      assert shards[..s + 1][..s] == shards[..s];
      var shard := shards[s];
      if !shard.Obj? {
        errors := errors + {NotAnObject};
        continue;
      }
      var claimed := Get(shard.fields, "lane");
      OnlyTextIsKnown(lanes, claimed);
      if !claimed.Text? || claimed.text !in byLane {
        errors := errors + {UnexpectedLane(claimed)};
        continue;
      }
      byLane := byLane[claimed.text := byLane[claimed.text] + [shard.fields]];
    }
    assert shards[..|shards|] == shards;
    LanesAreKnown(lanes);
  }

  lemma OnlyTextIsKnown(lanes: seq<Lane>, claimed: Json)
    ensures KnownLane(lanes, claimed) ==> claimed.Text?
  {
  }

  method JoinLanes(lanes: seq<Lane>, shards: seq<Json>, byLane: map<string, seq<Fields>>, run: Run,
                   expected: ExpectedProofs, start: State)
    returns (st: State)
    requires forall k :: 0 <= k < |lanes| ==>
               lanes[k].name in byLane && byLane[lanes[k].name] == ShardsOf(shards, lanes[k].name)
    ensures st == TakeLanes(lanes, shards, run, expected, start)
  {
    hide TakeShard, ShardsOf;
    st := start;
    for k := 0 to |lanes|
      invariant st == TakeLanes(lanes[..k], shards, run, expected, start)
    {
      var lane := lanes[k];
      assert lanes[..k + 1][..k] == lanes[..k];
      var laneShards := byLane[lane.name];
      if |laneShards| != 1 {
        st := st.(errors := st.errors + {InLane(lane.name, ShardCount(|laneShards|))});
        continue;
      }
      st := CheckShard(laneShards[0], lane, run, expected, st);
    }
    assert lanes[..|lanes|] == lanes;
  }

  method CheckInventories(lanes: seq<Lane>, inventory: map<string, seq<string>>) returns (errors: Errors)
    ensures errors == InventoryErrors(lanes, inventory)
  {
    hide InventoryProblems, InLaneAll;
    errors := {};
    for k := 0 to |lanes|
      invariant errors == InventoryErrors(lanes[..k], inventory)
    {
      assert lanes[..k + 1][..k] == lanes[..k];
      errors := errors + InLaneAll(lanes[k].name, InventoryProblems(lanes[k], inventory));
    }
    assert lanes[..|lanes|] == lanes;
  }

  method AggregateEvidence(catalog: Catalog, shards: seq<Json>, run: Run, jobs: map<string, string>) returns (r: Aggregate)
    ensures r == AggregateOf(catalog, shards, run, jobs)
  {
    hide TakeLanes, OpeningErrors, AllIntakeErrors, ShardsOf, InventoryErrors, ProofJoinErrors;
    var byLane, intake := SortShards(shards, catalog.lanes);
    var expected := ExpectedOf(catalog.behaviors);
    var start := State(OpeningErrors(catalog, run, jobs) + intake, map[], map[]);
    var st := JoinLanes(catalog.lanes, shards, byLane, run, expected, start);
    var inventories := CheckInventories(catalog.lanes, st.inventory);
    var errors := st.errors + ProofJoinErrors(expected, st.observed) + inventories;
    r := Aggregate(errors == {}, BehaviorStatuses(catalog.behaviors, st.observed), errors);
  }
}
