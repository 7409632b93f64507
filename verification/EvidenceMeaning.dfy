/**
 What a passing aggregate means, spelled out: the jobs, the run, every field of every shard, and every field of every
 proof entry, with no reference to the checks of the aggregation.
 */
module EvidenceMeaning {
  import opened Evidence
  import opened EvidenceCompleteness
  import opened EvidenceTheorems
  import opened Wrappers

  predicate Says(fields: Fields, key: string, value: Json) {
    key in fields && fields[key] == value
  }

  predicate SaysText(fields: Fields, key: string) {
    key in fields && fields[key].Text?
  }

  predicate SaysTexts(fields: Fields, key: string, texts: seq<string>) {
    && key in fields && fields[key].Arr? && |fields[key].items| == |texts|
    && forall k :: 0 <= k < |texts| ==> fields[key].items[k] == Text(texts[k])
  }

  // ----- the catalog's proofs -----

  predicate NamesProof(b: Behavior, from: nat, id: string) {
    exists j :: from <= j < |b.proofs| && b.proofs[j].id == id
  }

  /** The last proof with this identifier, and its behaviour. */
  ghost predicate IsExpected(behaviors: seq<Behavior>, id: string, e: Expected) {
    exists i, j: nat ::
      && 0 <= i < |behaviors| && j < |behaviors[i].proofs| && behaviors[i].proofs[j].id == id
      && e == Expected(behaviors[i].id, behaviors[i].proofs[j])
      && !NamesProof(behaviors[i], j + 1, id) && forall k :: i < k < |behaviors| ==> !NamesProof(behaviors[k], 0, id)
  }

  // ----- one proof entry -----

  const RUST_KEYS: set<string> := {"behavior_id", "proof_id", "kind", "selector", "status", "duration_ms", "return_code", "observed",
    "command", "discovery_command"}

  const SEMANTIC_KEYS: set<string> := {"behavior_id", "proof_id", "kind", "selector", "status", "duration_ms", "return_code", "observed",
    "command", "inventory_command"}

  /** The test was found once, ran once and passed, by the commands of the catalog. */
  predicate RustPassed(entry: Fields, proof: Proof) {
    && entry.Keys == RUST_KEYS && Says(entry, "kind", Text("rust-test"))
    && Says(entry, "observed", Obj(map["passed" := Int(1), "failed" := Int(0), "ignored" := Int(0), "discovered_exactly" := Int(1)]))
    && SaysTexts(entry, "discovery_command", proof.discoveryCommand) && SaysTexts(entry, "command", proof.command)
  }

  /** The scenario ran once and passed, by the commands of the lane. */
  predicate ScenarioPassed(entry: Fields, lane: Lane) {
    && entry.Keys == SEMANTIC_KEYS && Says(entry, "kind", Text("semantic-scenario"))
    && Says(entry, "observed", Obj(map["passed" := Int(1)]))
    && SaysTexts(entry, "inventory_command", lane.inventoryCommand) && SaysTexts(entry, "command", lane.executionCommand)
  }

  predicate EntryProves(entry: Fields, e: Expected, lane: Lane) {
    && Says(entry, "behavior_id", Text(e.behavior)) && Says(entry, "proof_id", Text(e.proof.id))
    && Says(entry, "selector", Text(e.proof.selector)) && Says(entry, "status", Text("passed"))
    && "duration_ms" in entry && entry["duration_ms"].Int? && entry["duration_ms"].number >= 0
    && Says(entry, "return_code", Int(0))
    && if e.proof.kind.RustTest? then RustPassed(entry, e.proof) else ScenarioPassed(entry, lane)
  }

  ghost predicate EntryMeets(entry: Fields, e: Expected, id: string, system: Json, lane: Lane, behaviors: seq<Behavior>) {
    && IsExpected(behaviors, id, e) && e.proof.lane == lane.name && EntryProves(entry, e, lane)
    && exists os :: os in e.proof.operatingSystems && system == Text(os)
  }

  /** The entry proves what the catalog expects under its identifier, in the right lane and on a supported system. */
  ghost predicate EntryIsGood(entry: Json, id: string, system: Json, lane: Lane, behaviors: seq<Behavior>) {
    entry.Obj? && exists e :: EntryMeets(entry.fields, e, id, system, lane, behaviors)
  }

  // ----- one shard -----

  const ALL_KEYS: set<string> := {"schema_version", "kind", "catalog_sha256", "repository", "sha", "run_id", "run_attempt", "lane",
    "operating_system", "status", "started_at", "finished_at", "tool_versions", "proofs", "inventory_cases", "errors"}

  /** The shard is of this run, no later attempt, on a system of the lane, and reports success without errors. */
  ghost predicate ShardIsOfRun(shard: Fields, lane: Lane, run: Run) {
    && shard.Keys == ALL_KEYS && Says(shard, "schema_version", Int(1)) && Says(shard, "kind", Text("sorotte-behavior-evidence-shard"))
    && Says(shard, "catalog_sha256", Text(run.digest)) && Says(shard, "repository", Text(run.repository))
    && Says(shard, "sha", Text(run.sha)) && Says(shard, "run_id", Text(run.runId)) && Says(shard, "lane", Text(lane.name))
    && shard["run_attempt"].Int? && 1 <= shard["run_attempt"].number
    && (run.attempt.Int? && 1 <= run.attempt.number ==> shard["run_attempt"].number <= run.attempt.number)
    && (exists os :: os in lane.operatingSystems && shard["operating_system"] == Text(os))
    && shard["started_at"].Text? && shard["finished_at"].Text?
    && shard["tool_versions"].Obj? && (forall tool :: tool in shard["tool_versions"].fields ==> shard["tool_versions"].fields[tool].Text?)
    && Says(shard, "status", Text("passed")) && Says(shard, "errors", Arr([]))
    && shard["proofs"].Arr? && shard["inventory_cases"].Arr?
  }

  lemma ShardIsChecked(shard: Fields, lane: Lane, run: Run)
    ensures ShardProblems(shard, lane, run) == {} <==> ShardIsOfRun(shard, lane, run)
  {
    hide ShardProblems;
    if ShardProblems(shard, lane, run) == {} {
      FieldsAreRight(shard, lane, run);
      ValuesAreRight(shard, lane, run);
    }
    if ShardIsOfRun(shard, lane, run) {
      NoShardProblem(shard, lane, run);
    }
  }

  lemma SchemaIsOne(value: Json)
    ensures EqualsInt(value, 1) && value.Int? <==> value == Int(1)
  {
  }

  lemma FieldsAreRight(shard: Fields, lane: Lane, run: Run)
    requires ShardProblems(shard, lane, run) == {}
    ensures shard.Keys == ALL_KEYS && Says(shard, "schema_version", Int(1)) && Says(shard, "kind", Text("sorotte-behavior-evidence-shard"))
    ensures Says(shard, "catalog_sha256", Text(run.digest)) && Says(shard, "repository", Text(run.repository))
    ensures Says(shard, "sha", Text(run.sha)) && Says(shard, "run_id", Text(run.runId)) && Says(shard, "lane", Text(lane.name))
  {
    hide EqualsInt, AllTexts, TextMap, IsTextIn, ValidAttempt;
    var all := ShardProblems(shard, lane, run);
    assert shard.Keys != SHARD_KEYS ==> WrongShardFields in all;
    assert !EqualsInt(Get(shard, "schema_version"), 1) ==> WrongField("schema_version") in all;
    assert !Get(shard, "schema_version").Int? ==> SchemaNotInteger in all;
    SchemaIsOne(Get(shard, "schema_version"));
    assert Get(shard, "kind") != Text("sorotte-behavior-evidence-shard") ==> WrongField("kind") in all;
    assert Get(shard, "catalog_sha256") != Text(run.digest) ==> WrongField("catalog_sha256") in all;
    assert Get(shard, "repository") != Text(run.repository) ==> WrongField("repository") in all;
    assert Get(shard, "sha") != Text(run.sha) ==> WrongField("sha") in all;
    assert Get(shard, "run_id") != Text(run.runId) ==> WrongField("run_id") in all;
    assert Get(shard, "lane") != Text(lane.name) ==> WrongField("lane") in all;
  }

  ghost predicate ValuesSay(shard: Fields, lane: Lane, run: Run) {
    var attempt, system := Get(shard, "run_attempt"), Get(shard, "operating_system");
    && attempt.Int? && 1 <= attempt.number && (run.attempt.Int? && 1 <= run.attempt.number ==> attempt.number <= run.attempt.number)
    && (exists os :: os in lane.operatingSystems && system == Text(os))
    && Get(shard, "started_at").Text? && Get(shard, "finished_at").Text?
    && TextMap(Get(shard, "tool_versions")) && Get(shard, "status") == Text("passed") && Get(shard, "errors") == Arr([])
    && Get(shard, "proofs").Arr? && Get(shard, "inventory_cases").Arr?
  }

  lemma ValuesAreRight(shard: Fields, lane: Lane, run: Run)
    requires ShardProblems(shard, lane, run) == {}
    ensures ValuesSay(shard, lane, run)
  {
    hide EqualsInt, AllTexts, TextMap;
    var all := ShardProblems(shard, lane, run);
    var attempt, errors := Get(shard, "run_attempt"), Get(shard, "errors");
    var errorsOk := errors.Arr? && AllTexts(errors.items);
    assert !ValidAttempt(attempt) ==> BadAttempt in all;
    assert ValidAttempt(attempt) && ValidAttempt(run.attempt) && attempt.number > run.attempt.number ==> NewerAttempt in all;
    assert !IsTextIn(Get(shard, "operating_system"), lane.operatingSystems) ==> WrongOperatingSystem in all;
    assert !Get(shard, "started_at").Text? || !Get(shard, "finished_at").Text? ==> BadTimestamps in all;
    assert !TextMap(Get(shard, "tool_versions")) ==> BadToolVersions in all;
    assert !errorsOk ==> BadErrors in all;
    assert errorsOk && Get(shard, "status") == Text(PASSED) && errors.items != [] ==> PassedWithErrors in all;
    assert Get(shard, "status") != Text(PASSED) ==> NotPassed in all;
    assert !Get(shard, "proofs").Arr? ==> ProofsNotArray in all;
    assert !Get(shard, "inventory_cases").Arr? ==> CasesNotArray in all;
  }

  lemma NoShardProblem(shard: Fields, lane: Lane, run: Run)
    requires ShardIsOfRun(shard, lane, run)
    ensures ShardProblems(shard, lane, run) == {}
  {
    SchemaIsOne(Get(shard, "schema_version"));
  }

  // ----- the checks of one entry -----

  lemma TextsAre(value: Json, texts: seq<string>)
    ensures value == TextsOf(texts) <==>
            value.Arr? && |value.items| == |texts| && forall k :: 0 <= k < |texts| ==> value.items[k] == Text(texts[k])
  {
    if value.Arr? && |value.items| == |texts| && forall k :: 0 <= k < |texts| ==> value.items[k] == Text(texts[k]) {
      assert value.items == TextsOf(texts).items;
    }
  }

  lemma ObservedAre(kind: ProofKind, observed: Fields)
    ensures ObservedPassing(kind, observed) && observed.Keys == ObservedKeys(kind) && AllIntegers(observed) <==>
            observed == if kind.RustTest? then map["passed" := Int(1), "failed" := Int(0), "ignored" := Int(0),
              "discovered_exactly" := Int(1)]
                        else map["passed" := Int(1)]
  {
    var right: Fields :=
      if kind.RustTest? then map["passed" := Int(1), "failed" := Int(0), "ignored" := Int(0), "discovered_exactly" := Int(1)]
      else map["passed" := Int(1)];
    NamesDiffer();
    if ObservedPassing(kind, observed) && AllIntegers(observed) {
      assert observed.Keys == right.Keys;
      forall key | key in observed
        ensures observed[key] == right[key]
      {
        IntegerIs(observed[key], if key in {"failed", "ignored"} then 0 else 1);
      }
      assert observed == right;
    }
  }

  lemma NamesDiffer()
    ensures "passed" !in {"failed", "ignored"} && "discovered_exactly" !in {"failed", "ignored"}
    ensures "failed" in {"failed", "ignored"} && "ignored" in {"failed", "ignored"}
  {
    assert "passed"[0] == 'p' && "failed"[0] == 'f' && "ignored"[0] == 'i' && "discovered_exactly"[0] == 'd';
  }

  lemma IntegerIs(value: Json, n: int)
    ensures EqualsInt(value, n) && value.Int? <==> value == Int(n)
  {
  }

  ghost predicate ScalarsSay(entry: Fields, e: Expected) {
    && entry.Keys == (if e.proof.kind.RustTest? then RUST_KEYS else SEMANTIC_KEYS)
    && Get(entry, "behavior_id") == Text(e.behavior) && Get(entry, "proof_id") == Text(e.proof.id)
    && Get(entry, "kind") == Text(if e.proof.kind.RustTest? then "rust-test" else "semantic-scenario")
    && Get(entry, "selector") == Text(e.proof.selector)
    && Get(entry, "duration_ms").Int? && Get(entry, "duration_ms").number >= 0
  }

  ghost predicate ResultsSay(entry: Fields, e: Expected, lane: Lane) {
    && Get(entry, "return_code") == Int(0) && Get(entry, "observed").Obj?
    && ObservedPassing(e.proof.kind, Get(entry, "observed").fields) && Get(entry, "observed").fields.Keys == ObservedKeys(e.proof.kind)
    && AllIntegers(Get(entry, "observed").fields)
    && (e.proof.kind.RustTest? ==>
          Get(entry, "discovery_command") == TextsOf(e.proof.discoveryCommand) && Get(entry, "command") == TextsOf(e.proof.command))
    && (!e.proof.kind.RustTest? ==>
          Get(entry, "inventory_command") == TextsOf(lane.inventoryCommand) && Get(entry, "command") == TextsOf(lane.executionCommand))
  }

  lemma ScalarsAreRight(entry: Fields, e: Expected, lane: Lane)
    requires ProofProblems(entry, e, lane) == {}
    ensures ScalarsSay(entry, e)
  {
    hide EqualsInt, ObservedPassing, ObservedKeys, AllIntegers, TextsOf;
    var all := ProofProblems(entry, e, lane);
    assert entry.Keys != COMMON_KEYS + {if e.proof.kind == RustTest then "discovery_command" else "inventory_command"} ==>
      WrongFields in all;
    assert Get(entry, "behavior_id") != Text(e.behavior) ==> WrongScalar("behavior_id") in all;
    assert Get(entry, "proof_id") != Text(e.proof.id) ==> WrongScalar("proof_id") in all;
    assert Get(entry, "kind") != Text(KindName(e.proof.kind)) ==> WrongScalar("kind") in all;
    assert Get(entry, "selector") != Text(e.proof.selector) ==> WrongScalar("selector") in all;
    assert !Get(entry, "duration_ms").Int? || Get(entry, "duration_ms").number < 0 ==> BadDuration in all;
  }

  lemma ResultsAreRight(entry: Fields, e: Expected, lane: Lane)
    requires ProofProblems(entry, e, lane) == {} && Get(entry, "status") == Text(PASSED)
    ensures ResultsSay(entry, e, lane)
  {
    hide EqualsInt, ObservedPassing, ObservedKeys, AllIntegers, TextsOf, KindName;
    var all, proof := ProofProblems(entry, e, lane), e.proof;
    var rust := proof.kind == RustTest;
    var observed := if Get(entry, "observed").Obj? then Get(entry, "observed").fields else map[];
    assert !Get(entry, "return_code").Int? ==> BadReturnCode in all;
    assert !Get(entry, "observed").Obj? ==> BadObserved in all;
    assert rust && Get(entry, "discovery_command") != TextsOf(proof.discoveryCommand) ==> WrongDiscovery in all;
    assert rust && Get(entry, "command") != TextsOf(proof.command) ==> WrongCommand in all;
    assert !rust && Get(entry, "inventory_command") != TextsOf(lane.inventoryCommand) ==> WrongInventoryCommand in all;
    assert !rust && Get(entry, "command") != TextsOf(lane.executionCommand) ==> WrongCommand in all;
    assert !(observed.Keys == ObservedKeys(proof.kind) && AllIntegers(observed)) ==> MalformedObservations in all;
    assert !EqualsInt(Get(entry, "return_code"), 0) || !ObservedPassing(proof.kind, observed) ==> ContradictsPassing in all;
    IntegerIs(Get(entry, "return_code"), 0);
  }

  lemma NoProofProblem(entry: Fields, e: Expected, lane: Lane)
    requires ScalarsSay(entry, e) && ResultsSay(entry, e, lane) && Get(entry, "status") == Text(PASSED)
    ensures ProofProblems(entry, e, lane) == {}
  {
    hide ObservedPassing, ObservedKeys, AllIntegers, TextsOf;
    IntegerIs(Get(entry, "return_code"), 0);
  }

  lemma EntryProvesIs(entry: Fields, e: Expected, lane: Lane)
    ensures EntryProves(entry, e, lane) <==> ScalarsSay(entry, e) && ResultsSay(entry, e, lane) && Get(entry, "status") == Text("passed")
  {
    hide ObservedPassing, ObservedKeys, AllIntegers, TextsOf;
    if Get(entry, "observed").Obj? {
      ObservedAre(e.proof.kind, Get(entry, "observed").fields);
    }
    TextsAre(Get(entry, "discovery_command"), e.proof.discoveryCommand);
    TextsAre(Get(entry, "command"), e.proof.command);
    TextsAre(Get(entry, "inventory_command"), lane.inventoryCommand);
    TextsAre(Get(entry, "command"), lane.executionCommand);
  }

  /** An entry without problems that claims to have passed is one that proves, and no other. */
  lemma EntryIsChecked(entry: Fields, e: Expected, lane: Lane)
    ensures ProofProblems(entry, e, lane) == {} && Get(entry, "status") == Text("passed") <==> EntryProves(entry, e, lane)
  {
    hide ProofProblems, EntryProves, ScalarsSay, ResultsSay;
    EntryProvesIs(entry, e, lane);
    if ProofProblems(entry, e, lane) == {} && Get(entry, "status") == Text("passed") {
      ScalarsAreRight(entry, e, lane);
      ResultsAreRight(entry, e, lane);
    }
    if EntryProves(entry, e, lane) {
      NoProofProblem(entry, e, lane);
    }
  }

  // ----- what the catalog expects -----

  /** Of the first `k` proofs, the last one with this identifier. */
  ghost predicate LastNamed(b: Behavior, k: nat, id: string, e: Expected)
    requires k <= |b.proofs|
  {
    exists j :: 0 <= j < k && b.proofs[j].id == id && e == Expected(b.id, b.proofs[j]) && forall m :: j < m < k ==> b.proofs[m].id != id
  }

  lemma {:induction false} ProofsOfBehavior(b: Behavior, k: nat, before: ExpectedProofs, id: string, e: Expected)
    requires k <= |b.proofs|
    ensures (id in BehaviorProofs(b, k, before) && BehaviorProofs(b, k, before)[id] == e) <==>
              if exists j :: 0 <= j < k && b.proofs[j].id == id then LastNamed(b, k, id, e)
              else id in before && before[id] == e
  {
    if k > 0 {
      ProofsOfBehavior(b, k - 1, before, id, e);
    }
  }

  lemma {:induction false} ExpectedIs(behaviors: seq<Behavior>, id: string, e: Expected)
    ensures (id in ExpectedOf(behaviors) && ExpectedOf(behaviors)[id] == e) <==> IsExpected(behaviors, id, e)
  {
    hide BehaviorProofs, IsExpected;
    if behaviors != [] {
      var front, last := behaviors[..|behaviors| - 1], behaviors[|behaviors| - 1];
      ExpectedIs(front, id, e);
      ProofsOfBehavior(last, |last.proofs|, ExpectedOf(front), id, e);
      if NamesProof(last, 0, id) {
        LastExpected(behaviors, id, e);
      } else {
        EarlierExpected(behaviors, id, e);
      }
    } else {
      NothingExpected(id, e);
    }
  }

  lemma NothingExpected(id: string, e: Expected)
    ensures !IsExpected([], id, e)
  {
  }

  lemma LastExpected(behaviors: seq<Behavior>, id: string, e: Expected)
    requires behaviors != [] && NamesProof(behaviors[|behaviors| - 1], 0, id)
    ensures var last := behaviors[|behaviors| - 1];
            IsExpected(behaviors, id, e) <==> LastNamed(last, |last.proofs|, id, e)
  {
    var n := |behaviors| - 1;
    var last := behaviors[n];
    if IsExpected(behaviors, id, e) {
      var i, j: nat :| 0 <= i < |behaviors| && j < |behaviors[i].proofs| && behaviors[i].proofs[j].id == id
        && e == Expected(behaviors[i].id, behaviors[i].proofs[j])
        && !NamesProof(behaviors[i], j + 1, id) && forall k :: i < k < |behaviors| ==> !NamesProof(behaviors[k], 0, id);
      assert i == n;
    }
    if LastNamed(last, |last.proofs|, id, e) {
      var j: nat :| j < |last.proofs| && last.proofs[j].id == id && e == Expected(last.id, last.proofs[j])
        && forall m :: j < m < |last.proofs| ==> last.proofs[m].id != id;
      assert !NamesProof(behaviors[n], j + 1, id);
    }
  }

  lemma EarlierExpected(behaviors: seq<Behavior>, id: string, e: Expected)
    requires behaviors != [] && !NamesProof(behaviors[|behaviors| - 1], 0, id)
    ensures IsExpected(behaviors, id, e) <==> IsExpected(behaviors[..|behaviors| - 1], id, e)
  {
    hide NamesProof;
    var front, n := behaviors[..|behaviors| - 1], |behaviors| - 1;
    if IsExpected(behaviors, id, e) {
      var i, j: nat :| 0 <= i < |behaviors| && j < |behaviors[i].proofs| && behaviors[i].proofs[j].id == id
        && e == Expected(behaviors[i].id, behaviors[i].proofs[j])
        && !NamesProof(behaviors[i], j + 1, id) && forall k :: i < k < |behaviors| ==> !NamesProof(behaviors[k], 0, id);
      NamedAt(behaviors[i], j, id);
      assert i < n && front[i] == behaviors[i];
    }
    if IsExpected(front, id, e) {
      var i, j: nat :| 0 <= i < |front| && j < |front[i].proofs| && front[i].proofs[j].id == id
        && e == Expected(front[i].id, front[i].proofs[j])
        && !NamesProof(front[i], j + 1, id) && forall k :: i < k < |front| ==> !NamesProof(front[k], 0, id);
      assert front[i] == behaviors[i];
      forall k | i < k < |behaviors|
        ensures !NamesProof(behaviors[k], 0, id)
      {
        assert k < n ==> front[k] == behaviors[k];
      }
    }
  }

  lemma NamedAt(b: Behavior, j: nat, id: string)
    requires j < |b.proofs| && b.proofs[j].id == id
    ensures NamesProof(b, 0, id)
  {
  }

  // ----- lanes -----

  predicate Claims(shard: Json, lane: string) {
    shard.Obj? && Says(shard.fields, "lane", Text(lane))
  }

  /** One shard claims the lane, and no other does. */
  predicate OnlyClaim(shards: seq<Json>, k: nat, lane: string) {
    k < |shards| && Claims(shards[k], lane) && forall j :: 0 <= j < |shards| && j != k ==> !Claims(shards[j], lane)
  }

  predicate HasId(entry: Json, id: string) {
    entry.Obj? && Says(entry.fields, "proof_id", Text(id))
  }

  /** Every entry proves something expected in this lane, and no two prove the same. */
  ghost predicate EntriesAreGood(entries: seq<Json>, system: Json, lane: Lane, behaviors: seq<Behavior>) {
    && (forall k :: 0 <= k < |entries| ==> ProvesSomething(entries[k], system, lane, behaviors))
    && forall j, k, id :: 0 <= j < k < |entries| ==> !(HasId(entries[j], id) && HasId(entries[k], id))
  }

  ghost predicate ProvesSomething(entry: Json, system: Json, lane: Lane, behaviors: seq<Behavior>) {
    exists id :: EntryIsGood(entry, id, system, lane, behaviors)
  }

  predicate IsCase(c: Json, name: string) {
    c == Obj(map["scenario" := Text(name), "status" := Text("passed")])
  }

  predicate AreCases(cases: seq<Json>, names: seq<string>) {
    |cases| == |names| && forall k :: 0 <= k < |cases| ==> IsCase(cases[k], names[k])
  }

  /** The passing cases are the lane's scenarios, each once, in any order; there are none in another lane. */
  ghost predicate CasesAreGood(cases: seq<Json>, lane: Lane) {
    exists names ::
      && AreCases(cases, names) && (forall j, k :: 0 <= j < k < |names| ==> names[j] != names[k])
      && if lane.semantic then multiset(names) == multiset(lane.scenarios) else names == []
  }

  ghost predicate ShardIsGood(shard: Fields, lane: Lane, run: Run, behaviors: seq<Behavior>) {
    && ShardIsOfRun(shard, lane, run)
    && EntriesAreGood(shard["proofs"].items, shard["operating_system"], lane, behaviors)
    && CasesAreGood(shard["inventory_cases"].items, lane)
  }

  ghost predicate LaneIsProven(lane: Lane, shards: seq<Json>, run: Run, behaviors: seq<Behavior>) {
    exists k: nat :: OnlyClaim(shards, k, lane.name) && ShardIsGood(shards[k].fields, lane, run, behaviors)
  }

  /** Some shard that claims the lane has an entry with this identifier. */
  ghost predicate IsReported(shards: seq<Json>, id: string, lane: string) {
    exists k, m :: 0 <= k < |shards| && Claims(shards[k], lane) && "proofs" in shards[k].fields &&
      shards[k].fields["proofs"].Arr? && 0 <= m < |shards[k].fields["proofs"].items| && HasId(shards[k].fields["proofs"].items[m], id)
  }

  /** The whole evidence: run, jobs, shards, lanes and proofs. */
  ghost predicate IsProven(catalog: Catalog, shards: seq<Json>, run: Run, jobs: map<string, string>) {
    && run.attempt.Int? && run.attempt.number >= 1
    && jobs.Keys == catalog.requiredJobs && (forall job :: job in jobs ==> jobs[job] == "success")
    && (forall k :: 0 <= k < |shards| ==> ClaimsSome(shards[k], catalog.lanes))
    && (forall lane :: lane in catalog.lanes ==> LaneIsProven(lane, shards, run, catalog.behaviors))
    && forall id, e :: IsExpected(catalog.behaviors, id, e) ==> IsReported(shards, id, e.proof.lane)
  }

  ghost predicate ClaimsSome(shard: Json, lanes: seq<Lane>) {
    exists lane :: lane in lanes && Claims(shard, lane.name)
  }

  lemma OpeningIsChecked(catalog: Catalog, run: Run, jobs: map<string, string>)
    ensures OpeningErrors(catalog, run, jobs) == {} <==>
            && run.attempt.Int? && run.attempt.number >= 1
            && jobs.Keys == catalog.requiredJobs && forall job :: job in jobs ==> jobs[job] == "success"
  {
    var all := OpeningErrors(catalog, run, jobs);
    var missing, unexpected := catalog.requiredJobs - jobs.Keys, jobs.Keys - catalog.requiredJobs;
    assert !ValidAttempt(run.attempt) ==> InvalidExpectedAttempt in all;
    assert missing != {} ==> MissingJobs(missing) in all;
    assert unexpected != {} ==> UnexpectedJobs(unexpected) in all;
    assert forall job :: job in jobs && jobs[job] != "success" ==> JobConclusion(job, jobs[job]) in all;
    if missing == {} && unexpected == {} {
      forall job
        ensures job in jobs.Keys <==> job in catalog.requiredJobs
      {
        assert job in catalog.requiredJobs && job !in jobs.Keys ==> job in missing;
        assert job in jobs.Keys && job !in catalog.requiredJobs ==> job in unexpected;
      }
      assert jobs.Keys == catalog.requiredJobs;
    }
  }

  lemma {:induction false} IntakeIsChecked(shards: seq<Json>, lanes: seq<Lane>)
    ensures AllIntakeErrors(shards, lanes) == {} <==> forall k :: 0 <= k < |shards| ==> ClaimsSome(shards[k], lanes)
  {
    if shards != [] {
      var last, front := shards[|shards| - 1], shards[..|shards| - 1];
      IntakeIsChecked(front, lanes);
      ClaimIsChecked(last, lanes);
      if AllIntakeErrors(shards, lanes) == {} {
        NoneOfSum(AllIntakeErrors(front, lanes), IntakeErrors(last, lanes));
        assert forall k :: 0 <= k < |front| ==> front[k] == shards[k];
      } else {
        assert forall k :: 0 <= k < |front| ==> front[k] == shards[k];
      }
    }
  }

  lemma ClaimIsChecked(shard: Json, lanes: seq<Lane>)
    ensures IntakeErrors(shard, lanes) == {} <==> ClaimsSome(shard, lanes)
  {
    if IntakeErrors(shard, lanes) == {} {
      var k :| 0 <= k < |lanes| && lanes[k].name == Get(shard.fields, "lane").text;
      assert lanes[k] in lanes && Claims(shard, lanes[k].name);
    }
    if ClaimsSome(shard, lanes) {
      var lane :| lane in lanes && Claims(shard, lane.name);
      var k :| 0 <= k < |lanes| && lanes[k] == lane;
    }
  }

  lemma {:induction false} NoneClaims(shards: seq<Json>, lane: string)
    ensures ShardsOf(shards, lane) == [] <==> forall k :: 0 <= k < |shards| ==> !Claims(shards[k], lane)
  {
    if shards != [] {
      NoneClaims(shards[..|shards| - 1], lane);
    }
  }

  lemma {:induction false} OneClaims(shards: seq<Json>, lane: string)
    ensures |ShardsOf(shards, lane)| == 1 <==> exists k: nat :: OnlyClaim(shards, k, lane)
    ensures forall k: nat :: OnlyClaim(shards, k, lane) ==> ShardsOf(shards, lane) == [shards[k].fields]
  {
    hide Claims;
    if shards != [] {
      var last, front := shards[|shards| - 1], shards[..|shards| - 1];
      var n := |front|;
      OneClaims(front, lane);
      NoneClaims(front, lane);
      ClaimsIs(last, lane);
      assert forall k :: 0 <= k < n ==> front[k] == shards[k];
      if Claims(last, lane) {
        assert (forall k :: 0 <= k < n ==> !Claims(front[k], lane)) <==> OnlyClaim(shards, n, lane);
        assert forall k: nat :: OnlyClaim(shards, k, lane) ==> k == n;
      } else {
        forall k: nat
          ensures OnlyClaim(shards, k, lane) <==> OnlyClaim(front, k, lane)
        {
          if OnlyClaim(front, k, lane) {
            assert forall j :: 0 <= j < |shards| && j != k ==> !Claims(shards[j], lane);
          }
        }
      }
    }
  }

  lemma ClaimsIs(shard: Json, lane: string)
    ensures Claims(shard, lane) <==> shard.Obj? && Get(shard.fields, "lane") == Text(lane)
  {
  }

  lemma IdIs(entry: Json, id: string)
    ensures HasId(entry, id) <==> ProofId(entry) == Some(id)
  {
  }

  lemma EntryIsGoodIs(entry: Json, shard: Fields, lane: Lane, behaviors: seq<Behavior>)
    ensures PassingEntry(entry, shard, lane, ExpectedOf(behaviors)) <==>
      ProvesSomething(entry, Get(shard, "operating_system"), lane, behaviors)
  {
    hide ProofProblems, EntryProves, IsExpected, ExpectedOf;
    var expected := ExpectedOf(behaviors);
    if PassingEntry(entry, shard, lane, expected) {
      var id := ProofId(entry).value;
      var e := expected[id];
      ExpectedIs(behaviors, id, e);
      EntryIsChecked(entry.fields, e, lane);
      assert EntryMeets(entry.fields, e, id, Get(shard, "operating_system"), lane, behaviors);
      assert EntryIsGood(entry, id, Get(shard, "operating_system"), lane, behaviors);
    }
    if ProvesSomething(entry, Get(shard, "operating_system"), lane, behaviors) {
      var id :| EntryIsGood(entry, id, Get(shard, "operating_system"), lane, behaviors);
      var e :| EntryMeets(entry.fields, e, id, Get(shard, "operating_system"), lane, behaviors);
      ExpectedIs(behaviors, id, e);
      EntryIsChecked(entry.fields, e, lane);
      ExpectedHasId(behaviors, id, e);
      ProvenHasId(entry, e, lane);
      IdIs(entry, id);
    }
  }

  lemma ExpectedHasId(behaviors: seq<Behavior>, id: string, e: Expected)
    requires IsExpected(behaviors, id, e)
    ensures e.proof.id == id
  {
  }

  lemma ProvenHasId(entry: Json, e: Expected, lane: Lane)
    requires entry.Obj? && EntryProves(entry.fields, e, lane)
    ensures HasId(entry, e.proof.id) && Get(entry.fields, "status") == Text("passed")
  {
  }

  lemma {:induction false} CasesAre(cases: seq<Json>)
    ensures AllCaseProblems(cases) == {} <==> AreCases(cases, CaseNames(cases))
    ensures forall names :: AreCases(cases, names) ==> names == CaseNames(cases)
  {
    hide CaseProblems, CaseName, IsCase;
    if cases != [] {
      var last, front := cases[|cases| - 1], cases[..|cases| - 1];
      CasesAre(front);
      CaseIs(last);
      NamesAreFewer(front);
      if AllCaseProblems(cases) == {} {
        NoneOfSum(AllCaseProblems(front), CaseProblems(last));
      }
      forall names | AreCases(cases, names)
        ensures names == CaseNames(cases) && AllCaseProblems(cases) == {}
      {
        var n := |names| - 1;
        assert AreCases(front, names[..n]) && IsCase(last, names[n]);
        assert names == names[..n] + [names[n]];
      }
    }
  }

  lemma {:induction false} NamesAreFewer(cases: seq<Json>)
    ensures |CaseNames(cases)| <= |cases|
  {
    if cases != [] {
      NamesAreFewer(cases[..|cases| - 1]);
    }
  }

  lemma CaseIs(c: Json)
    ensures CaseProblems(c) == {} <==> exists name :: IsCase(c, name)
    ensures forall name :: IsCase(c, name) ==> CaseName(c) == Some(name) && CaseProblems(c) == {}
    ensures CaseProblems(c) == {} ==> CaseName(c).Some? && IsCase(c, CaseName(c).value)
  {
    if CaseProblems(c) == {} {
      var name := c.fields["scenario"].text;
      assert c.fields["status"] != Text(PASSED) ==> CaseFailed(name) in CaseProblems(c);
      assert c.fields == map["scenario" := Text(name), "status" := Text("passed")];
      assert IsCase(c, name);
    }
  }

  lemma CasesAreGoodIs(cases: seq<Json>, lane: Lane)
    ensures CasesAreGood(cases, lane) <==>
            && AllCaseProblems(cases) == {} && Distinct(CaseNames(cases))
            && if lane.semantic then multiset(CaseNames(cases)) == multiset(lane.scenarios) else CaseNames(cases) == []
  {
    hide AllCaseProblems, AreCases, CaseNames;
    CasesAre(cases);
  }

  lemma EntriesAreGoodIs(entries: seq<Json>, shard: Fields, lane: Lane, behaviors: seq<Behavior>)
    ensures EntriesAreGood(entries, Get(shard, "operating_system"), lane, behaviors) <==>
            && DistinctIds(entries)
            && forall entry :: entry in entries ==> PassingEntry(entry, shard, lane, ExpectedOf(behaviors))
  {
    hide PassingEntry, ProvesSomething, HasId, ProofId, ExpectedOf;
    var system := Get(shard, "operating_system");
    forall entry
      ensures PassingEntry(entry, shard, lane, ExpectedOf(behaviors)) <==> ProvesSomething(entry, system, lane, behaviors)
    {
      EntryIsGoodIs(entry, shard, lane, behaviors);
    }
    forall entry, id
      ensures HasId(entry, id) <==> ProofId(entry) == Some(id)
    {
      IdIs(entry, id);
    }
    if EntriesAreGood(entries, system, lane, behaviors) {
      forall entry | entry in entries
        ensures PassingEntry(entry, shard, lane, ExpectedOf(behaviors))
      {
        var k :| 0 <= k < |entries| && entries[k] == entry;
        assert ProvesSomething(entries[k], system, lane, behaviors);
      }
      forall j, k | 0 <= j < k < |entries|
        ensures ProofId(entries[j]) != ProofId(entries[k])
      {
        assert entries[j] in entries;
        PassingHasId(entries[j], shard, lane, ExpectedOf(behaviors));
        assert HasId(entries[j], ProofId(entries[j]).value);
        assert HasId(entries[k], ProofId(entries[j]).value) <==> ProofId(entries[k]) == Some(ProofId(entries[j]).value);
      }
    }
    if DistinctIds(entries) && forall entry :: entry in entries ==> PassingEntry(entry, shard, lane, ExpectedOf(behaviors)) {
      forall k | 0 <= k < |entries|
        ensures ProvesSomething(entries[k], system, lane, behaviors)
      {
        assert entries[k] in entries;
      }
      forall j, k, id | 0 <= j < k < |entries|
        ensures !(HasId(entries[j], id) && HasId(entries[k], id))
      {
        DifferentIds(entries, j, k);
      }
      assert EntriesAreGood(entries, system, lane, behaviors);
    }
  }

  lemma DifferentIds(entries: seq<Json>, j: nat, k: nat)
    requires DistinctIds(entries) && j < k < |entries|
    ensures ProofId(entries[j]) != ProofId(entries[k])
  {
    hide ProofId;
  }

  lemma PassingHasId(entry: Json, shard: Fields, lane: Lane, expected: ExpectedProofs)
    requires PassingEntry(entry, shard, lane, expected)
    ensures ProofId(entry).Some?
  {
    hide ProofProblems;
  }

  /** A lane that is sound and passes throughout is a proven lane. */
  lemma LaneIsChecked(lane: Lane, shards: seq<Json>, run: Run, behaviors: seq<Behavior>)
    ensures LaneIsProven(lane, shards, run, behaviors) <==>
            && SoundLane(lane, shards, run, ExpectedOf(behaviors)) && DistinctIds(EntriesOf(lane, shards))
            && (forall entry :: entry in EntriesOf(lane, shards) ==>
                  PassingEntry(entry, ShardsOf(shards, lane.name)[0], lane, ExpectedOf(behaviors)))
            && if lane.semantic then multiset(CasesOf(lane, shards)) == multiset(lane.scenarios) else CasesOf(lane, shards) == []
  {
    hide ShardProblems, ShardIsOfRun, EntriesAreGood, CasesAreGood, OnlyClaim, ShardsOf, PassingEntry, DistinctIds,
      AllCaseProblems, CaseNames,
      Distinct, ExpectedOf;
    OneClaims(shards, lane.name);
    if |ShardsOf(shards, lane.name)| == 1 {
      var shard := ShardsOf(shards, lane.name)[0];
      ShardIsChecked(shard, lane, run);
      ShardHasLists(shard, lane, run);
      EntriesAreGoodIs(ItemsOf(Get(shard, "proofs")), shard, lane, behaviors);
      CasesAreGoodIs(ItemsOf(Get(shard, "inventory_cases")), lane);
      if forall entry :: entry in EntriesOf(lane, shards) ==> PassingEntry(entry, shard, lane, ExpectedOf(behaviors)) {
        SoundnessIsPassing(lane, shards, run, ExpectedOf(behaviors));
      }
      var k: nat :| OnlyClaim(shards, k, lane.name);
      OnlyOne(shards, lane.name, k);
    }
  }

  lemma OnlyOne(shards: seq<Json>, lane: string, k: nat)
    requires OnlyClaim(shards, k, lane)
    ensures k < |shards| && shards[k].Obj?
    ensures forall other: nat :: OnlyClaim(shards, other, lane) ==> other == k
  {
  }

  lemma ShardHasLists(shard: Fields, lane: Lane, run: Run)
    ensures ShardIsOfRun(shard, lane, run) ==>
              && "proofs" in shard && shard["proofs"].Arr? && ItemsOf(Get(shard, "proofs")) == shard["proofs"].items
              && "inventory_cases" in shard && shard["inventory_cases"].Arr?
              && ItemsOf(Get(shard, "inventory_cases")) == shard["inventory_cases"].items
              && "operating_system" in shard && Get(shard, "operating_system") == shard["operating_system"]
  {
  }

  lemma SoundnessIsPassing(lane: Lane, shards: seq<Json>, run: Run, expected: ExpectedProofs)
    requires |ShardsOf(shards, lane.name)| == 1
    requires forall entry :: entry in EntriesOf(lane, shards) ==> PassingEntry(entry, ShardsOf(shards, lane.name)[0], lane, expected)
    ensures forall entry :: entry in EntriesOf(lane, shards) ==> SoundEntry(entry, ShardsOf(shards, lane.name)[0], lane, expected)
  {
    hide SoundEntry;
  }

  // ----- the whole evidence -----

  /** The entries of a lane's only shard report an identifier exactly when some shard that claims the lane does. */
  lemma ReportIs(lane: Lane, shards: seq<Json>, id: string)
    requires |ShardsOf(shards, lane.name)| == 1
    ensures ReportsId(EntriesOf(lane, shards), id) <==> IsReported(shards, id, lane.name)
  {
    hide ShardsOf, Claims, ProofId, HasId;
    OneClaims(shards, lane.name);
    var k: nat :| OnlyClaim(shards, k, lane.name);
    ClaimsIs(shards[k], lane.name);
    forall entry
      ensures HasId(entry, id) <==> ProofId(entry) == Some(id)
    {
      IdIs(entry, id);
    }
    assert EntriesOf(lane, shards) == ItemsOf(Get(shards[k].fields, "proofs"));
  }

  lemma SameLane(shard: Json, a: string, b: string)
    requires Claims(shard, a) && Claims(shard, b)
    ensures a == b
  {
  }

  lemma ReportedLaneIsKnown(shards: seq<Json>, lanes: seq<Lane>, id: string, name: string) returns (k: nat)
    requires IsReported(shards, id, name) && forall j :: 0 <= j < |shards| ==> ClaimsSome(shards[j], lanes)
    ensures k < |lanes| && lanes[k].name == name
  {
    hide HasId;
    var j, m :| 0 <= j < |shards| && Claims(shards[j], name) && "proofs" in shards[j].fields && shards[j].fields["proofs"].Arr?
      && 0 <= m < |shards[j].fields["proofs"].items| && HasId(shards[j].fields["proofs"].items[m], id);
    assert ClaimsSome(shards[j], lanes);
    var lane :| lane in lanes && Claims(shards[j], lane.name);
    SameLane(shards[j], name, lane.name);
    k :| 0 <= k < |lanes| && lanes[k] == lane;
  }

  lemma ProvenHasOneShard(lane: Lane, shards: seq<Json>, run: Run, behaviors: seq<Behavior>)
    requires LaneIsProven(lane, shards, run, behaviors)
    ensures |ShardsOf(shards, lane.name)| == 1
  {
    hide OnlyClaim, ShardIsGood;
    OneClaims(shards, lane.name);
  }

  lemma CompleteIsProven(catalog: Catalog, shards: seq<Json>, run: Run, jobs: map<string, string>)
    requires Complete(catalog, shards, run, jobs)
    ensures IsProven(catalog, shards, run, jobs)
  {
    hide SoundLane, OpeningErrors, AllIntakeErrors, PassingEntry, ShardsOf, EntriesOf, CasesOf, DistinctIds, LaneIsProven, ClaimsSome,
      IsExpected, ExpectedOf, IsReported, ReportsId;
    var expected := ExpectedOf(catalog.behaviors);
    OpeningIsChecked(catalog, run, jobs);
    IntakeIsChecked(shards, catalog.lanes);
    forall lane | lane in catalog.lanes
      ensures LaneIsProven(lane, shards, run, catalog.behaviors)
    {
      var k :| 0 <= k < |catalog.lanes| && catalog.lanes[k] == lane;
      assert DistinctIds(EntriesOf(catalog.lanes[k], shards));
      LaneIsChecked(lane, shards, run, catalog.behaviors);
    }
    forall id, e | IsExpected(catalog.behaviors, id, e)
      ensures IsReported(shards, id, e.proof.lane)
    {
      ExpectedIs(catalog.behaviors, id, e);
      var k :| 0 <= k < |catalog.lanes| && catalog.lanes[k].name == expected[id].proof.lane
        && ReportsId(EntriesOf(catalog.lanes[k], shards), id);
      assert catalog.lanes[k] in catalog.lanes;
      ProvenHasOneShard(catalog.lanes[k], shards, run, catalog.behaviors);
      ReportIs(catalog.lanes[k], shards, id);
    }
  }

  lemma ProvenIsComplete(catalog: Catalog, shards: seq<Json>, run: Run, jobs: map<string, string>)
    requires IsProven(catalog, shards, run, jobs)
    ensures Complete(catalog, shards, run, jobs)
  {
    hide SoundLane, OpeningErrors, AllIntakeErrors, PassingEntry, ShardsOf, EntriesOf, CasesOf, DistinctIds, LaneIsProven, ClaimsSome,
      IsExpected, ExpectedOf, IsReported, ReportsId;
    var expected := ExpectedOf(catalog.behaviors);
    OpeningIsChecked(catalog, run, jobs);
    IntakeIsChecked(shards, catalog.lanes);
    forall lane | lane in catalog.lanes
      ensures |ShardsOf(shards, lane.name)| == 1
      ensures SoundLane(lane, shards, run, expected) && DistinctIds(EntriesOf(lane, shards))
      ensures forall entry :: entry in EntriesOf(lane, shards) ==> PassingEntry(entry, ShardsOf(shards, lane.name)[0], lane, expected)
      ensures if lane.semantic then multiset(CasesOf(lane, shards)) == multiset(lane.scenarios) else CasesOf(lane, shards) == []
    {
      LaneIsChecked(lane, shards, run, catalog.behaviors);
      ProvenHasOneShard(lane, shards, run, catalog.behaviors);
    }
    forall id | id in expected
      ensures exists k :: 0 <= k < |catalog.lanes| && catalog.lanes[k].name == expected[id].proof.lane &&
                          ReportsId(EntriesOf(catalog.lanes[k], shards), id)
    {
      ExpectedIs(catalog.behaviors, id, expected[id]);
      assert IsExpected(catalog.behaviors, id, expected[id]);
      var k := ReportedLaneIsKnown(shards, catalog.lanes, id, expected[id].proof.lane);
      assert catalog.lanes[k] in catalog.lanes;
      ProvenHasOneShard(catalog.lanes[k], shards, run, catalog.behaviors);
      ReportIs(catalog.lanes[k], shards, id);
    }
  }

  /**
   The aggregate passes exactly when the evidence proves the catalog: the run's attempt is a positive number, the
   required jobs and no others are reported and all succeeded, each lane has one shard of this run with every field
   right, its entries prove what is expected in that lane and its cases are the lane's scenarios, and every expected
   proof is reported in its lane.
   */
  lemma PassesExactlyWhenProven(catalog: Catalog, shards: seq<Json>, run: Run, jobs: map<string, string>)
    requires forall j, k :: 0 <= j < k < |catalog.lanes| ==> catalog.lanes[j].name != catalog.lanes[k].name
    ensures AggregateOf(catalog, shards, run, jobs).passed <==> IsProven(catalog, shards, run, jobs)
  {
    hide AggregateOf, Complete, IsProven;
    PassesExactlyWhenComplete(catalog, shards, run, jobs);
    if Complete(catalog, shards, run, jobs) {
      CompleteIsProven(catalog, shards, run, jobs);
    }
    if IsProven(catalog, shards, run, jobs) {
      ProvenIsComplete(catalog, shards, run, jobs);
    }
  }

  /** In a passing aggregate every behaviour passes, except one without any proof. */
  lemma PassingBehaviors(catalog: Catalog, shards: seq<Json>, run: Run, jobs: map<string, string>)
    requires AggregateOf(catalog, shards, run, jobs).passed
    ensures var statuses := AggregateOf(catalog, shards, run, jobs).behaviors;
            |statuses| == |catalog.behaviors| && forall k :: 0 <= k < |statuses| ==>
              statuses[k] == (catalog.behaviors[k].id, catalog.behaviors[k].proofs != [])
  {
    hide Join, InventoryErrors, ProofJoinErrors;
    var observed := Join(catalog, shards, run, jobs).observed;
    var expected := ExpectedOf(catalog.behaviors);
    var st := Join(catalog, shards, run, jobs);
    NoneOfSum(st.errors + ProofJoinErrors(expected, observed), InventoryErrors(catalog.lanes, st.inventory));
    NoneOfSum(st.errors, ProofJoinErrors(expected, observed));
    JoinClean(expected, observed);
    forall k, proof | 0 <= k < |catalog.behaviors| && proof in catalog.behaviors[k].proofs
      ensures proof.id in observed && observed[proof.id] == PASSED
    {
      var j :| 0 <= j < |catalog.behaviors[k].proofs| && catalog.behaviors[k].proofs[j] == proof;
      ProofIsExpected(catalog.behaviors, k, j);
    }
  }

  lemma {:induction false} ProofIsKept(b: Behavior, k: nat, before: ExpectedProofs, id: string)
    requires k <= |b.proofs| && (id in before || exists j :: 0 <= j < k && b.proofs[j].id == id)
    ensures id in BehaviorProofs(b, k, before)
  {
    if k > 0 && (id in before || exists j :: 0 <= j < k - 1 && b.proofs[j].id == id) {
      ProofIsKept(b, k - 1, before, id);
    }
  }

  lemma {:induction false} ProofIsExpected(behaviors: seq<Behavior>, k: nat, j: nat)
    requires k < |behaviors| && j < |behaviors[k].proofs|
    ensures behaviors[k].proofs[j].id in ExpectedOf(behaviors)
    decreases |behaviors|
  {
    hide BehaviorProofs;
    var last, front := behaviors[|behaviors| - 1], behaviors[..|behaviors| - 1];
    if k < |front| {
      ProofIsExpected(front, k, j);
    }
    ProofIsKept(last, |last.proofs|, ExpectedOf(front), behaviors[k].proofs[j].id);
  }
}
