/** The converse: evidence that is complete and sound lane by lane passes, so a pass means exactly that. */
module EvidenceCompleteness {
  import opened Evidence
  import opened EvidenceTheorems
  import opened Wrappers

  /** Every semantic lane's cases are a permutation of its scenarios, and no other lane reports cases. */
  ghost predicate InventoriesMatch(catalog: Catalog, shards: seq<Json>) {
    forall lane :: lane in catalog.lanes ==>
      if lane.semantic then multiset(CasesOf(lane, shards)) == multiset(lane.scenarios) else CasesOf(lane, shards) == []
  }

  /** Jobs and shards are accounted for, every lane is sound, and proofs and scenarios correspond one to one. */
  ghost predicate Complete(catalog: Catalog, shards: seq<Json>, run: Run, jobs: map<string, string>) {
    var expected := ExpectedOf(catalog.behaviors);
    && OpeningErrors(catalog, run, jobs) == {} && AllIntakeErrors(shards, catalog.lanes) == {}
    && (forall lane :: lane in catalog.lanes ==> SoundLane(lane, shards, run, expected))
    && Bijection(catalog, shards, expected) && InventoriesMatch(catalog, shards)
  }

  lemma SoundStatus(entry: Fields, expected: Expected, lane: Lane)
    requires ProofProblems(entry, expected, lane) == {}
    ensures Get(entry, "status").Text? && AllowedStatus(Get(entry, "status").text)
  {
    hide ObservedPassing, ObservedKeys, AllIntegers, EqualsInt, TextsOf, KindName;
    var ok := Get(entry, "status").Text? && AllowedStatus(Get(entry, "status").text);
    assert ok || InvalidStatus in ProofProblems(entry, expected, lane);
  }

  lemma SoundEntryIsTaken(entry: Json, shard: Fields, lane: Lane, expected: ExpectedProofs, st: State)
    requires SoundEntry(entry, shard, lane, expected) && st.errors == {}
    requires ProofId(entry).value !in st.observed
    ensures TakeProof(entry, shard, lane, expected, st).errors == {}
  {
    hide ProofProblems, IsTextIn, InProofAll;
    var id := ProofId(entry).value;
    SoundStatus(entry.fields, expected[id], lane);
    InProofAllEmpty(id, ProofProblems(entry.fields, expected[id], lane));
  }

  lemma {:induction false} SoundProofsAreTaken(entries: seq<Json>, shard: Fields, lane: Lane, expected: ExpectedProofs, st: State)
    requires st.errors == {} && DistinctIds(entries) && Fresh(entries, st.observed)
    requires forall entry :: entry in entries ==> SoundEntry(entry, shard, lane, expected)
    ensures TakeProofs(entries, shard, lane, expected, st).errors == {}
  {
    hide TakeProof, SoundEntry, ProofId;
    if entries != [] {
      var last, front := entries[|entries| - 1], entries[..|entries| - 1];
      var before := TakeProofs(front, shard, lane, expected, st);
      FrontIsFresh(entries, st.observed);
      SoundProofsAreTaken(front, shard, lane, expected, st);
      CleanProofs(front, shard, lane, expected, st);
      SoundHasId(last, shard, lane, expected);
      LastIsNew(entries, st.observed, before.observed);
      SoundEntryIsTaken(last, shard, lane, expected, before);
    }
  }

  lemma FrontIsFresh(entries: seq<Json>, observed: map<string, string>)
    requires entries != [] && DistinctIds(entries) && Fresh(entries, observed)
    ensures DistinctIds(entries[..|entries| - 1]) && Fresh(entries[..|entries| - 1], observed)
  {
    hide ProofId;
    var front := entries[..|entries| - 1];
    assert forall k :: 0 <= k < |front| ==> front[k] == entries[k];
    assert forall id :: ReportsId(front, id) ==> ReportsId(entries, id);
  }

  lemma LastIsNew(entries: seq<Json>, before: map<string, string>, middle: map<string, string>)
    requires entries != [] && DistinctIds(entries) && Fresh(entries, before)
    requires ProofId(entries[|entries| - 1]).Some? && Recorded(entries[..|entries| - 1], before, middle)
    ensures ProofId(entries[|entries| - 1]).value !in middle
  {
    hide ProofId, StatusOf;
    var last, front := |entries| - 1, entries[..|entries| - 1];
    var id := ProofId(entries[last]).value;
    assert ReportsId(entries, id);
    forall k | 0 <= k < |front|
      ensures ProofId(front[k]) != Some(id)
    {
      assert front[k] == entries[k];
    }
  }

  lemma SoundShardIsTaken(shard: Fields, lane: Lane, run: Run, expected: ExpectedProofs, st: State)
    requires SoundShard(shard, lane, run, expected) && st.errors == {}
    requires Fresh(ItemsOf(Get(shard, "proofs")), st.observed)
    ensures TakeShard(shard, lane, run, expected, st).errors == {}
  {
    hide ShardProblems, TakeProofs, SoundEntry, Fresh, DistinctIds, InLaneAll, AllCaseProblems, CaseNames, Distinct;
    InLaneAllEmpty(lane.name, {});
    var checked := st.(errors := st.errors + InLaneAll(lane.name, ShardProblems(shard, lane, run)));
    SoundProofsAreTaken(ItemsOf(Get(shard, "proofs")), shard, lane, expected, checked);
    var cases := ItemsOf(Get(shard, "inventory_cases"));
    assert AllCaseProblems(cases) + When(!Distinct(CaseNames(cases)), DuplicateCases) == {};
  }

  lemma LaneIsFresh(
    front: seq<Lane>, lane: Lane, shards: seq<Json>, run: Run, expected: ExpectedProofs, observed: map<string, string>)
    requires forall l :: l in front ==> SoundLane(l, shards, run, expected) && l.name != lane.name
    requires SoundLane(lane, shards, run, expected) && RecordedLanes(front, shards, observed)
    ensures Fresh(EntriesOf(lane, shards), observed)
  {
    hide SoundLane, EntriesOf, ReportsId;
    forall id | id in observed
      ensures !ReportsId(EntriesOf(lane, shards), id)
    {
      var k :| 0 <= k < |front| && ReportsId(EntriesOf(front[k], shards), id);
      assert front[k] in front;
      ReportedAt(front[k], shards, run, expected, id);
      if ReportsId(EntriesOf(lane, shards), id) {
        ReportedAt(lane, shards, run, expected, id);
      }
    }
  }

  lemma {:induction false} SoundLanesAreTaken(lanes: seq<Lane>, shards: seq<Json>, run: Run, expected: ExpectedProofs, st: State)
    requires st.errors == {} && st.observed == map[]
    requires forall j, k :: 0 <= j < k < |lanes| ==> lanes[j].name != lanes[k].name
    requires forall lane :: lane in lanes ==> SoundLane(lane, shards, run, expected)
    ensures TakeLanes(lanes, shards, run, expected, st).errors == {}
  {
    hide TakeShard, SoundShard, ShardsOf, RecordedLanes, Fresh, CasesOf;
    if lanes != [] {
      var lane, front := lanes[|lanes| - 1], lanes[..|lanes| - 1];
      SoundLanesAreTaken(front, shards, run, expected, st);
      CleanLanes(front, shards, run, expected, st);
      var before := TakeLanes(front, shards, run, expected, st);
      assert lane in lanes && forall l :: l in front ==> l in lanes && l.name != lane.name;
      LaneIsFresh(front, lane, shards, run, expected, before.observed);
      SoundShardIsTaken(ShardsOf(shards, lane.name)[0], lane, run, expected, before);
    }
  }

  lemma OneShard(lane: Lane, shards: seq<Json>, run: Run, expected: ExpectedProofs)
    requires SoundLane(lane, shards, run, expected)
    ensures |ShardsOf(shards, lane.name)| == 1
  {
    hide SoundShard, ShardsOf;
  }

  lemma ReportedEntry(entries: seq<Json>, id: string) returns (j: nat)
    requires ReportsId(entries, id)
    ensures j < |entries| && ProofId(entries[j]) == Some(id)
  {
    hide ProofId;
    j :| 0 <= j < |entries| && ProofId(entries[j]) == Some(id);
  }

  lemma ObservedPassed(
    catalog: Catalog, shards: seq<Json>, run: Run, expected: ExpectedProofs, observed: map<string, string>, id: string)
    requires forall lane :: lane in catalog.lanes ==> SoundLane(lane, shards, run, expected)
    requires RecordedLanes(catalog.lanes, shards, observed) && Bijection(catalog, shards, expected) && id in observed
    ensures id in expected && observed[id] == PASSED
  {
    hide SoundLane, EntriesOf, ShardsOf, PassingEntry, DistinctIds, ProofId, ReportsId, StatusOf;
    var k :| 0 <= k < |catalog.lanes| && ReportsId(EntriesOf(catalog.lanes[k], shards), id);
    var lane := catalog.lanes[k];
    assert lane in catalog.lanes;
    ReportedAt(lane, shards, run, expected, id);
    var j := ReportedEntry(EntriesOf(lane, shards), id);
    var entry := EntriesOf(catalog.lanes[k], shards)[j];
    assert entry in EntriesOf(lane, shards);
    OneShard(lane, shards, run, expected);
    PassingIsPassed(entry, ShardsOf(shards, lane.name)[0], lane, expected);
  }

  lemma ExpectedObserved(catalog: Catalog, shards: seq<Json>, expected: ExpectedProofs, observed: map<string, string>, id: string)
    requires RecordedLanes(catalog.lanes, shards, observed) && Bijection(catalog, shards, expected) && id in expected
    ensures id in observed
  {
    hide EntriesOf, ShardsOf, PassingEntry, DistinctIds, ProofId;
    var k :| 0 <= k < |catalog.lanes| && catalog.lanes[k].name == expected[id].proof.lane &&
      ReportsId(EntriesOf(catalog.lanes[k], shards), id);
    var j :| 0 <= j < |EntriesOf(catalog.lanes[k], shards)| && ProofId(EntriesOf(catalog.lanes[k], shards)[j]) == Some(id);
  }

  lemma NothingToJoin(expected: ExpectedProofs, observed: map<string, string>)
    requires expected.Keys == observed.Keys && forall id :: id in observed ==> observed[id] == PASSED
    ensures ProofJoinErrors(expected, observed) == {}
  {
  }

  lemma ObservedAllPassed(catalog: Catalog, shards: seq<Json>, run: Run, expected: ExpectedProofs, observed: map<string, string>)
    requires forall lane :: lane in catalog.lanes ==> SoundLane(lane, shards, run, expected)
    requires RecordedLanes(catalog.lanes, shards, observed) && Bijection(catalog, shards, expected)
    ensures ProofJoinErrors(expected, observed) == {}
  {
    hide SoundLane, RecordedLanes, Bijection, ProofJoinErrors;
    forall id | id in observed
      ensures id in expected && observed[id] == PASSED
    {
      ObservedPassed(catalog, shards, run, expected, observed, id);
    }
    forall id | id in expected
      ensures id in observed
    {
      ExpectedObserved(catalog, shards, expected, observed, id);
    }
    assert expected.Keys == observed.Keys;
    NothingToJoin(expected, observed);
  }

  lemma PassingIsPassed(entry: Json, shard: Fields, lane: Lane, expected: ExpectedProofs)
    requires PassingEntry(entry, shard, lane, expected)
    ensures ProofId(entry).Some? && StatusOf(entry.fields) == PASSED
  {
    hide ProofProblems;
  }

  lemma PermutedInventory(lane: Lane, inventory: map<string, seq<string>>, cases: seq<string>)
    requires if lane.semantic then multiset(cases) == multiset(lane.scenarios) else cases == []
    requires lane.name in inventory && inventory[lane.name] == cases
    ensures InventoryProblems(lane, inventory) == {}
  {
    if lane.semantic {
      assert |multiset(cases)| == |cases| && |multiset(lane.scenarios)| == |lane.scenarios|;
      forall name
        ensures name in ToSet(cases) <==> name in ToSet(lane.scenarios)
      {
        assert name in cases <==> name in multiset(cases);
        assert name in lane.scenarios <==> name in multiset(lane.scenarios);
      }
      assert ToSet(cases) == ToSet(lane.scenarios);
    }
  }

  lemma {:induction false} NoInventoryErrors(lanes: seq<Lane>, inventory: map<string, seq<string>>)
    requires forall lane :: lane in lanes ==> InventoryProblems(lane, inventory) == {}
    ensures InventoryErrors(lanes, inventory) == {}
  {
    hide InventoryProblems;
    if lanes != [] {
      NoInventoryErrors(lanes[..|lanes| - 1], inventory);
      assert lanes[|lanes| - 1] in lanes;
      InLaneAllEmpty(lanes[|lanes| - 1].name, {});
    }
  }

  lemma CompletePasses(catalog: Catalog, shards: seq<Json>, run: Run, jobs: map<string, string>)
    requires Complete(catalog, shards, run, jobs)
    requires forall j, k :: 0 <= j < k < |catalog.lanes| ==> catalog.lanes[j].name != catalog.lanes[k].name
    ensures AggregateOf(catalog, shards, run, jobs).passed
  {
    hide OpeningErrors, AllIntakeErrors, TakeLanes, ProofJoinErrors, InventoryErrors, InventoryProblems, SoundLane, Bijection,
         RecordedLanes, CasesOf, ExpectedOf;
    var expected := ExpectedOf(catalog.behaviors);
    var start := State(OpeningErrors(catalog, run, jobs) + AllIntakeErrors(shards, catalog.lanes), map[], map[]);
    SoundLanesAreTaken(catalog.lanes, shards, run, expected, start);
    CleanLanes(catalog.lanes, shards, run, expected, start);
    var st := Join(catalog, shards, run, jobs);
    ObservedAllPassed(catalog, shards, run, expected, st.observed);
    forall lane | lane in catalog.lanes
      ensures InventoryProblems(lane, st.inventory) == {}
    {
      PermutedInventory(lane, st.inventory, CasesOf(lane, shards));
    }
    NoInventoryErrors(catalog.lanes, st.inventory);
  }

  /**
   The aggregate passes exactly when jobs and shards are accounted for, every lane has one sound shard, the
   expected proofs and the reported entries correspond one to one, each passing in its own lane, and every
   inventory is a permutation of the catalog's.
   */
  lemma PassesExactlyWhenComplete(catalog: Catalog, shards: seq<Json>, run: Run, jobs: map<string, string>)
    requires forall j, k :: 0 <= j < k < |catalog.lanes| ==> catalog.lanes[j].name != catalog.lanes[k].name
    ensures AggregateOf(catalog, shards, run, jobs).passed <==> Complete(catalog, shards, run, jobs)
  {
    hide AggregateOf, SoundLane, Bijection, CasesOf, OpeningErrors, AllIntakeErrors;
    if AggregateOf(catalog, shards, run, jobs).passed {
      PassingIsBijection(catalog, shards, run, jobs);
    }
    if Complete(catalog, shards, run, jobs) {
      CompletePasses(catalog, shards, run, jobs);
    }
  }
}
