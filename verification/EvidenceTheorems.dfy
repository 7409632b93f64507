/**
 A passing aggregate is a bijection between the catalog's proofs and the reported entries, with every lane's
 shard sound and every semantic inventory a permutation; and the aggregate does not depend on the order in
 which the shards arrive.
 */
module EvidenceTheorems {
  import opened Evidence
  import opened Wrappers

  // ----- order of the shards -----

  lemma {:induction false} ShardsOfSplit(a: seq<Json>, shard: Json, b: seq<Json>, lane: string)
    ensures multiset(ShardsOf(a + [shard] + b, lane)) == multiset(ShardsOf([shard] + (a + b), lane))
  {
    ShardsOfJoin(a + [shard], b, lane);
    ShardsOfJoin(a, [shard], lane);
    ShardsOfJoin([shard], a + b, lane);
    ShardsOfJoin(a, b, lane);
  }

  lemma {:induction false} ShardsOfJoin(a: seq<Json>, b: seq<Json>, lane: string)
    ensures ShardsOf(a + b, lane) == ShardsOf(a, lane) + ShardsOf(b, lane)
    decreases |b|
  {
    if b == [] {
      assert a + b == a;
    } else {
      ShardsOfJoin(a, b[..|b| - 1], lane);
      assert (a + b)[..|a + b| - 1] == a + b[..|b| - 1];
    }
  }

  lemma WithoutFirst<T>(first: T, rest: seq<T>, left: seq<T>, right: seq<T>)
    requires multiset([first] + rest) == multiset(left + [first] + right)
    ensures multiset(rest) == multiset(left + right)
  {
    assert multiset([first] + rest) == multiset{first} + multiset(rest);
    assert multiset(left + [first] + right) == multiset{first} + (multiset(left) + multiset(right));
    assert multiset(rest) == multiset([first] + rest) - multiset{first};
    assert multiset(left) + multiset(right) == multiset(left + [first] + right) - multiset{first};
  }

  /** Shards for a lane are rearranged, never lost, when the input is rearranged. */
  lemma {:induction false} ShardsOfRearranged(a: seq<Json>, b: seq<Json>, lane: string)
    requires multiset(a) == multiset(b)
    ensures multiset(ShardsOf(a, lane)) == multiset(ShardsOf(b, lane))
    decreases |a|
  {
    hide ShardsOf;
    if a == [] {
      SameElements(a, b);
    } else {
      var first, rest := a[0], a[1..];
      assert a == [first] + rest;
      InBoth(a, b, first);
      var k :| 0 <= k < |b| && b[k] == first;
      var left, right := b[..k], b[k + 1..];
      assert b == left + [first] + right;
      WithoutFirst(first, rest, left, right);
      ShardsOfRearranged(rest, left + right, lane);
      ShardsOfSplit(left, first, right, lane);
      ShardsOfJoin([first], rest, lane);
      ShardsOfJoin([first], left + right, lane);
    }
  }

  lemma {:induction false} IntakeIsUnion(shards: seq<Json>, lanes: seq<Lane>, error: EvidenceError)
    ensures error in AllIntakeErrors(shards, lanes) <==> exists s :: s in shards && error in IntakeErrors(s, lanes)
  {
    hide IntakeErrors;
    if shards != [] {
      IntakeIsUnion(shards[..|shards| - 1], lanes, error);
      assert shards == shards[..|shards| - 1] + [shards[|shards| - 1]];
    }
  }

  lemma InBoth<T>(a: seq<T>, b: seq<T>, x: T)
    requires multiset(a) == multiset(b) && x in a
    ensures x in b
  {
    assert x in multiset(a);
  }

  lemma SameElements<T>(a: seq<T>, b: seq<T>)
    requires multiset(a) == multiset(b)
    ensures |a| == |b| && (|a| == 1 ==> a == b) && forall x :: x in a <==> x in b
  {
    assert |multiset(a)| == |a| && |multiset(b)| == |b|;
    assert forall x :: x in a <==> x in multiset(a);
    assert forall x :: x in b <==> x in multiset(b);
    if |a| == 1 {
      assert a[0] in b;
    }
  }

  lemma {:induction false} LanesRearranged(lanes: seq<Lane>, a: seq<Json>, b: seq<Json>, run: Run, expected: ExpectedProofs, st: State)
    requires multiset(a) == multiset(b)
    ensures TakeLanes(lanes, a, run, expected, st) == TakeLanes(lanes, b, run, expected, st)
  {
    hide TakeShard, ShardsOf;
    if lanes != [] {
      var lane := lanes[|lanes| - 1];
      LanesRearranged(lanes[..|lanes| - 1], a, b, run, expected, st);
      ShardsOfRearranged(a, b, lane.name);
      SameElements(ShardsOf(a, lane.name), ShardsOf(b, lane.name));
    }
  }

  /** Any rearrangement of the shards gives the same result: verdict, behaviours and errors. */
  lemma AggregateIgnoresOrder(catalog: Catalog, a: seq<Json>, b: seq<Json>, run: Run, jobs: map<string, string>)
    requires multiset(a) == multiset(b)
    ensures AggregateOf(catalog, a, run, jobs) == AggregateOf(catalog, b, run, jobs)
  {
    hide TakeLanes, AllIntakeErrors, OpeningErrors;
    SameElements(a, b);
    forall error ensures error in AllIntakeErrors(a, catalog.lanes) <==> error in AllIntakeErrors(b, catalog.lanes) {
      IntakeIsUnion(a, catalog.lanes, error);
      IntakeIsUnion(b, catalog.lanes, error);
    }
    assert AllIntakeErrors(a, catalog.lanes) == AllIntakeErrors(b, catalog.lanes);
    var opening := OpeningErrors(catalog, run, jobs) + AllIntakeErrors(a, catalog.lanes);
    LanesRearranged(catalog.lanes, a, b, run, ExpectedOf(catalog.behaviors), State(opening, map[], map[]));
  }

  // ----- what a clean proof list says -----

  /** An entry that reports an expected proof in its own lane, soundly. */
  ghost predicate SoundEntry(entry: Json, shard: Fields, lane: Lane, expected: ExpectedProofs) {
    ProofId(entry).Some? &&
    var id := ProofId(entry).value;
    && id in expected && expected[id].proof.lane == lane.name
    && IsTextIn(Get(shard, "operating_system"), expected[id].proof.operatingSystems)
    && ProofProblems(entry.fields, expected[id], lane) == {}
  }

  ghost predicate DistinctIds(entries: seq<Json>) {
    forall j, k :: 0 <= j < k < |entries| ==> ProofId(entries[j]) != ProofId(entries[k])
  }

  ghost predicate ReportsId(entries: seq<Json>, id: string) {
    exists k :: 0 <= k < |entries| && ProofId(entries[k]) == Some(id)
  }

  /** The entries' statuses are the ones recorded, and nothing else was recorded. */
  ghost predicate Recorded(entries: seq<Json>, before: map<string, string>, after: map<string, string>) {
    && (forall id :: id in after <==> id in before || ReportsId(entries, id))
    && (forall k :: 0 <= k < |entries| && ProofId(entries[k]).Some? ==>
          ProofId(entries[k]).value in after && after[ProofId(entries[k]).value] == StatusOf(entries[k].fields))
    && (forall id :: id in before && !ReportsId(entries, id) ==> id in after && after[id] == before[id])
  }

  ghost predicate Fresh(entries: seq<Json>, before: map<string, string>) {
    forall id :: id in before ==> !ReportsId(entries, id)
  }

  lemma InProofAllEmpty(id: string, problems: set<ProofProblem>)
    ensures InProofAll(id, problems) == {} <==> problems == {}
  {
    if problem :| problem in problems {
      assert InProof(id, problem) in InProofAll(id, problems);
    }
  }

  lemma InLaneAllEmpty(lane: string, problems: set<LaneProblem>)
    ensures InLaneAll(lane, problems) == {} <==> problems == {}
  {
    if problem :| problem in problems {
      assert InLane(lane, problem) in InLaneAll(lane, problems);
    }
  }

  lemma CleanEntry(entry: Json, shard: Fields, lane: Lane, expected: ExpectedProofs, st: State)
    requires TakeProof(entry, shard, lane, expected, st).errors == {}
    ensures st.errors == {} && SoundEntry(entry, shard, lane, expected)
    ensures ProofId(entry).value !in st.observed
    ensures TakeProof(entry, shard, lane, expected, st)
         == st.(observed := st.observed[ProofId(entry).value := StatusOf(entry.fields)])
  {
    hide ProofProblems;
    var after := TakeProof(entry, shard, lane, expected, st);
    assert forall e :: e in st.errors ==> e in after.errors;
    assert ProofId(entry).None? ==> InLane(lane.name, MalformedProof) in after.errors;
    var id := ProofId(entry).value;
    assert When(id in st.observed, DuplicateProof(id)) == {} && EntryErrors(entry.fields, id, shard, lane, expected) == {} by {
      assert forall e :: e in When(id in st.observed, DuplicateProof(id)) ==> e in after.errors;
      assert forall e :: e in EntryErrors(entry.fields, id, shard, lane, expected) ==> e in after.errors;
    }
    NoEntryErrors(entry.fields, id, shard, lane, expected);
  }

  lemma NoEntryErrors(entry: Fields, id: string, shard: Fields, lane: Lane, expected: ExpectedProofs)
    requires EntryErrors(entry, id, shard, lane, expected) == {}
    ensures id in expected && expected[id].proof.lane == lane.name
    ensures IsTextIn(Get(shard, "operating_system"), expected[id].proof.operatingSystems)
    ensures ProofProblems(entry, expected[id], lane) == {}
  {
    hide ProofProblems, IsTextIn;
    var all := EntryErrors(entry, id, shard, lane, expected);
    assert id !in expected ==> UnexpectedProof(id) in all;
    assert expected[id].proof.lane != lane.name ==> MisplacedProof(id, lane.name) in all;
    assert !IsTextIn(Get(shard, "operating_system"), expected[id].proof.operatingSystems) ==> UnsupportedSystem(id) in all;
    InProofAllEmpty(id, ProofProblems(entry, expected[id], lane));
    assert forall e :: e in InProofAll(id, ProofProblems(entry, expected[id], lane)) ==> e in all;
  }

  lemma {:induction false} CleanProofs(entries: seq<Json>, shard: Fields, lane: Lane, expected: ExpectedProofs, st: State)
    requires TakeProofs(entries, shard, lane, expected, st).errors == {}
    ensures st.errors == {} && DistinctIds(entries) && Fresh(entries, st.observed)
    ensures forall entry :: entry in entries ==> SoundEntry(entry, shard, lane, expected)
    ensures Recorded(entries, st.observed, TakeProofs(entries, shard, lane, expected, st).observed)
    ensures TakeProofs(entries, shard, lane, expected, st).inventory == st.inventory
  {
    hide TakeProof, SoundEntry, Recorded, Fresh, DistinctIds, ProofId, StatusOf;
    if entries == [] {
      NothingRecorded(st.observed);
    } else {
      var last, front := entries[|entries| - 1], entries[..|entries| - 1];
      var before := TakeProofs(front, shard, lane, expected, st);
      CleanEntry(last, shard, lane, expected, before);
      CleanProofs(front, shard, lane, expected, st);
      forall entry | entry in entries ensures ProofId(entry).Some? {
        SoundHasId(entry, shard, lane, expected);
      }
      RecordOne(front, last, st.observed, before.observed);
      assert front + [last] == entries;
    }
  }

  lemma NothingRecorded(before: map<string, string>)
    ensures DistinctIds([]) && Fresh([], before) && Recorded([], before, before)
  {
  }

  lemma SoundHasId(entry: Json, shard: Fields, lane: Lane, expected: ExpectedProofs)
    requires SoundEntry(entry, shard, lane, expected)
    ensures ProofId(entry).Some?
  {
  }

  lemma RecordOne(front: seq<Json>, last: Json, before: map<string, string>, middle: map<string, string>)
    requires DistinctIds(front) && Fresh(front, before) && Recorded(front, before, middle)
    requires forall k :: 0 <= k < |front| ==> ProofId(front[k]).Some?
    requires ProofId(last).Some? && ProofId(last).value !in middle
    ensures DistinctIds(front + [last]) && Fresh(front + [last], before)
    ensures Recorded(front + [last], before, middle[ProofId(last).value := StatusOf(last.fields)])
  {
    hide ProofId, StatusOf;
    var all := front + [last];
    var id := ProofId(last).value;
    assert !ReportsId(front, id);
    forall x ensures ReportsId(all, x) <==> ReportsId(front, x) || x == id {
      if ReportsId(front, x) {
        var k :| 0 <= k < |front| && ProofId(front[k]) == Some(x);
        assert ProofId(all[k]) == Some(x);
      }
      assert ProofId(all[|front|]) == Some(id);
    }
    forall k | 0 <= k < |front| ensures ProofId(front[k]) != ProofId(last) {
      assert ReportsId(front, ProofId(front[k]).value);
    }
  }

  // ----- what a clean lane says -----

  /** A lane's shard with no problem of its own, sound entries and a clean inventory. */
  ghost predicate SoundShard(shard: Fields, lane: Lane, run: Run, expected: ExpectedProofs) {
    var entries, cases := ItemsOf(Get(shard, "proofs")), ItemsOf(Get(shard, "inventory_cases"));
    && ShardProblems(shard, lane, run) == {}
    && (forall entry :: entry in entries ==> SoundEntry(entry, shard, lane, expected))
    && DistinctIds(entries)
    && AllCaseProblems(cases) == {} && Distinct(CaseNames(cases))
  }

  lemma CleanShard(shard: Fields, lane: Lane, run: Run, expected: ExpectedProofs, st: State)
    requires TakeShard(shard, lane, run, expected, st).errors == {}
    ensures st.errors == {} && SoundShard(shard, lane, run, expected)
    ensures var entries := ItemsOf(Get(shard, "proofs"));
            var after := TakeShard(shard, lane, run, expected, st);
            && Fresh(entries, st.observed) && Recorded(entries, st.observed, after.observed)
            && after.inventory == st.inventory[lane.name := CaseNames(ItemsOf(Get(shard, "inventory_cases")))]
  {
    hide ShardProblems, TakeProofs, SoundEntry, Recorded, Fresh, DistinctIds, InLaneAll, AllCaseProblems, CaseNames;
    var checked := st.(errors := st.errors + InLaneAll(lane.name, ShardProblems(shard, lane, run)));
    var entries, cases := ItemsOf(Get(shard, "proofs")), ItemsOf(Get(shard, "inventory_cases"));
    var proved := TakeProofs(entries, shard, lane, expected, checked);
    var problems := AllCaseProblems(cases) + When(!Distinct(CaseNames(cases)), DuplicateCases);
    var after := TakeShard(shard, lane, run, expected, st);
    assert after.errors == proved.errors + InLaneAll(lane.name, problems);
    NoneOfSum(proved.errors, InLaneAll(lane.name, problems));
    InLaneAllEmpty(lane.name, problems);
    NoneOfSum(AllCaseProblems(cases), When(!Distinct(CaseNames(cases)), DuplicateCases));
    CleanProofs(entries, shard, lane, expected, checked);
    NoneOfSum(st.errors, InLaneAll(lane.name, ShardProblems(shard, lane, run)));
    InLaneAllEmpty(lane.name, ShardProblems(shard, lane, run));
  }

  lemma NoneOfSum<T>(a: set<T>, b: set<T>)
    requires a + b == {}
    ensures a == {} && b == {}
  {
    assert forall x :: x in a ==> x in a + b;
    assert forall x :: x in b ==> x in a + b;
  }

  /** Exactly one shard for the lane, and it is sound. */
  ghost predicate SoundLane(lane: Lane, shards: seq<Json>, run: Run, expected: ExpectedProofs) {
    |ShardsOf(shards, lane.name)| == 1 && SoundShard(ShardsOf(shards, lane.name)[0], lane, run, expected)
  }

  /** The proof list of a lane's only shard. */
  function EntriesOf(lane: Lane, shards: seq<Json>): seq<Json> {
    var claimed := ShardsOf(shards, lane.name);
    if |claimed| == 1 then ItemsOf(Get(claimed[0], "proofs")) else []
  }

  function CasesOf(lane: Lane, shards: seq<Json>): seq<string> {
    var claimed := ShardsOf(shards, lane.name);
    if |claimed| == 1 then CaseNames(ItemsOf(Get(claimed[0], "inventory_cases"))) else []
  }

  /** Each recorded status is that of some lane's entry; each entry's status is recorded. */
  ghost predicate RecordedLanes(lanes: seq<Lane>, shards: seq<Json>, observed: map<string, string>) {
    && (forall id :: id in observed ==> exists k :: 0 <= k < |lanes| && ReportsId(EntriesOf(lanes[k], shards), id))
    && (forall k, j :: 0 <= k < |lanes| && 0 <= j < |EntriesOf(lanes[k], shards)| ==>
          var entry := EntriesOf(lanes[k], shards)[j];
          ProofId(entry).Some? ==> ProofId(entry).value in observed && observed[ProofId(entry).value] == StatusOf(entry.fields))
  }

  lemma {:induction false} CleanLanes(lanes: seq<Lane>, shards: seq<Json>, run: Run, expected: ExpectedProofs, st: State)
    requires TakeLanes(lanes, shards, run, expected, st).errors == {} && st.observed == map[]
    requires forall j, k :: 0 <= j < k < |lanes| ==> lanes[j].name != lanes[k].name
    ensures st.errors == {} && forall lane :: lane in lanes ==> SoundLane(lane, shards, run, expected)
    ensures RecordedLanes(lanes, shards, TakeLanes(lanes, shards, run, expected, st).observed)
    ensures forall lane :: lane in lanes ==>
              lane.name in TakeLanes(lanes, shards, run, expected, st).inventory &&
              TakeLanes(lanes, shards, run, expected, st).inventory[lane.name] == CasesOf(lane, shards)
  {
    hide TakeShard, SoundShard, SoundEntry, ShardsOf, CaseNames, ProofId, StatusOf, Recorded, ReportsId;
    if lanes != [] {
      var lane, front := lanes[|lanes| - 1], lanes[..|lanes| - 1];
      var before := TakeLanes(front, shards, run, expected, st);
      OnlyShard(lane, ShardsOf(shards, lane.name), run, expected, before);
      var shard := ShardsOf(shards, lane.name)[0];
      CleanShard(shard, lane, run, expected, before);
      CleanLanes(front, shards, run, expected, st);
      RecordLane(front, lane, shards, before.observed, TakeLanes(lanes, shards, run, expected, st).observed);
      assert front + [lane] == lanes;
    }
  }

  lemma OnlyShard(lane: Lane, shards: seq<Fields>, run: Run, expected: ExpectedProofs, st: State)
    requires TakeLane(lane, shards, run, expected, st).errors == {}
    ensures |shards| == 1
  {
    hide TakeShard;
    var n: nat := |shards|;
    assert n == 1 || InLane(lane.name, ShardCount(n)) in TakeLane(lane, shards, run, expected, st).errors;
  }

  lemma RecordLane(front: seq<Lane>, lane: Lane, shards: seq<Json>, before: map<string, string>, after: map<string, string>)
    requires RecordedLanes(front, shards, before)
    requires Fresh(EntriesOf(lane, shards), before) && Recorded(EntriesOf(lane, shards), before, after)
    ensures RecordedLanes(front + [lane], shards, after)
  {
    hide EntriesOf, StatusOf;
    var lanes := front + [lane];
    forall id | id in after ensures exists k :: 0 <= k < |lanes| && ReportsId(EntriesOf(lanes[k], shards), id) {
      if id in before {
        var k :| 0 <= k < |front| && ReportsId(EntriesOf(front[k], shards), id);
        assert ReportsId(EntriesOf(lanes[k], shards), id);
      } else {
        assert ReportsId(EntriesOf(lanes[|front|], shards), id);
      }
    }
    forall k, j | 0 <= k < |lanes| && 0 <= j < |EntriesOf(lanes[k], shards)| && ProofId(EntriesOf(lanes[k], shards)[j]).Some?
      ensures var entry := EntriesOf(lanes[k], shards)[j];
              ProofId(entry).value in after && after[ProofId(entry).value] == StatusOf(entry.fields)
    {
      var entry := EntriesOf(lanes[k], shards)[j];
      if k < |front| {
        assert EntriesOf(front[k], shards)[j] == entry;
        assert ProofId(entry).value in before;
      }
    }
  }

  // ----- a passing aggregate -----

  /** A sound entry whose status is passed: it ran once, passed, and used the catalog's own commands. */
  ghost predicate PassingEntry(entry: Json, shard: Fields, lane: Lane, expected: ExpectedProofs) {
    SoundEntry(entry, shard, lane, expected) && Get(entry.fields, "status") == Text(PASSED)
  }

  /** Expected proofs and reported entries correspond one to one, each in its own lane. */
  ghost predicate Bijection(catalog: Catalog, shards: seq<Json>, expected: ExpectedProofs) {
    && (forall k :: 0 <= k < |catalog.lanes| ==>
          DistinctIds(EntriesOf(catalog.lanes[k], shards)) &&
          forall entry :: entry in EntriesOf(catalog.lanes[k], shards) ==>
            PassingEntry(entry, ShardsOf(shards, catalog.lanes[k].name)[0], catalog.lanes[k], expected))
    && (forall id :: id in expected ==>
          exists k :: 0 <= k < |catalog.lanes| && catalog.lanes[k].name == expected[id].proof.lane &&
                      ReportsId(EntriesOf(catalog.lanes[k], shards), id))
  }

  lemma {:induction false} InventoryClean(lanes: seq<Lane>, inventory: map<string, seq<string>>)
    requires InventoryErrors(lanes, inventory) == {}
    ensures forall lane :: lane in lanes ==> InventoryProblems(lane, inventory) == {}
  {
    hide InventoryProblems, InLaneAll;
    if lanes != [] {
      var lane, front := lanes[|lanes| - 1], lanes[..|lanes| - 1];
      NoneOfSum(InventoryErrors(front, inventory), InLaneAll(lane.name, InventoryProblems(lane, inventory)));
      InLaneAllEmpty(lane.name, InventoryProblems(lane, inventory));
      InventoryClean(front, inventory);
      assert front + [lane] == lanes;
    }
  }

  lemma {:induction false} DistinctSize(names: seq<string>)
    requires Distinct(names)
    ensures |ToSet(names)| == |names|
  {
    if names != [] {
      var last, front := names[|names| - 1], names[..|names| - 1];
      DistinctSize(front);
      assert ToSet(names) == ToSet(front) + {last};
      assert last !in ToSet(front);
    }
  }

  lemma {:induction false} SizeMeansDistinct(names: seq<string>)
    ensures |ToSet(names)| <= |names|
    ensures |ToSet(names)| == |names| ==> Distinct(names)
  {
    if names != [] {
      var last, front := names[|names| - 1], names[..|names| - 1];
      SizeMeansDistinct(front);
      assert ToSet(names) == ToSet(front) + {last};
    }
  }

  lemma {:induction false} DistinctMultiset(names: seq<string>, name: string)
    requires Distinct(names)
    ensures multiset(names)[name] == if name in ToSet(names) then 1 else 0
  {
    if names != [] {
      var last, front := names[|names| - 1], names[..|names| - 1];
      DistinctMultiset(front, name);
      assert names == front + [last];
    }
  }

  /** The same names, as often, without repetition: a permutation. */
  lemma SameNamesPermute(a: seq<string>, b: seq<string>)
    requires Distinct(a) && ToSet(a) == ToSet(b) && |a| == |b|
    ensures multiset(a) == multiset(b)
  {
    hide Distinct;
    DistinctSize(a);
    SizeMeansDistinct(b);
    forall name ensures multiset(a)[name] == multiset(b)[name] {
      DistinctMultiset(a, name);
      DistinctMultiset(b, name);
    }
  }

  lemma InventoryPermutes(lane: Lane, inventory: map<string, seq<string>>, cases: seq<string>)
    requires InventoryProblems(lane, inventory) == {} && Distinct(cases)
    requires lane.name in inventory && inventory[lane.name] == cases
    ensures if lane.semantic then multiset(cases) == multiset(lane.scenarios) else cases == []
  {
    hide Distinct, ToSet;
    if lane.semantic {
      assert InventoryDiffers in When(ToSet(cases) != ToSet(lane.scenarios) || |cases| != |lane.scenarios|, InventoryDiffers)
        <==> ToSet(cases) != ToSet(lane.scenarios) || |cases| != |lane.scenarios|;
      SameNamesPermute(cases, lane.scenarios);
    } else {
      assert UnexpectedInventory in When(cases != [], UnexpectedInventory) <==> cases != [];
    }
  }

  lemma JoinClean(expected: ExpectedProofs, observed: map<string, string>)
    requires ProofJoinErrors(expected, observed) == {}
    ensures expected.Keys == observed.Keys && forall id :: id in observed ==> observed[id] == PASSED
  {
    var errors := ProofJoinErrors(expected, observed);
    var missing, unexpected := expected.Keys - observed.Keys, observed.Keys - expected.Keys;
    assert missing != {} ==> MissingProofs(missing) in errors;
    assert unexpected != {} ==> UnexpectedProofs(unexpected) in errors;
    assert expected.Keys == observed.Keys by {
      assert forall id :: id in expected.Keys && id !in observed.Keys ==> id in missing;
      assert forall id :: id in observed.Keys && id !in expected.Keys ==> id in unexpected;
    }
    forall id | id in observed ensures observed[id] == PASSED {
      var status := observed[id];
      assert status == PASSED || ProofNotPassed(id, status) in errors;
    }
  }

  lemma PassedStatus(entry: Fields)
    requires StatusOf(entry) == PASSED
    ensures Get(entry, "status") == Text(PASSED)
  {
  }

  /**
   A passing aggregate means: the jobs and the shards are all accounted for; every lane has exactly one shard,
   sound and not from a later attempt; the expected proofs and the reported entries correspond one to one,
   each reported in its own lane with passing observations; and every semantic inventory is a permutation
   of the catalog's scenarios, every other one empty.
   */
  lemma PassingIsBijection(catalog: Catalog, shards: seq<Json>, run: Run, jobs: map<string, string>)
    requires AggregateOf(catalog, shards, run, jobs).passed
    requires forall j, k :: 0 <= j < k < |catalog.lanes| ==> catalog.lanes[j].name != catalog.lanes[k].name
    ensures OpeningErrors(catalog, run, jobs) == {} && AllIntakeErrors(shards, catalog.lanes) == {}
    ensures forall lane :: lane in catalog.lanes ==> SoundLane(lane, shards, run, ExpectedOf(catalog.behaviors))
    ensures Bijection(catalog, shards, ExpectedOf(catalog.behaviors))
    ensures forall lane :: lane in catalog.lanes ==>
              if lane.semantic then multiset(CasesOf(lane, shards)) == multiset(lane.scenarios) else CasesOf(lane, shards) == []
  {
    hide OpeningErrors, AllIntakeErrors, TakeLanes, ProofJoinErrors, InventoryErrors, InventoryProblems, SoundLane, Bijection,
         RecordedLanes, CasesOf, ExpectedOf;
    var expected := ExpectedOf(catalog.behaviors);
    var st := Join(catalog, shards, run, jobs);
    NoneOfSum(st.errors + ProofJoinErrors(expected, st.observed), InventoryErrors(catalog.lanes, st.inventory));
    NoneOfSum(st.errors, ProofJoinErrors(expected, st.observed));
    var opening := OpeningErrors(catalog, run, jobs) + AllIntakeErrors(shards, catalog.lanes);
    CleanLanes(catalog.lanes, shards, run, expected, State(opening, map[], map[]));
    NoneOfSum(OpeningErrors(catalog, run, jobs), AllIntakeErrors(shards, catalog.lanes));
    JoinClean(expected, st.observed);
    InventoryClean(catalog.lanes, st.inventory);
    forall lane | lane in catalog.lanes
      ensures if lane.semantic then multiset(CasesOf(lane, shards)) == multiset(lane.scenarios) else CasesOf(lane, shards) == []
    {
      SoundCases(lane, shards, run, expected);
      InventoryPermutes(lane, st.inventory, CasesOf(lane, shards));
    }
    AllPassing(catalog, shards, run, expected, st.observed);
  }

  lemma SoundCases(lane: Lane, shards: seq<Json>, run: Run, expected: ExpectedProofs)
    requires SoundLane(lane, shards, run, expected)
    ensures Distinct(CasesOf(lane, shards))
  {
    hide ShardProblems, SoundEntry;
  }

  lemma AllPassing(catalog: Catalog, shards: seq<Json>, run: Run, expected: ExpectedProofs, observed: map<string, string>)
    requires forall lane :: lane in catalog.lanes ==> SoundLane(lane, shards, run, expected)
    requires RecordedLanes(catalog.lanes, shards, observed)
    requires expected.Keys == observed.Keys && forall id :: id in observed ==> observed[id] == PASSED
    ensures Bijection(catalog, shards, expected)
  {
    hide SoundShard, ShardsOf, EntriesOf, PassingEntry, DistinctIds, ReportsId, ProofId, StatusOf;
    forall k | 0 <= k < |catalog.lanes|
      ensures SoundLane(catalog.lanes[k], shards, run, expected) && DistinctIds(EntriesOf(catalog.lanes[k], shards))
      ensures forall entry :: entry in EntriesOf(catalog.lanes[k], shards) ==>
                PassingEntry(entry, ShardsOf(shards, catalog.lanes[k].name)[0], catalog.lanes[k], expected)
    {
      LanePasses(catalog, k, shards, run, expected, observed);
    }
    forall id | id in expected
      ensures exists k :: 0 <= k < |catalog.lanes| && catalog.lanes[k].name == expected[id].proof.lane &&
                          ReportsId(EntriesOf(catalog.lanes[k], shards), id)
    {
      assert id in observed;
      var k :| 0 <= k < |catalog.lanes| && ReportsId(EntriesOf(catalog.lanes[k], shards), id);
      ReportedAt(catalog.lanes[k], shards, run, expected, id);
    }
  }

  lemma LanePasses(catalog: Catalog, k: nat, shards: seq<Json>, run: Run, expected: ExpectedProofs, observed: map<string, string>)
    requires k < |catalog.lanes| && SoundLane(catalog.lanes[k], shards, run, expected)
    requires RecordedLanes(catalog.lanes, shards, observed) && forall id :: id in observed ==> observed[id] == PASSED
    ensures DistinctIds(EntriesOf(catalog.lanes[k], shards))
    ensures forall entry :: entry in EntriesOf(catalog.lanes[k], shards) ==>
              PassingEntry(entry, ShardsOf(shards, catalog.lanes[k].name)[0], catalog.lanes[k], expected)
  {
    hide ShardProblems, SoundEntry, ShardsOf, AllCaseProblems, CaseNames, StatusOf;
    var lane := catalog.lanes[k];
    forall entry | entry in EntriesOf(lane, shards)
      ensures PassingEntry(entry, ShardsOf(shards, lane.name)[0], lane, expected)
    {
      var j :| 0 <= j < |EntriesOf(lane, shards)| && EntriesOf(lane, shards)[j] == entry;
      SoundHasId(entry, ShardsOf(shards, lane.name)[0], lane, expected);
      PassedStatus(entry.fields);
    }
  }

  lemma ReportedAt(lane: Lane, shards: seq<Json>, run: Run, expected: ExpectedProofs, id: string)
    requires SoundLane(lane, shards, run, expected) && ReportsId(EntriesOf(lane, shards), id)
    ensures id in expected && expected[id].proof.lane == lane.name
  {
    hide ShardProblems, SoundEntry, ShardsOf, AllCaseProblems, CaseNames;
    var j :| 0 <= j < |EntriesOf(lane, shards)| && ProofId(EntriesOf(lane, shards)[j]) == Some(id);
    ReportedInOwnLane(EntriesOf(lane, shards)[j], ShardsOf(shards, lane.name)[0], lane, expected);
  }

  lemma ReportedInOwnLane(entry: Json, shard: Fields, lane: Lane, expected: ExpectedProofs)
    requires SoundEntry(entry, shard, lane, expected)
    ensures ProofId(entry).Some? && ProofId(entry).value in expected &&
            expected[ProofId(entry).value].proof.lane == lane.name
  {
    hide ProofProblems;
  }
}
