/**
 The union of coverage maps is the pointwise maximum, so it depends only on which maps there are, not on
 their order or repetition; and no map can take evidence away.
 */
module CoverageUnionTheorems {
  import opened CoverageUnion
  import opened Wrappers

  /** The count recorded for a line, if any. */
  function HitsIn(combined: Combined, path: string, line: nat): Option<nat> {
    if path in combined && line in combined[path].lines then Some(combined[path].lines[line]) else None
  }

  function MaxOf(a: Option<nat>, b: Option<nat>): Option<nat> {
    match (a, b)
    case (None, _) => b
    case (_, None) => a
    case (Some(x), Some(y)) => Some(if x < y then y else x)
  }

  function EntryHits(entry: (string, Lines), path: string, line: nat): Option<nat> {
    if entry.0 == path && line in entry.1 then Some(entry.1[line]) else None
  }

  function MapHits(sources: SourceMap, path: string, line: nat): Option<nat> {
    if sources == [] then None else MaxOf(EntryHits(sources[0], path, line), MapHits(sources[1..], path, line))
  }

  function AllHits(maps: seq<SourceMap>, path: string, line: nat): Option<nat> {
    if maps == [] then None else MaxOf(MapHits(maps[0], path, line), AllHits(maps[1..], path, line))
  }

  lemma EntryIsAdded(combined: Combined, entry: (string, Lines), naming: Naming)
    requires Exact(naming) && Keyed(combined)
    ensures AddEntry(combined, entry, naming).Ok? && Keyed(AddEntry(combined, entry, naming).value)
    ensures var next := AddEntry(combined, entry, naming).value;
            && (forall path :: path in next <==> path in combined || path == entry.0)
            && (forall path, line :: HitsIn(next, path, line) == MaxOf(HitsIn(combined, path, line), EntryHits(entry, path, line)))
  {
  }

  lemma {:induction false} MapIsAdded(combined: Combined, sources: SourceMap, naming: Naming)
    requires Exact(naming) && Keyed(combined)
    ensures AddMap(combined, sources, naming).Ok? && Keyed(AddMap(combined, sources, naming).value)
    ensures forall path :: path in AddMap(combined, sources, naming).value <==> path in combined || Mentions(sources, path)
    ensures forall path, line :: HitsIn(AddMap(combined, sources, naming).value, path, line)
                              == MaxOf(HitsIn(combined, path, line), MapHits(sources, path, line))
    decreases |sources|
  {
    hide Exact, Keyed, AddEntry, HitsIn, EntryHits;
    if sources != [] {
      EntryIsAdded(combined, sources[0], naming);
      var next := AddEntry(combined, sources[0], naming).value;
      MapIsAdded(next, sources[1..], naming);
      forall path ensures Mentions(sources, path) <==> sources[0].0 == path || Mentions(sources[1..], path) {
        assert forall k :: 0 < k < |sources| ==> sources[k] == sources[1..][k - 1];
      }
    }
  }

  lemma {:induction false} MapsAreAdded(combined: Combined, maps: seq<SourceMap>, naming: Naming)
    requires Exact(naming) && Keyed(combined)
    ensures AddMaps(combined, maps, naming).Ok? && Keyed(AddMaps(combined, maps, naming).value)
    ensures forall path :: path in AddMaps(combined, maps, naming).value <==> path in combined || AnyMentions(maps, path)
    ensures forall path, line :: HitsIn(AddMaps(combined, maps, naming).value, path, line)
                              == MaxOf(HitsIn(combined, path, line), AllHits(maps, path, line))
    decreases |maps|
  {
    hide Exact, Keyed, AddMap, HitsIn, MapHits, Mentions;
    if maps != [] {
      MapIsAdded(combined, maps[0], naming);
      var next := AddMap(combined, maps[0], naming).value;
      MapsAreAdded(next, maps[1..], naming);
      forall path ensures AnyMentions(maps, path) <==> Mentions(maps[0], path) || AnyMentions(maps[1..], path) {
        assert forall m :: m in maps <==> m == maps[0] || m in maps[1..];
      }
    }
  }

  // ----- the maximum, told by membership -----

  lemma {:induction false} MapHitsIsMax(sources: SourceMap, path: string, line: nat, hits: nat)
    ensures MapHits(sources, path, line).Some? ==> Reports(sources, path, line, MapHits(sources, path, line).value)
    ensures Reports(sources, path, line, hits) ==>
              MapHits(sources, path, line).Some? && hits <= MapHits(sources, path, line).value
  {
    if sources != [] {
      var rest := sources[1..];
      MapHitsIsMax(rest, path, line, hits);
      assert forall k :: 0 < k < |sources| ==> sources[k] == rest[k - 1];
      if MapHits(rest, path, line).Some? {
        var best := MapHits(rest, path, line).value;
        var k :| 0 <= k < |rest| && rest[k].0 == path && line in rest[k].1 && rest[k].1[line] == best;
        assert sources[k + 1] == rest[k];
      }
    }
  }

  lemma {:induction false} AllHitsIsMax(maps: seq<SourceMap>, path: string, line: nat, hits: nat)
    ensures AllHits(maps, path, line).Some? ==> AnyReports(maps, path, line, AllHits(maps, path, line).value)
    ensures AnyReports(maps, path, line, hits) ==>
              AllHits(maps, path, line).Some? && hits <= AllHits(maps, path, line).value
  {
    hide Reports, MapHits;
    if maps != [] {
      var rest := maps[1..];
      AllHitsIsMax(rest, path, line, hits);
      MapHitsIsMax(maps[0], path, line, hits);
      assert forall m :: m in maps <==> m == maps[0] || m in rest;
    }
  }

  /**
   On a case-sensitive system the union never fails on a non-empty list, knows exactly the paths
   some map knows, and gives every line the largest count any map reports for it.
   */
  lemma UnionIsPointwiseMaximum(maps: seq<SourceMap>, naming: Naming, path: string, line: nat, hits: nat)
    requires Exact(naming) && maps != []
    ensures Union(maps, naming).Ok?
    ensures path in Union(maps, naming).value <==> AnyMentions(maps, path)
    ensures HitsIn(Union(maps, naming).value, path, line) == Some(hits) <==>
              AnyReports(maps, path, line, hits) && forall other: nat :: AnyReports(maps, path, line, other) ==> other <= hits
  {
    hide AnyReports, AnyMentions, Exact, HitsIn;
    NothingYet(path, line);
    MapsAreAdded(map[], maps, naming);
    AllHitsIsMax(maps, path, line, hits);
    forall other: nat ensures AnyReports(maps, path, line, other) ==>
      AllHits(maps, path, line).Some? && other <= AllHits(maps, path, line).value
    {
      AllHitsIsMax(maps, path, line, other);
    }
  }

  lemma NothingYet(path: string, line: nat)
    ensures HitsIn(map[], path, line) == None && Keyed(map[])
  {
  }

  /** Two unions with the same recorded paths and counts are the same. */
  lemma SameHitsSameUnion(a: Combined, b: Combined)
    requires Keyed(a) && Keyed(b) && (forall path :: path in a <==> path in b)
    requires forall path, line :: HitsIn(a, path, line) == HitsIn(b, path, line)
    ensures a == b
  {
    forall path | path in a ensures a[path] == b[path] {
      forall line ensures line in a[path].lines <==> line in b[path].lines {
        assert HitsIn(a, path, line) == HitsIn(b, path, line);
      }
      forall line | line in a[path].lines ensures a[path].lines[line] == b[path].lines[line] {
        assert HitsIn(a, path, line) == HitsIn(b, path, line);
      }
      assert a[path].lines == b[path].lines;
    }
    assert a.Keys == b.Keys;
  }

  lemma SameMapsSameHits(a: seq<SourceMap>, b: seq<SourceMap>, path: string, line: nat)
    requires forall m :: m in a <==> m in b
    ensures AllHits(a, path, line) == AllHits(b, path, line)
  {
    hide Reports, AllHits;
    forall hits: nat ensures AnyReports(a, path, line, hits) == AnyReports(b, path, line, hits) {
    }
    hide AnyReports;
    var x, y := AllHits(a, path, line), AllHits(b, path, line);
    AllHitsIsMax(a, path, line, if y.Some? then y.value else 0);
    AllHitsIsMax(b, path, line, if x.Some? then x.value else 0);
  }

  /** The union depends only on which maps are given: reordering or repeating them changes nothing. */
  lemma UnionIgnoresOrderAndRepetition(a: seq<SourceMap>, b: seq<SourceMap>, naming: Naming)
    requires Exact(naming) && a != [] && forall m :: m in a <==> m in b
    ensures Union(a, naming) == Union(b, naming)
  {
    hide Exact, Keyed, AddMaps, HitsIn, AllHits;
    assert a[0] in b;
    NothingYet("", 0);
    MapsAreAdded(map[], a, naming);
    MapsAreAdded(map[], b, naming);
    forall path ensures AnyMentions(a, path) == AnyMentions(b, path) {
    }
    forall path, line ensures AllHits(a, path, line) == AllHits(b, path, line) {
      SameMapsSameHits(a, b, path, line);
    }
    SameHitsSameUnion(Union(a, naming).value, Union(b, naming).value);
  }

  /** One more map: known lines stay known and no count goes down. */
  lemma MoreMapsMoreEvidence(maps: seq<SourceMap>, extra: SourceMap, naming: Naming, path: string, line: nat)
    requires Exact(naming) && maps != []
    ensures Union(maps, naming).Ok? && Union(maps + [extra], naming).Ok?
    ensures path in Union(maps, naming).value ==> path in Union(maps + [extra], naming).value
    ensures HitsIn(Union(maps, naming).value, path, line).Some? ==>
              HitsIn(Union(maps + [extra], naming).value, path, line).Some? &&
              HitsIn(Union(maps, naming).value, path, line).value
              <= HitsIn(Union(maps + [extra], naming).value, path, line).value
  {
    hide Exact, Union, HitsIn, Reports, Mentions;
    var all := maps + [extra];
    UnionIsPointwiseMaximum(maps, naming, path, line, 0);
    UnionIsPointwiseMaximum(all, naming, path, line, 0);
    var before := HitsIn(Union(maps, naming).value, path, line);
    var after := HitsIn(Union(all, naming).value, path, line);
    UnionIsPointwiseMaximum(maps, naming, path, line, if before.Some? then before.value else 0);
    UnionIsPointwiseMaximum(all, naming, path, line, if after.Some? then after.value else 0);
    if before.Some? {
      MapsAreInAll(maps, extra);
      assert AnyReports(all, path, line, before.value);
      SomeHits(all, naming, path, line, before.value);
    }
  }

  lemma MapsAreInAll(maps: seq<SourceMap>, extra: SourceMap)
    ensures forall m :: m in maps ==> m in maps + [extra]
  {
  }

  lemma SomeHits(maps: seq<SourceMap>, naming: Naming, path: string, line: nat, hits: nat)
    requires Exact(naming) && maps != [] && AnyReports(maps, path, line, hits)
    ensures Union(maps, naming).Ok? && HitsIn(Union(maps, naming).value, path, line).Some?
  {
    hide Exact, HitsIn, AnyReports;
    NothingYet(path, line);
    MapsAreAdded(map[], maps, naming);
    AllHitsIsMax(maps, path, line, hits);
  }

  lemma {:induction false} HitsOfOneMore(maps: seq<SourceMap>, extra: SourceMap, path: string, line: nat)
    ensures AllHits(maps + [extra], path, line) == MaxOf(AllHits(maps, path, line), MapHits(extra, path, line))
    decreases |maps|
  {
    hide MapHits;
    if maps == [] {
      assert [] + [extra] == [extra] && [extra][1..] == [];
    } else {
      HitsOfOneMore(maps[1..], extra, path, line);
      assert (maps + [extra])[1..] == maps[1..] + [extra];
    }
  }

  /** One more map, exactly: each count is the larger of the old one and the new map's. */
  lemma OneMoreMap(maps: seq<SourceMap>, extra: SourceMap, naming: Naming, path: string, line: nat)
    requires Exact(naming) && maps != []
    ensures Union(maps, naming).Ok? && Union(maps + [extra], naming).Ok?
    ensures HitsIn(Union(maps + [extra], naming).value, path, line)
         == MaxOf(HitsIn(Union(maps, naming).value, path, line), MapHits(extra, path, line))
  {
    hide Exact, HitsIn, AllHits, MapHits, AnyMentions;
    NothingYet(path, line);
    MapsAreAdded(map[], maps, naming);
    MapsAreAdded(map[], maps + [extra], naming);
    HitsOfOneMore(maps, extra, path, line);
  }
}
