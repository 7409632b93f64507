/** The union of several coverage maps: per source line, the best evidence of any of them. */
module CoverageUnion {
  import opened Wrappers

  /** Executed-or-not counts by line number. */
  type Lines = map<nat, nat>

  /** One map's entries in their own order; a path occurs at most once. */
  type SourceMap = seq<(string, Lines)>

  datatype Entry = Entry(path: string, lines: Lines)

  type Combined = map<string, Entry>

  datatype UnionError = NoMaps | PathsDisagree(existing: string, path: string)

  function Best(lines: Lines, line: nat, hits: nat): nat {
    var before := if line in lines then lines[line] else 0;
    if before < hits then hits else before
  }

  function BestOf(a: Lines, b: Lines): (lines: Lines)
    ensures lines.Keys == a.Keys + b.Keys
  {
    map line | line in a.Keys + b.Keys :: if line in b then Best(a, line, b[line]) else a[line]
  }

  /** How a path is compared between maps, and whether spelling differences are tolerated. */
  datatype Naming = Naming(key: string -> string, tolerant: bool)

  function AddEntry(combined: Combined, entry: (string, Lines), naming: Naming): Result<Combined, UnionError> {
    var identity := naming.key(entry.0);
    if identity !in combined then Ok(combined[identity := Entry(entry.0, entry.1)])
    else
      var existing := combined[identity];
      if existing.path != entry.0 && !naming.tolerant then Err(PathsDisagree(existing.path, entry.0))
      else Ok(combined[identity := Entry(existing.path, BestOf(existing.lines, entry.1))])
  }

  function AddMap(combined: Combined, sources: SourceMap, naming: Naming): Result<Combined, UnionError>
    decreases |sources|
  {
    if sources == [] then Ok(combined)
    else match AddEntry(combined, sources[0], naming)
      case Err(error) => Err(error)
      case Ok(next) => AddMap(next, sources[1..], naming)
  }

  function AddMaps(combined: Combined, maps: seq<SourceMap>, naming: Naming): Result<Combined, UnionError>
    decreases |maps|
  {
    if maps == [] then Ok(combined)
    else match AddMap(combined, maps[0], naming)
      case Err(error) => Err(error)
      case Ok(next) => AddMaps(next, maps[1..], naming)
  }

  function Union(maps: seq<SourceMap>, naming: Naming): Result<Combined, UnionError> {
    if maps == [] then Err(NoMaps) else AddMaps(map[], maps, naming)
  }

  /** The inner loop: raise every line of one entry to the better of the two counts, in any order. */
  method MergeLines(existing: Lines, added: Lines) returns (lines: Lines)
    ensures lines == BestOf(existing, added)
  {
    lines := existing;
    var pending := added.Keys;
    while pending != {}
      invariant pending <= added.Keys
      invariant lines.Keys == existing.Keys + (added.Keys - pending)
      invariant forall line :: line in lines ==>
        lines[line] == if line in added && line !in pending then Best(existing, line, added[line]) else existing[line]
      decreases pending
    {
      var line :| line in pending;
      lines := lines[line := Best(lines, line, added[line])];
      pending := pending - {line};
    }
  }

  method UnionSourceCoverageMaps(maps: seq<SourceMap>, naming: Naming) returns (r: Result<Combined, UnionError>)
    ensures r == Union(maps, naming)
  {
    if maps == [] { return Err(NoMaps); }
    var combined: Combined := map[];
    for m := 0 to |maps|
      invariant AddMaps(map[], maps, naming) == AddMaps(combined, maps[m..], naming)
    {
      var sources := maps[m];
      assert maps[m..][1..] == maps[m + 1..];
      ghost var start := combined;
      for k := 0 to |sources|
        invariant AddMap(start, sources, naming) == AddMap(combined, sources[k..], naming)
      {
        var (path, lines) := sources[k];
        assert sources[k..][1..] == sources[k + 1..];
        var identity := naming.key(path);
        if identity !in combined {
          combined := combined[identity := Entry(path, lines)];
          continue;
        }
        var existing := combined[identity];
        if existing.path != path && !naming.tolerant {
          return Err(PathsDisagree(existing.path, path));
        }
        var merged := MergeLines(existing.lines, lines);
        combined := combined[identity := Entry(existing.path, merged)];
      }
    }
    r := Ok(combined);
  }

  // ----- the union as a pointwise maximum -----

  /** Paths are compared as written: the naming of a case-sensitive system. */
  ghost predicate Exact(naming: Naming) {
    !naming.tolerant && forall path :: naming.key(path) == path
  }

  predicate Reports(sources: SourceMap, path: string, line: nat, hits: nat) {
    exists k :: 0 <= k < |sources| && sources[k].0 == path && line in sources[k].1 && sources[k].1[line] == hits
  }

  predicate Mentions(sources: SourceMap, path: string) {
    exists k :: 0 <= k < |sources| && sources[k].0 == path
  }

  /** Some map gives this count for the line. */
  predicate AnyReports(maps: seq<SourceMap>, path: string, line: nat, hits: nat) {
    exists m :: m in maps && Reports(m, path, line, hits)
  }

  predicate AnyMentions(maps: seq<SourceMap>, path: string) {
    exists m :: m in maps && Mentions(m, path)
  }

  /** Every entry sits under its own path. */
  ghost predicate Keyed(combined: Combined) {
    forall path :: path in combined ==> combined[path].path == path
  }
}
