/**
 One coverage map more, exactly: how each line's status and each class's totals change, and when the run still
 passes. All of it is told by the old report and the new map alone.
 */
module ExtraMap {
  import opened Analysis
  import opened AnalysisTheorems
  import opened CoverageUnion
  import opened CoverageUnionTheorems
  import opened CriticalPolicy
  import opened Hunks
  import opened PercentGate
  import opened TestItems
  import opened Wrappers

  // ----- one line -----

  /** A line's status once one more map reports it with so many hits, or does not report it. */
  function Moved(status: Status, hits: Option<nat>): Status {
    if hits.None? || status in {ExcludedTest, InlineTest, Covered} then status
    else if hits.value > 0 then Covered
    else Uncovered
  }

  function HitsOn(lines: Option<Lines>, number: nat): Option<nat> {
    if lines.Some? && number in lines.value then Some(lines.value[number]) else None
  }

  lemma StatusMoves(number: nat, a: Option<Lines>, b: Option<Lines>, hits: Option<nat>, structural: set<nat>, inlineTest: set<nat>)
    requires HitsOn(b, number) == MaxOf(HitsOn(a, number), hits)
    ensures StatusOf(number, b, structural, inlineTest) == Moved(StatusOf(number, a, structural, inlineTest), hits)
  {
  }

  // ----- counting the moves -----

  /** Lines that become covered, lines that become coverable, and lines that are no longer unmapped. */
  datatype Moves = Moves(gained: nat, counted: nat, resolved: nat)

  type Hits = nat -> Option<nat>

  function MoveOf(status: Status, hits: Option<nat>): Moves {
    if hits.None? then Moves(0, 0, 0)
    else Moves(if status in {Uncovered, NonCoverable, Unmapped} && hits.value > 0 then 1 else 0,
               if status in {NonCoverable, Unmapped} then 1 else 0, if status == Unmapped then 1 else 0)
  }

  function AddMoves(a: Moves, b: Moves): Moves {
    Moves(a.gained + b.gained, a.counted + b.counted, a.resolved + b.resolved)
  }

  function MovesIn(lines: seq<LineReport>, hits: Hits): Moves {
    if lines == [] then Moves(0, 0, 0)
    else
      var last := lines[|lines| - 1];
      AddMoves(MovesIn(lines[..|lines| - 1], hits), MoveOf(last.status, hits(last.line.number)))
  }

  /** What the new map says of the lines of a file. */
  function HitsFor(extra: SourceMap, path: string, platform: Platform): Hits {
    (number: nat) => MapHits(extra, PathKey(path, platform), number)
  }

  function TierMoves(reports: seq<FileReport>, tier: Tier, extra: SourceMap, platform: Platform): Moves {
    if reports == [] then Moves(0, 0, 0)
    else
      var rest, last := TierMoves(reports[..|reports| - 1], tier, extra, platform), reports[|reports| - 1];
      if last.tier == tier then AddMoves(rest, MovesIn(last.lines, HitsFor(extra, last.path, platform))) else rest
  }

  /** The same lines, each with its status moved as the hits say. */
  ghost predicate LinesMove(a: seq<LineReport>, b: seq<LineReport>, hits: Hits) {
    |a| == |b| && forall k :: 0 <= k < |a| ==> b[k] == LineReport(a[k].line, Moved(a[k].status, hits(a[k].line.number)))
  }

  predicate CountsMove(covered: nat, coverable: nat, unmapped: nat, covered': nat, coverable': nat, unmapped': nat, moves: Moves) {
    && covered' == covered + moves.gained && coverable' == coverable + moves.counted && unmapped == unmapped' + moves.resolved
  }

  lemma {:induction false} TalliesMove(a: seq<LineReport>, b: seq<LineReport>, hits: Hits)
    requires LinesMove(a, b, hits)
    ensures CountsMove(Tally(a, Covered), Tally(a, Covered) + Tally(a, Uncovered), Tally(a, Unmapped),
                       Tally(b, Covered), Tally(b, Covered) + Tally(b, Uncovered), Tally(b, Unmapped), MovesIn(a, hits))
  {
    if a != [] {
      TalliesMove(a[..|a| - 1], b[..|b| - 1], hits);
    }
  }

  /** The same file in the same class, its lines and counts moved. */
  ghost predicate FileMoves(a: FileReport, b: FileReport, extra: SourceMap, platform: Platform) {
    var hits := HitsFor(extra, a.path, platform);
    && a.path == b.path && a.tier == b.tier && LinesMove(a.lines, b.lines, hits)
    && CountsMove(a.counts.covered, a.counts.coverable, a.counts.unmapped,
                  b.counts.covered, b.counts.coverable, b.counts.unmapped, MovesIn(a.lines, hits))
  }

  ghost predicate AllMove(a: seq<FileReport>, b: seq<FileReport>, extra: SourceMap, platform: Platform) {
    |a| == |b| && forall k :: 0 <= k < |a| ==> FileMoves(a[k], b[k], extra, platform)
  }

  /** Every count of `better` is the larger of the old one and the new map's. */
  ghost predicate Raised(coverage: map<string, Lines>, better: map<string, Lines>, extra: SourceMap) {
    forall path, number :: HitsOn(Find(better, path), number) == MaxOf(HitsOn(Find(coverage, path), number), MapHits(extra, path, number))
  }

  function Find(coverage: map<string, Lines>, path: string): Option<Lines> {
    if path in coverage then Some(coverage[path]) else None
  }

  lemma ClassifiedMoves(
    added: seq<ChangedLine>, a: Option<Lines>, b: Option<Lines>, hits: Hits, structural: set<nat>, inlineTest: set<nat>)
    requires forall number :: HitsOn(b, number) == MaxOf(HitsOn(a, number), hits(number))
    ensures LinesMove(Classified(added, a, structural, inlineTest), Classified(added, b, structural, inlineTest), hits)
  {
    hide StatusOf, HitsOn, Moved;
    forall k | 0 <= k < |added|
      ensures StatusOf(added[k].number, b, structural, inlineTest)
           == Moved(StatusOf(added[k].number, a, structural, inlineTest), hits(added[k].number))
    {
      StatusMoves(added[k].number, a, b, hits(added[k].number), structural, inlineTest);
    }
  }

  lemma {:induction false} TestLinesStay(lines: seq<LineReport>, hits: Hits)
    requires forall k :: 0 <= k < |lines| ==> lines[k].status == ExcludedTest
    ensures LinesMove(lines, lines, hits) && MovesIn(lines, hits) == Moves(0, 0, 0)
  {
    if lines != [] {
      TestLinesStay(lines[..|lines| - 1], hits);
    }
  }

  lemma FileReportMoves(file: ChangedFile, inputs: Inputs, better: map<string, Lines>, extra: SourceMap)
    requires IsRustTarget(file) && Raised(inputs.coverage, better, extra)
    ensures FileReportOf(file, inputs).Ok? <==> FileReportOf(file, inputs.(coverage := better)).Ok?
    ensures FileReportOf(file, inputs).Ok? ==>
              FileMoves(FileReportOf(file, inputs).value, FileReportOf(file, inputs.(coverage := better)).value, extra, inputs.platform)
  {
    hide Match, TestRanges, Classified, Tally, MovesIn, LinesMove, MapHits, HitsOn, ScannedLines, CriticalRule;
    var path, changed := file.newPath.value, inputs.(coverage := better);
    var hits := HitsFor(extra, path, inputs.platform);
    TestLinesStay(TestOnlyLines(file.added), hits);
    SameScan(file, inputs, better);
    var scanned := ScannedLines(path, file.added, inputs);
    if scanned.Ok? {
      var (structural, inlineTest) := scanned.value;
      var a, b := CoverageOf(path, inputs), CoverageOf(path, changed);
      assert a == Find(inputs.coverage, PathKey(path, inputs.platform)) && b == Find(better, PathKey(path, inputs.platform));
      ClassifiedMoves(file.added, a, b, hits, structural, inlineTest);
      TalliesMove(Classified(file.added, a, structural, inlineTest), Classified(file.added, b, structural, inlineTest), hits);
    }
  }

  /** Neither the scan of the source nor the policy depends on the coverage. */
  lemma SameScan(file: ChangedFile, inputs: Inputs, better: map<string, Lines>)
    requires IsRustTarget(file)
    ensures ScannedLines(file.newPath.value, file.added, inputs)
         == ScannedLines(file.newPath.value, file.added, inputs.(coverage := better))
    ensures CriticalRule(file, inputs) == CriticalRule(file, inputs.(coverage := better))
  {
    hide Match, TestRanges;
  }

  lemma {:induction false} ReportsMove(files: seq<ChangedFile>, inputs: Inputs, better: map<string, Lines>, extra: SourceMap)
    requires Raised(inputs.coverage, better, extra)
    ensures FileReports(files, inputs).Ok? <==> FileReports(files, inputs.(coverage := better)).Ok?
    ensures FileReports(files, inputs).Ok? ==>
              AllMove(FileReports(files, inputs).value, FileReports(files, inputs.(coverage := better)).value, extra, inputs.platform)
  {
    hide FileReportOf, FileReports, Raised, IsRustTarget, FileMoves;
    if files != [] {
      var file, before := files[|files| - 1], files[..|files| - 1];
      ReportsMove(before, inputs, better, extra);
      FileReportsUnfold(files, inputs);
      FileReportsUnfold(files, inputs.(coverage := better));
      if IsRustTarget(file) {
        FileReportMoves(file, inputs, better, extra);
      }
    } else {
      NoReports(inputs);
      NoReports(inputs.(coverage := better));
    }
  }

  predicate TotalsMove(a: TierTotals, b: TierTotals, moves: Moves) {
    CountsMove(a.covered, a.coverable, a.unmapped, b.covered, b.coverable, b.unmapped, moves)
  }

  lemma {:induction false} TiersMove(a: seq<FileReport>, b: seq<FileReport>, tier: Tier, extra: SourceMap, platform: Platform)
    requires AllMove(a, b, extra, platform)
    ensures TotalsMove(TotalsOf(a, tier), TotalsOf(b, tier), TierMoves(a, tier, extra, platform))
  {
    hide LinesMove, MovesIn, HitsFor;
    if a != [] {
      var n := |a| - 1;
      TiersMove(a[..n], b[..n], tier, extra, platform);
      assert FileMoves(a[n], b[n], extra, platform);
    }
  }

  lemma UnionRaises(maps: seq<SourceMap>, extra: SourceMap, naming: Naming)
    requires Exact(naming) && maps != []
    ensures Union(maps, naming).Ok? && Union(maps + [extra], naming).Ok?
    ensures Raised(Lookup(Union(maps, naming).value), Lookup(Union(maps + [extra], naming).value), extra)
  {
    hide Exact, Union, MapHits;
    OneMoreMap(maps, extra, naming, "", 0);
    var a, b := Union(maps, naming).value, Union(maps + [extra], naming).value;
    forall path, number
      ensures HitsOn(Find(Lookup(b), path), number) == MaxOf(HitsOn(Find(Lookup(a), path), number), MapHits(extra, path, number))
    {
      OneMoreMap(maps, extra, naming, path, number);
    }
  }

  // ----- the verdict -----

  /** No unmapped line is left, and the covered fraction still reaches the minimum after these moves. */
  predicate StillMeets(t: TierTotals, moves: Moves, minimum: nat) {
    t.unmapped == moves.resolved && 10000 * (t.covered + moves.gained) >= minimum * (t.coverable + moves.counted)
  }

  /**
   The run with one more map passes exactly when, in each class, the new map resolves all unmapped lines and the
   lines it covers outweigh the lines it makes coverable: a condition on the old report and the new map.
   */
  lemma ExtraMapVerdict(files: seq<ChangedFile>, inputs: Inputs, maps: seq<SourceMap>, extra: SourceMap, naming: Naming)
    requires Exact(naming) && maps != []
    ensures Union(maps, naming).Ok? && Union(maps + [extra], naming).Ok?
    ensures var before := Analyze(files, inputs.(coverage := Lookup(Union(maps, naming).value)));
            var after := Analyze(files, inputs.(coverage := Lookup(Union(maps + [extra], naming).value)));
            && (before.Ok? <==> after.Ok?)
            && (before.Ok? ==>
                  var ordinary := TierMoves(before.value.files, Ordinary, extra, inputs.platform);
                  var critical := TierMoves(before.value.files, Critical, extra, inputs.platform);
                  && AllMove(before.value.files, after.value.files, extra, inputs.platform)
                  && after.value.totals.coverable == before.value.totals.coverable + ordinary.counted + critical.counted
                  && (after.value.totals.coverable <= EXACT_BOUND ==>
                        (after.value.passed <==> StillMeets(before.value.ordinary.totals, ordinary, inputs.ordinaryMinimum) &&
                                                 StillMeets(before.value.critical.totals, critical, inputs.criticalMinimum))))
  {
    hide Exact, Union, FileReports, Totals, TotalsOf, Raised, AllMove, TierMoves, TierStatusOf, TiersAddUp, TotalsMove, MeetsMinimum,
      StillMeets;
    UnionRaises(maps, extra, naming);
    var changed := inputs.(coverage := Lookup(Union(maps, naming).value));
    var better := changed.(coverage := Lookup(Union(maps + [extra], naming).value));
    ReportsMove(files, changed, better.coverage, extra);
    if FileReports(files, changed).Ok? {
      var a, b := FileReports(files, changed).value, FileReports(files, better).value;
      TiersMove(a, b, Ordinary, extra, inputs.platform);
      TiersMove(a, b, Critical, extra, inputs.platform);
      LinesAreConserved(files, changed);
      LinesAreConserved(files, better);
      CoverableMoves(Analyze(files, changed).value, Analyze(files, better).value,
                     TierMoves(a, Ordinary, extra, inputs.platform), TierMoves(a, Critical, extra, inputs.platform));
      MinimumMoves(TotalsOf(a, Ordinary), TotalsOf(b, Ordinary), TierMoves(a, Ordinary, extra, inputs.platform), inputs.ordinaryMinimum);
      MinimumMoves(TotalsOf(a, Critical), TotalsOf(b, Critical), TierMoves(a, Critical, extra, inputs.platform), inputs.criticalMinimum);
      if Analyze(files, better).value.totals.coverable <= EXACT_BOUND {
        PassedIsExact(files, better);
      }
    }
  }

  lemma CoverableMoves(before: Report, after: Report, ordinary: Moves, critical: Moves)
    requires TiersAddUp(before.totals, before.ordinary.totals, before.critical.totals)
    requires TiersAddUp(after.totals, after.ordinary.totals, after.critical.totals)
    requires TotalsMove(before.ordinary.totals, after.ordinary.totals, ordinary)
    requires TotalsMove(before.critical.totals, after.critical.totals, critical)
    ensures after.totals.coverable == before.totals.coverable + ordinary.counted + critical.counted
  {
  }

  lemma MinimumMoves(before: TierTotals, after: TierTotals, moves: Moves, minimum: nat)
    requires TotalsMove(before, after, moves)
    ensures MeetsMinimum(after, minimum) <==> StillMeets(before, moves, minimum)
  {
  }

  /** For a run that passed nothing is unmapped, so the fractions alone decide. */
  lemma PassingRunVerdict(files: seq<ChangedFile>, inputs: Inputs, maps: seq<SourceMap>, extra: SourceMap, naming: Naming)
    requires Exact(naming) && maps != []
    ensures Union(maps, naming).Ok? && Union(maps + [extra], naming).Ok?
    ensures var before := Analyze(files, inputs.(coverage := Lookup(Union(maps, naming).value)));
            var after := Analyze(files, inputs.(coverage := Lookup(Union(maps + [extra], naming).value)));
            before.Ok? && before.value.passed ==>
              var ordinary := TierMoves(before.value.files, Ordinary, extra, inputs.platform);
              var critical := TierMoves(before.value.files, Critical, extra, inputs.platform);
              var o, c := before.value.ordinary.totals, before.value.critical.totals;
              before.value.totals.coverable + ordinary.counted + critical.counted <= EXACT_BOUND ==>
                && after.Ok?
                && (after.value.passed <==>
                      && 10000 * (o.covered + ordinary.gained) >= inputs.ordinaryMinimum * (o.coverable + ordinary.counted)
                      && 10000 * (c.covered + critical.gained) >= inputs.criticalMinimum * (c.coverable + critical.counted))
  {
    hide Exact, Union, FileReports, Totals, TotalsOf, AllMove, TierMoves, MeetsMinimum, TotalsMove, Raised;
    UnionRaises(maps, extra, naming);
    ExtraMapVerdict(files, inputs, maps, extra, naming);
    var changed := inputs.(coverage := Lookup(Union(maps, naming).value));
    var better := Lookup(Union(maps + [extra], naming).value);
    if Analyze(files, changed).Ok? && Analyze(files, changed).value.passed {
      ReportsMove(files, changed, better, extra);
      var a, b := FileReports(files, changed).value, FileReports(files, changed.(coverage := better)).value;
      TiersMove(a, b, Ordinary, extra, inputs.platform);
      TiersMove(a, b, Critical, extra, inputs.platform);
      NothingToResolve(TotalsOf(a, Ordinary), TotalsOf(b, Ordinary), TierMoves(a, Ordinary, extra, inputs.platform));
      NothingToResolve(TotalsOf(a, Critical), TotalsOf(b, Critical), TierMoves(a, Critical, extra, inputs.platform));
    }
  }

  lemma NothingToResolve(before: TierTotals, after: TierTotals, moves: Moves)
    requires TotalsMove(before, after, moves)
    ensures before.unmapped == 0 ==> moves.resolved == 0
  {
  }
}
