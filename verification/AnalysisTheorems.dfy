/**
 The accounting as a whole: no line is lost or counted twice, the two classes add up to the production
 totals, the verdict is the exact arithmetic condition, critical files cannot slip into the ordinary class,
 and further coverage maps only add evidence.
 */
module AnalysisTheorems {
  import opened Analysis
  import opened CoverageUnion
  import opened CoverageUnionTheorems
  import opened CriticalPolicy
  import opened CriticalPolicyTheorems
  import opened Hunks
  import opened PercentGate
  import opened RustMask
  import opened Text
  import opened TestItems
  import opened Wrappers

  // ----- every added line once -----

  /** All added lines of the changed Rust files, in order. */
  function AddedLines(files: seq<ChangedFile>): seq<ChangedLine> {
    if files == [] then []
    else AddedLines(files[..|files| - 1]) +
         (if IsRustTarget(files[|files| - 1]) then files[|files| - 1].added else [])
  }

  function ReportedLines(lines: seq<LineReport>): (r: seq<ChangedLine>)
    ensures |r| == |lines|
    ensures forall k :: 0 <= k < |lines| ==> r[k] == lines[k].line
  {
    seq(|lines|, k requires 0 <= k < |lines| => lines[k].line)
  }

  function AllReported(reports: seq<FileReport>): seq<ChangedLine> {
    if reports == [] then []
    else AllReported(reports[..|reports| - 1]) + ReportedLines(reports[|reports| - 1].lines)
  }

  lemma FileReportCoversLines(file: ChangedFile, inputs: Inputs)
    requires IsRustTarget(file) && FileReportOf(file, inputs).Ok?
    ensures ReportedLines(FileReportOf(file, inputs).value.lines) == file.added
  {
    hide Match, TestRanges, CountsOf;
  }

  lemma {:induction false} FileReportsCoverLines(files: seq<ChangedFile>, inputs: Inputs)
    requires FileReports(files, inputs).Ok?
    ensures AllReported(FileReports(files, inputs).value) == AddedLines(files)
  {
    hide FileReportOf;
    if files != [] {
      var file, before := files[|files| - 1], files[..|files| - 1];
      FileReportsCoverLines(before, inputs);
      if IsRustTarget(file) {
        FileReportCoversLines(file, inputs);
        var reports := FileReports(files, inputs).value;
        assert reports[..|reports| - 1] == FileReports(before, inputs).value;
      }
    }
  }

  /** Every added line of every changed Rust file is reported once, in order, and nothing else is. */
  lemma EveryLineIsReportedOnce(files: seq<ChangedFile>, inputs: Inputs)
    requires Analyze(files, inputs).Ok?
    ensures AllReported(Analyze(files, inputs).value.files) == AddedLines(files)
  {
    FileReportsCoverLines(files, inputs);
  }

  // ----- conservation -----

  lemma FileReportShape(file: ChangedFile, inputs: Inputs)
    requires IsRustTarget(file) && FileReportOf(file, inputs).Ok?
    ensures WellCounted(FileReportOf(file, inputs).value)
  {
    hide Match, TestRanges, Tally;
    FileReportBalances(file, inputs);
    var report := FileReportOf(file, inputs).value;
    if report.tier != Excluded {
      NoExcludedStatus(report.lines);
    }
  }

  lemma {:induction false} NoExcludedStatus(lines: seq<LineReport>)
    requires forall k :: 0 <= k < |lines| ==> lines[k].status != ExcludedTest
    ensures Tally(lines, ExcludedTest) == 0
  {
    if lines != [] {
      NoExcludedStatus(lines[..|lines| - 1]);
    }
  }

  /** The two classes add up to the production part of the totals. */
  predicate TiersAddUp(totals: Counts, ordinary: TierTotals, critical: TierTotals) {
    && totals.production == ordinary.production + critical.production
    && totals.inlineTest == ordinary.inlineTest + critical.inlineTest
    && totals.coverable == ordinary.coverable + critical.coverable
    && totals.covered == ordinary.covered + critical.covered
    && totals.uncovered == ordinary.uncovered + critical.uncovered
    && totals.nonCoverable == ordinary.nonCoverable + critical.nonCoverable
    && totals.unmapped == ordinary.unmapped + critical.unmapped
  }

  predicate WellCounted(report: FileReport) {
    && Balanced(report.counts)
    && (report.tier == Excluded ==> report.counts.production == 0 && report.counts.inlineTest == 0)
    && (report.tier != Excluded ==> report.counts.excludedTest == 0)
  }

  predicate Conserved(reports: seq<FileReport>) {
    Balanced(Totals(reports)) && TiersAddUp(Totals(reports), TotalsOf(reports, Ordinary), TotalsOf(reports, Critical))
  }

  lemma TotalsUnfold(reports: seq<FileReport>, report: FileReport)
    ensures Totals(reports + [report]) == AddCounts(Totals(reports), report.counts)
  {
    assert (reports + [report])[..|reports|] == reports;
  }

  lemma TotalsOfUnfold(reports: seq<FileReport>, report: FileReport, tier: Tier)
    ensures TotalsOf(reports + [report], tier)
         == if report.tier == tier then AddToTier(TotalsOf(reports, tier), report.counts) else TotalsOf(reports, tier)
  {
    assert (reports + [report])[..|reports|] == reports;
  }

  lemma BalancedSum(a: Counts, b: Counts)
    requires Balanced(a) && Balanced(b)
    ensures Balanced(AddCounts(a, b))
  {
  }

  lemma OneMoreConserved(reports: seq<FileReport>, report: FileReport)
    requires Conserved(reports) && WellCounted(report)
    ensures Conserved(reports + [report])
  {
    hide Totals, TotalsOf, Balanced;
    TotalsUnfold(reports, report);
    TotalsOfUnfold(reports, report, Ordinary);
    TotalsOfUnfold(reports, report, Critical);
    BalancedSum(Totals(reports), report.counts);
    TiersStayApart(Totals(reports), TotalsOf(reports, Ordinary), TotalsOf(reports, Critical), report);
  }

  lemma TiersStayApart(totals: Counts, ordinary: TierTotals, critical: TierTotals, report: FileReport)
    requires TiersAddUp(totals, ordinary, critical) && WellCounted(report)
    ensures TiersAddUp(AddCounts(totals, report.counts),
                       if report.tier == Ordinary then AddToTier(ordinary, report.counts) else ordinary,
                       if report.tier == Critical then AddToTier(critical, report.counts) else critical)
  {
  }

  lemma {:induction false} TotalsConserve(files: seq<ChangedFile>, inputs: Inputs)
    requires FileReports(files, inputs).Ok?
    ensures Conserved(FileReports(files, inputs).value)
  {
    hide FileReportOf, Conserved, WellCounted;
    if files != [] {
      var file, before := files[|files| - 1], files[..|files| - 1];
      TotalsConserve(before, inputs);
      if IsRustTarget(file) {
        FileReportShape(file, inputs);
        OneMoreConserved(FileReports(before, inputs).value, FileReportOf(file, inputs).value);
      }
    } else {
      NothingConserved([]);
    }
  }

  lemma NothingConserved(reports: seq<FileReport>)
    requires reports == []
    ensures Conserved(reports)
  {
    hide Totals, TotalsOf, Balanced, TiersAddUp;
    assert TotalsOf(reports, Ordinary) == TotalsOf(reports, Critical);
    NothingBalances(Totals(reports));
    NothingAddsUp(Totals(reports), TotalsOf(reports, Ordinary));
  }

  lemma NothingBalances(totals: Counts)
    requires totals == Counts(0, 0, 0, 0, 0, 0, 0, 0, 0)
    ensures Balanced(totals)
  {
  }

  lemma NothingAddsUp(totals: Counts, tier: TierTotals)
    requires totals == Counts(0, 0, 0, 0, 0, 0, 0, 0, 0) && tier == TierTotals(0, 0, 0, 0, 0, 0, 0, 0)
    ensures TiersAddUp(totals, tier, tier)
  {
  }

  lemma {:induction false} TotalsCountLines(reports: seq<FileReport>)
    requires forall k :: 0 <= k < |reports| ==> reports[k].counts.changed == |reports[k].lines|
    ensures Totals(reports).changed == |AllReported(reports)|
  {
    if reports != [] {
      TotalsCountLines(reports[..|reports| - 1]);
    }
  }

  lemma {:induction false} ReportsCountLines(files: seq<ChangedFile>, inputs: Inputs)
    requires FileReports(files, inputs).Ok?
    ensures forall k :: 0 <= k < |FileReports(files, inputs).value| ==>
              var report := FileReports(files, inputs).value[k];
              report.counts.changed == |report.lines|
  {
    hide Match, TestRanges, Tally, Classified;
    if files != [] {
      ReportsCountLines(files[..|files| - 1], inputs);
    }
  }

  /**
   Lines are conserved: changed lines are production, excluded-test or inline-test; production lines are
   coverable, non-coverable or unmapped; coverable lines are covered or uncovered; the classes add up; and
   the number of changed lines is the number of added lines.
   */
  lemma LinesAreConserved(files: seq<ChangedFile>, inputs: Inputs)
    requires Analyze(files, inputs).Ok?
    ensures var report := Analyze(files, inputs).value;
            && Balanced(report.totals)
            && TiersAddUp(report.totals, report.ordinary.totals, report.critical.totals)
            && report.totals.changed == |AddedLines(files)|
  {
    hide FileReportOf;
    TotalsConserve(files, inputs);
    FileReportsCoverLines(files, inputs);
    ReportsCountLines(files, inputs);
    TotalsCountLines(FileReports(files, inputs).value);
  }

  function CountTargets(files: seq<ChangedFile>): nat {
    if files == [] then 0
    else CountTargets(files[..|files| - 1]) + (if IsRustTarget(files[|files| - 1]) then 1 else 0)
  }

  lemma ScopeIsClass(file: ChangedFile, inputs: Inputs)
    requires IsRustTarget(file) && FileReportOf(file, inputs).Ok?
    ensures var report := FileReportOf(file, inputs).value;
            (report.scope == TestOnly <==> report.tier == Excluded) && (report.tier == Excluded ==> report.counts.production == 0)
  {
    hide Match, TestRanges, CountsOf, Classified;
  }

  lemma CountUnfold(reports: seq<FileReport>, report: FileReport)
    ensures CountProduction(reports + [report]) == CountProduction(reports) + (if HasProduction(report) then 1 else 0)
  {
    assert (reports + [report])[..|reports|] == reports;
  }

  lemma {:induction false} FilesAreCounted(files: seq<ChangedFile>, inputs: Inputs)
    requires FileReports(files, inputs).Ok?
    ensures var reports := FileReports(files, inputs).value;
            && |reports| == CountTargets(files)
            && CountProduction(reports) == TotalsOf(reports, Ordinary).files + TotalsOf(reports, Critical).files
  {
    hide FileReportOf, FileReports, TotalsOf, CountProduction;
    if files != [] {
      var file, before := files[|files| - 1], files[..|files| - 1];
      FileReportsUnfold(files, inputs);
      FilesAreCounted(before, inputs);
      if IsRustTarget(file) {
        var reports, report := FileReports(before, inputs).value, FileReportOf(file, inputs).value;
        ScopeIsClass(file, inputs);
        CountUnfold(reports, report);
        TotalsOfUnfold(reports, report, Ordinary);
        TotalsOfUnfold(reports, report, Critical);
      }
    } else {
      NoReports(inputs);
      NoFilesCounted([]);
    }
  }

  lemma NoFilesCounted(reports: seq<FileReport>)
    requires reports == []
    ensures CountProduction(reports) == TotalsOf(reports, Ordinary).files == TotalsOf(reports, Critical).files == 0
  {
  }

  /**
   The summary agrees with the rest of the report: every changed Rust file is reported, the production files
   are those of both classes, and the percentage is the exact one.
   */
  lemma SummaryIsExact(files: seq<ChangedFile>, inputs: Inputs)
    requires Analyze(files, inputs).Ok?
    ensures var report := Analyze(files, inputs).value;
            && report.summary.changedFiles == CountTargets(files)
            && report.summary.productionFiles == report.ordinary.totals.files + report.critical.totals.files
            && (report.totals.coverable == 0 ==> report.summary.percent == None)
            && (0 < report.totals.coverable <= EXACT_BOUND ==>
                  report.summary.percent == Some(10000 * report.totals.covered / report.totals.coverable))
  {
    hide FileReports, Totals, TotalsOf, CountProduction;
    FilesAreCounted(files, inputs);
    var totals := Analyze(files, inputs).value.totals;
    FileReportsBalance(files, inputs);
    TotalsBalance(FileReports(files, inputs).value);
    if 0 < totals.coverable <= EXACT_BOUND {
      PercentIsExact(totals.covered, totals.coverable);
    }
  }

  // ----- the verdict -----

  /** No unmapped line, and the covered fraction reaches the minimum. */
  predicate MeetsMinimum(t: TierTotals, minimum: nat) {
    t.unmapped == 0 && 10000 * t.covered >= minimum * t.coverable
  }

  lemma TierVerdict(t: TierTotals, minimum: nat)
    requires t.covered <= t.coverable <= EXACT_BOUND
    ensures TierStatusOf(t, minimum) != Failed <==> MeetsMinimum(t, minimum)
    ensures TierStatusOf(t, minimum) == NotApplicable <==> MeetsMinimum(t, minimum) && t.coverable == 0
  {
    hide DecimalPercent;
    if t.coverable > 0 {
      GateIsExact(t.covered, t.coverable, minimum);
    } else {
      NothingToCover(minimum);
    }
  }

  lemma NothingToCover(minimum: nat)
    ensures !BelowMinimum(0, 0, minimum)
  {
  }

  /**
   The change passes exactly when both classes have no unmapped line and reach their own minimum as
   true fractions; the decimal arithmetic in between never decides otherwise.
   */
  lemma PassedIsExact(files: seq<ChangedFile>, inputs: Inputs)
    requires Analyze(files, inputs).Ok? && Analyze(files, inputs).value.totals.coverable <= EXACT_BOUND
    ensures var report := Analyze(files, inputs).value;
            && (report.passed <==> MeetsMinimum(report.ordinary.totals, inputs.ordinaryMinimum) &&
                                   MeetsMinimum(report.critical.totals, inputs.criticalMinimum))
            && (report.ordinary.status == NotApplicable <==>
                  MeetsMinimum(report.ordinary.totals, inputs.ordinaryMinimum) && report.ordinary.totals.coverable == 0)
            && (report.critical.status == NotApplicable <==>
                  MeetsMinimum(report.critical.totals, inputs.criticalMinimum) && report.critical.totals.coverable == 0)
            && (report.ordinary.status == Failed <==> !MeetsMinimum(report.ordinary.totals, inputs.ordinaryMinimum))
            && (report.critical.status == Failed <==> !MeetsMinimum(report.critical.totals, inputs.criticalMinimum))
  {
    hide TierStatusOf, FileReports, MeetsMinimum;
    LinesAreConserved(files, inputs);
    var reports := FileReports(files, inputs).value;
    FileReportsBalance(files, inputs);
    TierTotalsBalance(reports, Ordinary);
    TierTotalsBalance(reports, Critical);
    TierVerdict(TotalsOf(reports, Ordinary), inputs.ordinaryMinimum);
    TierVerdict(TotalsOf(reports, Critical), inputs.criticalMinimum);
  }

  // ----- no way out of the critical class -----

  /**
   With an accepted base/head union: if either revision's policy makes the new or the old path of a
   production file critical, the file is counted in the critical class.
   */
  lemma CriticalFilesStayCritical(file: ChangedFile, inputs: Inputs, base: seq<Rule>, head: seq<Rule>,
                                  path: string, declared: Rule)
    requires IsUnion(inputs.rules, base, head) && PairwiseApart(inputs.rules, inputs.platform.fold)
    requires IsRustTarget(file) && !inputs.testOnly(file.newPath.value)
    requires file.newPath == Some(path) || file.oldPath == Some(path)
    requires Match(base, Some(path), inputs.testOnly, inputs.platform) == Ok(Some(declared)) ||
             Match(head, Some(path), inputs.testOnly, inputs.platform) == Ok(Some(declared))
    requires FileReportOf(file, inputs).Ok?
    ensures FileReportOf(file, inputs).value.tier == Critical
  {
    hide Match, IsUnion, PairwiseApart, TestRanges, Classified, CountsOf;
    UnionNeverWeakens(inputs.rules, base, head, path, inputs.testOnly, inputs.platform, declared);
  }

  // ----- more evidence -----

  /** `b` knows every line `a` knows, with at least the same count. */
  ghost predicate Extends(a: map<string, Lines>, b: map<string, Lines>) {
    forall path :: path in a ==> path in b && LinesExtend(a[path], b[path])
  }

  ghost predicate LinesExtend(a: Lines, b: Lines) {
    forall line :: line in a ==> line in b && a[line] <= b[line]
  }

  /** The moves further evidence can cause: towards covered, or from a line that was not counted into the count. */
  predicate Improves(before: Status, after: Status) {
    || after == before
    || (before in {Uncovered, NonCoverable, Unmapped} && after == Covered)
    || (before in {NonCoverable, Unmapped} && after == Uncovered)
  }

  lemma StatusImproves(number: nat, a: Option<Lines>, b: Option<Lines>, structural: set<nat>, inlineTest: set<nat>)
    requires a.Some? ==> b.Some? && LinesExtend(a.value, b.value)
    ensures Improves(StatusOf(number, a, structural, inlineTest), StatusOf(number, b, structural, inlineTest))
  {
  }

  lemma {:induction false} TalliesImprove(a: seq<LineReport>, b: seq<LineReport>)
    requires |a| == |b| && forall k :: 0 <= k < |a| ==> Improves(a[k].status, b[k].status)
    ensures Tally(a, Covered) <= Tally(b, Covered) && Tally(b, Unmapped) <= Tally(a, Unmapped)
  {
    if a != [] {
      TalliesImprove(a[..|a| - 1], b[..|b| - 1]);
    }
  }

  predicate CountsImprove(a: Counts, b: Counts) {
    a.covered <= b.covered && b.unmapped <= a.unmapped && a.changed == b.changed
  }

  /** The same lines, each with its old status or an improved one. */
  ghost predicate LinesImprove(a: seq<LineReport>, b: seq<LineReport>) {
    |a| == |b| && forall k :: 0 <= k < |a| ==> a[k].line == b[k].line && Improves(a[k].status, b[k].status)
  }

  /** The same file in the same class with the same lines, each line's status kept or improved. */
  ghost predicate FileImproves(a: FileReport, b: FileReport) {
    && a.path == b.path && a.scope == b.scope && a.tier == b.tier && a.rule == b.rule
    && LinesImprove(a.lines, b.lines) && CountsImprove(a.counts, b.counts)
  }

  ghost predicate AllImprove(a: seq<FileReport>, b: seq<FileReport>) {
    |a| == |b| && forall k :: 0 <= k < |a| ==> FileImproves(a[k], b[k])
  }

  lemma ClassifiedImproves(added: seq<ChangedLine>, a: Option<Lines>, b: Option<Lines>, structural: set<nat>, inlineTest: set<nat>)
    requires a.Some? ==> b.Some? && LinesExtend(a.value, b.value)
    ensures LinesImprove(Classified(added, a, structural, inlineTest), Classified(added, b, structural, inlineTest))
    ensures CountsImprove(CountsOf(Classified(added, a, structural, inlineTest)),
                          CountsOf(Classified(added, b, structural, inlineTest)))
  {
    hide StatusOf, LinesExtend, Tally, Improves;
    var before := Classified(added, a, structural, inlineTest);
    var after := Classified(added, b, structural, inlineTest);
    forall k | 0 <= k < |added| ensures Improves(before[k].status, after[k].status) {
      StatusImproves(added[k].number, a, b, structural, inlineTest);
    }
    TalliesImprove(before, after);
  }

  lemma FileReportImproves(file: ChangedFile, inputs: Inputs, better: map<string, Lines>)
    requires IsRustTarget(file) && Extends(inputs.coverage, better)
    ensures FileReportOf(file, inputs).Ok? <==> FileReportOf(file, inputs.(coverage := better)).Ok?
    ensures FileReportOf(file, inputs).Ok? ==>
              FileImproves(FileReportOf(file, inputs).value, FileReportOf(file, inputs.(coverage := better)).value)
  {
    hide Match, TestRanges, Classified, CountsOf, LinesExtend, LinesImprove;
    var path := file.newPath.value;
    var scanned := ScannedLines(path, file.added, inputs);
    if scanned.Ok? {
      var (structural, inlineTest) := scanned.value;
      ClassifiedImproves(file.added, CoverageOf(path, inputs), CoverageOf(path, inputs.(coverage := better)),
                         structural, inlineTest);
    }
    SameLinesImprove(TestOnlyLines(file.added));
  }

  lemma SameLinesImprove(lines: seq<LineReport>)
    ensures LinesImprove(lines, lines)
  {
  }

  lemma FileReportsUnfold(files: seq<ChangedFile>, inputs: Inputs)
    requires files != []
    ensures var before := FileReports(files[..|files| - 1], inputs);
            var file := files[|files| - 1];
            FileReports(files, inputs) ==
              if before.Err? || !IsRustTarget(file) then before
              else if FileReportOf(file, inputs).Err? then Err(FileReportOf(file, inputs).error)
              else Ok(before.value + [FileReportOf(file, inputs).value])
  {
    hide FileReportOf;
  }

  lemma {:induction false} ReportsImprove(files: seq<ChangedFile>, inputs: Inputs, better: map<string, Lines>)
    requires Extends(inputs.coverage, better)
    ensures FileReports(files, inputs).Ok? <==> FileReports(files, inputs.(coverage := better)).Ok?
    ensures FileReports(files, inputs).Ok? ==>
              AllImprove(FileReports(files, inputs).value, FileReports(files, inputs.(coverage := better)).value)
  {
    hide FileReportOf, FileReports, Extends, IsRustTarget, FileImproves;
    if files != [] {
      var file, before := files[|files| - 1], files[..|files| - 1];
      var changed := inputs.(coverage := better);
      ReportsImprove(before, inputs, better);
      FileReportsUnfold(files, inputs);
      FileReportsUnfold(files, changed);
      if IsRustTarget(file) {
        IsTarget(file);
        FileReportImproves(file, inputs, better);
      }
    } else {
      NoReports(inputs);
      NoReports(inputs.(coverage := better));
    }
  }

  lemma {:induction false} TotalsImprove(a: seq<FileReport>, b: seq<FileReport>)
    requires AllImprove(a, b)
    ensures CountsImprove(Totals(a), Totals(b))
  {
    hide LinesImprove;
    if a != [] {
      var n := |a| - 1;
      TotalsImprove(a[..n], b[..n]);
      assert FileImproves(a[n], b[n]);
      assert Totals(a) == AddCounts(Totals(a[..n]), a[n].counts) && Totals(b) == AddCounts(Totals(b[..n]), b[n].counts);
    }
  }

  lemma IsTarget(file: ChangedFile)
    requires IsRustTarget(file)
    ensures file.newPath.Some?
  {
  }

  lemma NoReports(inputs: Inputs)
    ensures FileReports([], inputs) == Ok([])
  {
  }

  /** The lines of a union, as the analysis looks them up. */
  function Lookup(combined: Combined): map<string, Lines> {
    map path | path in combined :: combined[path].lines
  }

  lemma UnionExtends(maps: seq<SourceMap>, extra: SourceMap, naming: Naming)
    requires Exact(naming) && maps != []
    ensures Union(maps, naming).Ok? && Union(maps + [extra], naming).Ok?
    ensures Extends(Lookup(Union(maps, naming).value), Lookup(Union(maps + [extra], naming).value))
  {
    hide Exact, Union;
    MoreMapsMoreEvidence(maps, extra, naming, "", 0);
    var a, b := Union(maps, naming).value, Union(maps + [extra], naming).value;
    forall path | path in a ensures path in b && LinesExtend(a[path].lines, b[path].lines) {
      MoreMapsMoreEvidence(maps, extra, naming, path, 0);
      forall line | line in a[path].lines ensures line in b[path].lines && a[path].lines[line] <= b[path].lines[line] {
        MoreMapsMoreEvidence(maps, extra, naming, path, line);
      }
    }
  }

  /**
   Adding a coverage map keeps every file, its class and its lines, and moves each line's status only towards
   more evidence: a covered line stays covered, and no line becomes unmapped.
   */
  lemma ExtraMapMovesForward(files: seq<ChangedFile>, inputs: Inputs, maps: seq<SourceMap>, extra: SourceMap, naming: Naming)
    requires Exact(naming) && maps != []
    ensures Union(maps, naming).Ok? && Union(maps + [extra], naming).Ok?
    ensures var before := Analyze(files, inputs.(coverage := Lookup(Union(maps, naming).value)));
            var after := Analyze(files, inputs.(coverage := Lookup(Union(maps + [extra], naming).value)));
            && (before.Ok? <==> after.Ok?)
            && (before.Ok? ==>
                  && AllImprove(before.value.files, after.value.files)
                  && CountsImprove(before.value.totals, after.value.totals))
  {
    hide Exact, Union, FileReports, Totals, Extends, FileImproves, CountsImprove;
    UnionExtends(maps, extra, naming);
    var changed := inputs.(coverage := Lookup(Union(maps, naming).value));
    var better := Lookup(Union(maps + [extra], naming).value);
    ReportsImprove(files, changed, better);
    if FileReports(files, changed).Ok? {
      TotalsImprove(FileReports(files, changed).value, FileReports(files, changed.(coverage := better)).value);
    }
  }

  // ----- further evidence can still fail the gate -----

  const LONE_LINE := ChangedFile(None, Some("a.rs"), AddedFile, [ChangedLine(1, "")], [ChangedLine(1, "")])

  function LoneInputs(coverage: map<string, Lines>): Inputs {
    Inputs([], (path: string) => false, Platform(false, (c: char) => [c]), coverage, map["a.rs" := ""],
           (path: string) => {1}, Classes((c: char) => c == ' ', (c: char) => false), 9000, 9000)
  }

  lemma LoneReport(coverage: map<string, Lines>)
    requires "a.rs" in coverage ==> coverage["a.rs"] == map[1 := 0]
    ensures IsRustTarget(LONE_LINE)
    ensures var status := if "a.rs" in coverage then Uncovered else NonCoverable;
            FileReports([LONE_LINE], LoneInputs(coverage))
            == Ok([ProductionReport("a.rs", None, [LineReport(ChangedLine(1, ""), status)])])
  {
    hide FileReports, Match, TestRanges, ProductionReport;
    var inputs := LoneInputs(coverage);
    assert EndsWith("a.rs", ".rs");
    NoRules(inputs);
    NoTestRanges(inputs.classes);
    var status := if "a.rs" in coverage then Uncovered else NonCoverable;
    var lines := Classified(LONE_LINE.added, CoverageOf("a.rs", inputs), {1}, {});
    assert lines == [LineReport(ChangedLine(1, ""), status)];
    assert [LONE_LINE][..0] == [];
    NoReports(inputs);
    FileReportsUnfold([LONE_LINE], inputs);
    assert [] + [ProductionReport("a.rs", None, lines)] == [ProductionReport("a.rs", None, lines)];
  }

  lemma NoRules(inputs: Inputs)
    requires inputs.rules == []
    ensures forall path: Option<string> :: Match(inputs.rules, path, inputs.testOnly, inputs.platform) == Ok(None)
  {
  }

  lemma NoTestRanges(classes: Classes)
    ensures ToLines(TestRanges("", classes)) == Ok({})
  {
    assert Mask("", classes.alnum) == Ok("");
    assert SpansFrom("", 0, classes.space) == Ok([]);
  }

  lemma LoneTally(status: Status)
    ensures forall s :: Tally([LineReport(ChangedLine(1, ""), status)], s) == if s == status then 1 else 0
  {
    var lines := [LineReport(ChangedLine(1, ""), status)];
    assert lines[..0] == [];
  }

  lemma LoneTotals(status: Status)
    requires status in {Uncovered, NonCoverable}
    ensures var reports := [ProductionReport("a.rs", None, [LineReport(ChangedLine(1, ""), status)])];
            && TotalsOf(reports, Critical) == NO_TOTALS
            && TotalsOf(reports, Ordinary).covered == TotalsOf(reports, Ordinary).unmapped == 0
            && TotalsOf(reports, Ordinary).coverable == if status == Uncovered then 1 else 0
  {
    LoneTally(status);
    var reports := [ProductionReport("a.rs", None, [LineReport(ChangedLine(1, ""), status)])];
    assert reports[..0] == [];
  }

  /** A line that no map mentioned passed as structural; a further map that reports it unhit fails the run. */
  lemma ExtraMapCanFailTheGate()
    ensures var before := Analyze([LONE_LINE], LoneInputs(map[]));
            var after := Analyze([LONE_LINE], LoneInputs(map["a.rs" := map[1 := 0]]));
            before.Ok? && after.Ok? && before.value.passed && !after.value.passed
  {
    hide FileReports, ProductionReport, TotalsOf, BelowMinimum;
    LoneReport(map[]);
    LoneReport(map["a.rs" := map[1 := 0]]);
    LoneTotals(NonCoverable);
    LoneTotals(Uncovered);
    GateIsExact(0, 1, 9000);
    NothingToCover(9000);
  }
}
