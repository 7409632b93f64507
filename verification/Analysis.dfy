/**
 The classification loop: every added line of every changed Rust file gets one status, the counts are summed
 per file, overall and per coverage class, and each class is held against its minimum.
 */
module Analysis {
  import opened CoverageUnion
  import opened CriticalPolicy
  import opened Hunks
  import opened PercentGate
  import opened TestItems
  import opened Wrappers

  datatype Status = ExcludedTest | InlineTest | Covered | Uncovered | NonCoverable | Unmapped

  datatype Scope = TestOnly | Production

  /** The coverage class a file is counted in. */
  datatype Tier = Excluded | Ordinary | Critical

  datatype LineReport = LineReport(line: ChangedLine, status: Status)

  datatype Counts = Counts(
    changed: nat, production: nat, excludedTest: nat, inlineTest: nat, coverable: nat,
    covered: nat, uncovered: nat, nonCoverable: nat, unmapped: nat)

  datatype FileReport = FileReport(
    path: string, scope: Scope, tier: Tier, rule: Option<Rule>, counts: Counts, lines: seq<LineReport>)

  datatype TierTotals = TierTotals(
    files: nat, production: nat, inlineTest: nat, coverable: nat,
    covered: nat, uncovered: nat, nonCoverable: nat, unmapped: nat)

  datatype TierStatus = Failed | NotApplicable | Passed

  datatype TierReport = TierReport(totals: TierTotals, status: TierStatus)

  /** Files by scope and content, and the overall percentage in hundredths. */
  datatype Summary = Summary(
    changedFiles: nat, productionFiles: nat, testFiles: nat, inlineTestFiles: nat, percent: Option<nat>)

  datatype Report = Report(
    files: seq<FileReport>, totals: Counts, summary: Summary, ordinary: TierReport, critical: TierReport, passed: bool)

  datatype AnalysisError = Policy(policy: PolicyError) | MissingSource(path: string) | Items(item: ItemError)

  /**
   What the analysis is given: the policy, the coverage by path key, the source texts, the lines each
   source's lexical scan calls structural, and the two minimums in hundredths of a percent.
   */
  datatype Inputs = Inputs(
    rules: seq<Rule>, testOnly: string -> bool, platform: Platform,
    coverage: map<string, Lines>, texts: map<string, string>, structural: string -> set<nat>,
    classes: Classes, ordinaryMinimum: nat, criticalMinimum: nat)

  // ----- one line -----

  function StatusOf(number: nat, coverage: Option<Lines>, structural: set<nat>, inlineTest: set<nat>): Status {
    if number in inlineTest then InlineTest
    else if coverage.Some? && number in coverage.value then
      if coverage.value[number] > 0 then Covered else Uncovered
    else if number in structural then NonCoverable
    else Unmapped
  }

  function Classified(added: seq<ChangedLine>, coverage: Option<Lines>, structural: set<nat>, inlineTest: set<nat>)
    : (lines: seq<LineReport>)
    ensures |lines| == |added|
    ensures forall k :: 0 <= k < |added| ==>
      lines[k] == LineReport(added[k], StatusOf(added[k].number, coverage, structural, inlineTest))
  {
    seq(|added|, k requires 0 <= k < |added| =>
      LineReport(added[k], StatusOf(added[k].number, coverage, structural, inlineTest)))
  }

  // ----- counting -----

  function Tally(lines: seq<LineReport>, status: Status): nat {
    if lines == [] then 0
    else Tally(lines[..|lines| - 1], status) + (if lines[|lines| - 1].status == status then 1 else 0)
  }

  function CountsOf(lines: seq<LineReport>): Counts {
    var covered, uncovered := Tally(lines, Covered), Tally(lines, Uncovered);
    var nonCoverable, unmapped := Tally(lines, NonCoverable), Tally(lines, Unmapped);
    Counts(|lines|, covered + uncovered + nonCoverable + unmapped, Tally(lines, ExcludedTest), Tally(lines, InlineTest),
           covered + uncovered, covered, uncovered, nonCoverable, unmapped)
  }

  function AddCounts(a: Counts, b: Counts): Counts {
    Counts(a.changed + b.changed, a.production + b.production, a.excludedTest + b.excludedTest,
           a.inlineTest + b.inlineTest, a.coverable + b.coverable, a.covered + b.covered,
           a.uncovered + b.uncovered, a.nonCoverable + b.nonCoverable, a.unmapped + b.unmapped)
  }

  const NO_COUNTS: Counts := Counts(0, 0, 0, 0, 0, 0, 0, 0, 0)
  const NO_TOTALS: TierTotals := TierTotals(0, 0, 0, 0, 0, 0, 0, 0)

  function AddToTier(t: TierTotals, c: Counts): TierTotals {
    TierTotals(t.files + (if c.production > 0 then 1 else 0), t.production + c.production, t.inlineTest + c.inlineTest,
               t.coverable + c.coverable, t.covered + c.covered, t.uncovered + c.uncovered,
               t.nonCoverable + c.nonCoverable, t.unmapped + c.unmapped)
  }

  function Totals(reports: seq<FileReport>): (totals: Counts)
    ensures reports == [] ==> totals == Counts(0, 0, 0, 0, 0, 0, 0, 0, 0)
  {
    if reports == [] then NO_COUNTS else AddCounts(Totals(reports[..|reports| - 1]), reports[|reports| - 1].counts)
  }

  function TotalsOf(reports: seq<FileReport>, tier: Tier): (totals: TierTotals)
    ensures reports == [] ==> totals == TierTotals(0, 0, 0, 0, 0, 0, 0, 0)
  {
    if reports == [] then NO_TOTALS
    else
      var rest := TotalsOf(reports[..|reports| - 1], tier);
      if reports[|reports| - 1].tier == tier then AddToTier(rest, reports[|reports| - 1].counts) else rest
  }

  method ClassifyLines(added: seq<ChangedLine>, coverage: Option<Lines>, structural: set<nat>, inlineTest: set<nat>)
    returns (lines: seq<LineReport>, counts: Counts)
    ensures lines == Classified(added, coverage, structural, inlineTest)
    ensures counts == CountsOf(lines)
  {
    lines := [];
    counts := NO_COUNTS.(changed := |added|);
    for k := 0 to |added|
      invariant |lines| == k
      invariant forall j :: 0 <= j < k ==>
        lines[j] == LineReport(added[j], StatusOf(added[j].number, coverage, structural, inlineTest))
      invariant counts == CountsOf(lines).(changed := |added|)
    {
      var line := added[k];
      var status: Status;
      ghost var before := lines;
      if line.number in inlineTest {
        status := InlineTest;
        counts := counts.(inlineTest := counts.inlineTest + 1);
      } else {
        counts := counts.(production := counts.production + 1);
        if coverage.Some? && line.number in coverage.value {
          counts := counts.(coverable := counts.coverable + 1);
          if coverage.value[line.number] > 0 {
            status := Covered;
            counts := counts.(covered := counts.covered + 1);
          } else {
            status := Uncovered;
            counts := counts.(uncovered := counts.uncovered + 1);
          }
        } else if line.number in structural {
          status := NonCoverable;
          counts := counts.(nonCoverable := counts.nonCoverable + 1);
        } else {
          status := Unmapped;
          counts := counts.(unmapped := counts.unmapped + 1);
        }
      }
      lines := lines + [LineReport(line, status)];
      assert lines[..|lines| - 1] == before;
    }
  }

  // ----- one file -----

  function TestOnlyLines(added: seq<ChangedLine>): (lines: seq<LineReport>)
    ensures |lines| == |added|
    ensures forall k :: 0 <= k < |added| ==> lines[k] == LineReport(added[k], ExcludedTest)
  {
    seq(|added|, k requires 0 <= k < |added| => LineReport(added[k], ExcludedTest))
  }

  /** The rule that makes a change critical: the new path's, or else the old path's. */
  function CriticalRule(file: ChangedFile, inputs: Inputs): Result<Option<Rule>, AnalysisError> {
    var byNew := Match(inputs.rules, file.newPath, inputs.testOnly, inputs.platform);
    if byNew.Err? then Err(Policy(byNew.error))
    else
      var byOld := Match(inputs.rules, file.oldPath, inputs.testOnly, inputs.platform);
      if byOld.Err? then Err(Policy(byOld.error))
      else Ok(if byNew.value.Some? then byNew.value else byOld.value)
  }

  /** The structural and the inline-test lines of a file with additions. */
  function ScannedLines(path: string, added: seq<ChangedLine>, inputs: Inputs): Result<(set<nat>, set<nat>), AnalysisError> {
    if added == [] then Ok(({}, {}))
    else if path !in inputs.texts then Err(MissingSource(path))
    else match ToLines(TestRanges(inputs.texts[path], inputs.classes))
      case Err(error) => Err(Items(error))
      case Ok(inlineTest) => Ok((inputs.structural(path), inlineTest))
  }

  function CoverageOf(path: string, inputs: Inputs): Option<Lines> {
    var key := PathKey(path, inputs.platform);
    if key in inputs.coverage then Some(inputs.coverage[key]) else None
  }

  function ProductionReport(path: string, rule: Option<Rule>, lines: seq<LineReport>): FileReport {
    FileReport(path, Production, if rule.Some? then Critical else Ordinary, rule, CountsOf(lines), lines)
  }

  function TestOnlyReport(path: string, added: seq<ChangedLine>): FileReport {
    FileReport(path, TestOnly, Excluded, None,
               NO_COUNTS.(changed := |added|, excludedTest := |added|), TestOnlyLines(added))
  }

  function FileReportOf(file: ChangedFile, inputs: Inputs): Result<FileReport, AnalysisError>
    requires IsRustTarget(file)
  {
    var path := file.newPath.value;
    if inputs.testOnly(path) then Ok(TestOnlyReport(path, file.added))
    else match CriticalRule(file, inputs)
      case Err(error) => Err(error)
      case Ok(rule) =>
        match ScannedLines(path, file.added, inputs)
        case Err(error) => Err(error)
        case Ok((structural, inlineTest)) =>
          Ok(ProductionReport(path, rule, Classified(file.added, CoverageOf(path, inputs), structural, inlineTest)))
  }

  function FileReports(files: seq<ChangedFile>, inputs: Inputs): Result<seq<FileReport>, AnalysisError> {
    if files == [] then Ok([])
    else match FileReports(files[..|files| - 1], inputs)
      case Err(error) => Err(error)
      case Ok(reports) =>
        var file := files[|files| - 1];
        if !IsRustTarget(file) then Ok(reports)
        else match FileReportOf(file, inputs)
          case Err(error) => Err(error)
          case Ok(report) => Ok(reports + [report])
  }

  method AnalyzeFile(file: ChangedFile, inputs: Inputs) returns (r: Result<FileReport, AnalysisError>)
    requires IsRustTarget(file)
    ensures r == FileReportOf(file, inputs)
  {
    var path := file.newPath.value;
    if inputs.testOnly(path) {
      return Ok(TestOnlyReport(path, file.added));
    }
    var byNew := Match(inputs.rules, file.newPath, inputs.testOnly, inputs.platform);
    if byNew.Err? { return Err(Policy(byNew.error)); }
    var byOld := Match(inputs.rules, file.oldPath, inputs.testOnly, inputs.platform);
    if byOld.Err? { return Err(Policy(byOld.error)); }
    var rule := if byNew.value.Some? then byNew.value else byOld.value;
    var structural: set<nat>, inlineTest: set<nat> := {}, {};
    if file.added != [] {
      if path !in inputs.texts { return Err(MissingSource(path)); }
      structural := inputs.structural(path);
      var scan := InlineCfgTestModuleLines(inputs.texts[path], inputs.classes);
      if scan.Err? { return Err(Items(scan.error)); }
      inlineTest := scan.value;
    }
    var lines, counts := ClassifyLines(file.added, CoverageOf(path, inputs), structural, inlineTest);
    r := Ok(FileReport(path, Production, if rule.Some? then Critical else Ordinary, rule, counts, lines));
  }

  // ----- the whole change -----

  /** A class fails on any unmapped line or below its minimum. */
  function TierStatusOf(t: TierTotals, minimum: nat): TierStatus
    requires t.covered <= t.coverable
  {
    if t.unmapped > 0 || BelowMinimum(t.covered, t.coverable, minimum) then Failed
    else if t.coverable == 0 then NotApplicable
    else Passed
  }

  /** The counts of one report balance. */
  predicate Balanced(c: Counts) {
    && c.changed == c.production + c.excludedTest + c.inlineTest
    && c.production == c.coverable + c.nonCoverable + c.unmapped
    && c.coverable == c.covered + c.uncovered
  }

  predicate TierBalanced(t: TierTotals) {
    t.production == t.coverable + t.nonCoverable + t.unmapped && t.coverable == t.covered + t.uncovered
  }

  ghost predicate AllBalanced(reports: seq<FileReport>) {
    forall k :: 0 <= k < |reports| ==> Balanced(reports[k].counts)
  }

  lemma {:induction false} TierTotalsBalance(reports: seq<FileReport>, tier: Tier)
    requires AllBalanced(reports)
    ensures TierBalanced(TotalsOf(reports, tier))
  {
    if reports != [] {
      TierTotalsBalance(reports[..|reports| - 1], tier);
    }
  }

  /** The statuses partition the lines. */
  lemma {:induction false} TalliesPartition(lines: seq<LineReport>)
    ensures |lines| == Tally(lines, ExcludedTest) + Tally(lines, InlineTest) + Tally(lines, Covered)
                     + Tally(lines, Uncovered) + Tally(lines, NonCoverable) + Tally(lines, Unmapped)
  {
    if lines != [] {
      TalliesPartition(lines[..|lines| - 1]);
    }
  }

  lemma FileReportBalances(file: ChangedFile, inputs: Inputs)
    requires IsRustTarget(file) && FileReportOf(file, inputs).Ok?
    ensures Balanced(FileReportOf(file, inputs).value.counts)
  {
    hide Match, TestRanges, Tally;
    TalliesPartition(FileReportOf(file, inputs).value.lines);
  }

  lemma {:induction false} FileReportsBalance(files: seq<ChangedFile>, inputs: Inputs)
    requires FileReports(files, inputs).Ok?
    ensures AllBalanced(FileReports(files, inputs).value)
  {
    hide FileReportOf, Balanced;
    if files != [] {
      FileReportsBalance(files[..|files| - 1], inputs);
      var file := files[|files| - 1];
      if IsRustTarget(file) {
        FileReportBalances(file, inputs);
      }
    }
  }

  predicate HasProduction(report: FileReport) {
    report.scope == Production && report.counts.production > 0
  }

  function CountProduction(reports: seq<FileReport>): nat {
    if reports == [] then 0
    else CountProduction(reports[..|reports| - 1]) + (if HasProduction(reports[|reports| - 1]) then 1 else 0)
  }

  function CountTestOnly(reports: seq<FileReport>): nat {
    if reports == [] then 0
    else CountTestOnly(reports[..|reports| - 1]) + (if reports[|reports| - 1].scope == TestOnly then 1 else 0)
  }

  function CountInlineTest(reports: seq<FileReport>): nat {
    if reports == [] then 0
    else CountInlineTest(reports[..|reports| - 1]) + (if reports[|reports| - 1].counts.inlineTest > 0 then 1 else 0)
  }

  function SummaryOf(reports: seq<FileReport>, totals: Counts): Summary
    requires totals.covered <= totals.coverable
  {
    Summary(|reports|, CountProduction(reports), CountTestOnly(reports), CountInlineTest(reports),
            DecimalPercent(totals.covered, totals.coverable))
  }

  lemma {:induction false} TotalsBalance(reports: seq<FileReport>)
    requires AllBalanced(reports)
    ensures Balanced(Totals(reports))
  {
    if reports != [] {
      TotalsBalance(reports[..|reports| - 1]);
      assert Balanced(reports[|reports| - 1].counts);
    }
  }

  /** The three file counts, taken over the finished list of reports. */
  method CountFiles(reports: seq<FileReport>) returns (production: nat, testOnly: nat, inlineTest: nat)
    ensures production == CountProduction(reports) && testOnly == CountTestOnly(reports) && inlineTest == CountInlineTest(reports)
  {
    production, testOnly, inlineTest := 0, 0, 0;
    for k := 0 to |reports|
      invariant production == CountProduction(reports[..k]) && testOnly == CountTestOnly(reports[..k])
      invariant inlineTest == CountInlineTest(reports[..k])
    {
      assert reports[..k + 1][..k] == reports[..k];
      if HasProduction(reports[k]) { production := production + 1; }
      if reports[k].scope == TestOnly { testOnly := testOnly + 1; }
      if reports[k].counts.inlineTest > 0 { inlineTest := inlineTest + 1; }
    }
    assert reports[..|reports|] == reports;
  }

  function ReportOf(reports: seq<FileReport>, inputs: Inputs): Report
    requires AllBalanced(reports)
  {
    TierTotalsBalance(reports, Ordinary);
    TierTotalsBalance(reports, Critical);
    TotalsBalance(reports);
    var ordinary := TierStatusOf(TotalsOf(reports, Ordinary), inputs.ordinaryMinimum);
    var critical := TierStatusOf(TotalsOf(reports, Critical), inputs.criticalMinimum);
    Report(reports, Totals(reports), SummaryOf(reports, Totals(reports)), TierReport(TotalsOf(reports, Ordinary), ordinary),
           TierReport(TotalsOf(reports, Critical), critical), ordinary != Failed && critical != Failed)
  }

  function Analyze(files: seq<ChangedFile>, inputs: Inputs): Result<Report, AnalysisError> {
    match FileReports(files, inputs)
    case Err(error) => Err(error)
    case Ok(reports) =>
      FileReportsBalance(files, inputs);
      Ok(ReportOf(reports, inputs))
  }

  lemma {:induction false} ErrorStays(files: seq<ChangedFile>, k: nat, inputs: Inputs)
    requires k <= |files| && FileReports(files[..k], inputs).Err?
    ensures FileReports(files, inputs) == Err(FileReports(files[..k], inputs).error)
    decreases |files|
  {
    hide FileReportOf;
    if k == |files| {
      assert files[..k] == files;
    } else {
      assert files[..|files| - 1][..k] == files[..k];
      ErrorStays(files[..|files| - 1], k, inputs);
    }
  }

  method AnalyzeCoverage(files: seq<ChangedFile>, inputs: Inputs) returns (r: Result<Report, AnalysisError>)
    ensures r == Analyze(files, inputs)
  {
    hide FileReportOf, Match, BelowMinimum;
    var fileReports: seq<FileReport> := [];
    var totals := NO_COUNTS;
    var ordinary, critical := NO_TOTALS, NO_TOTALS;
    for k := 0 to |files|
      invariant FileReports(files[..k], inputs) == Ok(fileReports)
      invariant totals == Totals(fileReports)
      invariant ordinary == TotalsOf(fileReports, Ordinary) && critical == TotalsOf(fileReports, Critical)
    {
      var file := files[k];
      assert files[..k + 1][..k] == files[..k];
      if !IsRustTarget(file) {
        continue;
      }
      var analyzed := AnalyzeFile(file, inputs);
      if analyzed.Err? {
        ErrorStays(files, k + 1, inputs);
        return Err(analyzed.error);
      }
      var report := analyzed.value;
      totals := AddCounts(totals, report.counts);
      if report.tier == Critical {
        critical := AddToTier(critical, report.counts);
      } else if report.tier == Ordinary {
        ordinary := AddToTier(ordinary, report.counts);
      }
      ghost var before := fileReports;
      fileReports := fileReports + [report];
      assert fileReports[..|fileReports| - 1] == before;
    }
    assert files[..|files|] == files;
    FileReportsBalance(files, inputs);
    TierTotalsBalance(fileReports, Ordinary);
    TierTotalsBalance(fileReports, Critical);
    var ordinaryStatus := TierStatusOf(ordinary, inputs.ordinaryMinimum);
    var criticalStatus := TierStatusOf(critical, inputs.criticalMinimum);
    TotalsBalance(fileReports);
    var production, testOnly, inlineTest := CountFiles(fileReports);
    var summary :=
      Summary(|fileReports|, production, testOnly, inlineTest, DecimalPercent(totals.covered, totals.coverable));
    var failed := ordinaryStatus == Failed || criticalStatus == Failed;
    r := Ok(Report(fileReports, totals, summary, TierReport(ordinary, ordinaryStatus),
                   TierReport(critical, criticalStatus), !failed));
  }
}
