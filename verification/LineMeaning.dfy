/**
 What a report means, told from the inputs alone: which files are in it, what each line's status says of the source
 and the coverage, which class a file is in, and what is counted.
 */
module LineMeaning {
  import opened Analysis
  import opened AnalysisTheorems
  import opened CriticalPolicy
  import opened Hunks
  import opened PolicyMeaning
  import opened TestItemCoverage
  import opened TestItems
  import opened Wrappers

  // ----- the files -----

  /** The changed files that are Rust sources afterwards, in order. */
  function Targets(files: seq<ChangedFile>): seq<ChangedFile> {
    if files == [] then []
    else Targets(files[..|files| - 1]) + (if IsRust(files[|files| - 1].newPath) then [files[|files| - 1]] else [])
  }

  /** The policy protects the path, or protects it twice. */
  ghost predicate Protects(path: Option<string>, inputs: Inputs) {
    IsProtected(inputs.rules, path, inputs.testOnly, inputs.platform)
  }

  ghost predicate ProtectsTwice(path: Option<string>, inputs: Inputs) {
    IsProtectedTwice(inputs.rules, path, inputs.testOnly, inputs.platform)
  }

  // ----- the lines -----

  /** The line belongs to a test item of the source. */
  ghost predicate IsTestLine(inputs: Inputs, path: string, number: nat) {
    path in inputs.texts &&
    var ranges := TestRanges(inputs.texts[path], inputs.classes);
    ranges.Ok? && exists j :: 0 <= j < |ranges.value| && ranges.value[j].first <= number <= ranges.value[j].last
  }

  /** The coverage of the path has a count for the line. */
  predicate IsReported(inputs: Inputs, path: string, number: nat) {
    var key := KeyOn(path, inputs.platform);
    key in inputs.coverage && number in inputs.coverage[key]
  }

  function HitsAt(inputs: Inputs, path: string, number: nat): nat
    requires IsReported(inputs, path, number)
  {
    inputs.coverage[KeyOn(path, inputs.platform)][number]
  }

  /** The status of a production line says what is known of it. */
  ghost predicate LineSays(inputs: Inputs, path: string, line: LineReport) {
    var number, status := line.line.number, line.status;
    var test, reported, structural := IsTestLine(inputs, path, number), IsReported(inputs, path, number), number in inputs.structural(path);
    && (status.InlineTest? <==> test)
    && (status.Covered? <==> !test && reported && HitsAt(inputs, path, number) > 0)
    && (status.Uncovered? <==> !test && reported && HitsAt(inputs, path, number) == 0)
    && (status.NonCoverable? <==> !test && !reported && structural)
    && (status.Unmapped? <==> !test && !reported && !structural)
    && !status.ExcludedTest?
  }

  function Statuses(lines: seq<LineReport>): (r: seq<Status>)
    ensures |r| == |lines|
  {
    seq(|lines|, k requires 0 <= k < |lines| => lines[k].status)
  }

  /** Each count is the number of lines with that status. */
  ghost predicate CountsSay(counts: Counts, lines: seq<LineReport>) {
    var statuses := multiset(Statuses(lines));
    && counts.changed == |lines| && counts.excludedTest == statuses[ExcludedTest] && counts.inlineTest == statuses[InlineTest]
    && counts.covered == statuses[Covered] && counts.uncovered == statuses[Uncovered]
    && counts.nonCoverable == statuses[NonCoverable] && counts.unmapped == statuses[Unmapped]
    && counts.coverable == statuses[Covered] + statuses[Uncovered]
    && counts.production == statuses[Covered] + statuses[Uncovered] + statuses[NonCoverable] + statuses[Unmapped]
  }

  ghost predicate IsReportOf(file: ChangedFile, inputs: Inputs, report: FileReport) {
    && file.newPath == Some(report.path)
    && |report.lines| == |file.added| && (forall m :: 0 <= m < |file.added| ==> report.lines[m].line == file.added[m])
    && (report.scope.TestOnly? <==> inputs.testOnly(report.path)) && (report.tier.Excluded? <==> report.scope.TestOnly?)
    && (report.scope.TestOnly? ==> forall m :: 0 <= m < |report.lines| ==> report.lines[m].status.ExcludedTest?)
    && (report.scope.Production? ==> forall m :: 0 <= m < |report.lines| ==> LineSays(inputs, report.path, report.lines[m]))
    && (report.tier.Critical? <==> report.scope.Production? && (Protects(file.newPath, inputs) || Protects(file.oldPath, inputs)))
    && CountsSay(report.counts, report.lines)
  }

  /** The file can be analyzed: its paths are protected at most once, and its source, if it is needed, is there and scans. */
  ghost predicate IsAnalyzable(file: ChangedFile, inputs: Inputs)
    requires file.newPath.Some?
  {
    inputs.testOnly(file.newPath.value) ||
    (&& !ProtectsTwice(file.newPath, inputs) && !ProtectsTwice(file.oldPath, inputs)
     && (file.added != [] ==>
           file.newPath.value in inputs.texts && TestRanges(inputs.texts[file.newPath.value], inputs.classes).Ok?))
  }

  // ----- one file -----

  lemma {:induction false} TallyIsCount(lines: seq<LineReport>, status: Status)
    ensures Tally(lines, status) == multiset(Statuses(lines))[status]
  {
    if lines != [] {
      var front, last := lines[..|lines| - 1], lines[|lines| - 1];
      TallyIsCount(front, status);
      assert Statuses(lines) == Statuses(front) + [last.status];
    }
  }

  lemma CountsOfSay(lines: seq<LineReport>)
    ensures CountsSay(CountsOf(lines), lines)
  {
    hide Tally, Statuses;
    TallyIsCount(lines, ExcludedTest);
    TallyIsCount(lines, InlineTest);
    TallyIsCount(lines, Covered);
    TallyIsCount(lines, Uncovered);
    TallyIsCount(lines, NonCoverable);
    TallyIsCount(lines, Unmapped);
  }

  lemma TestOnlyCountsSay(lines: seq<LineReport>)
    requires forall m :: 0 <= m < |lines| ==> lines[m].status == ExcludedTest
    ensures CountsSay(NO_COUNTS.(changed := |lines|, excludedTest := |lines|), lines)
  {
    var statuses := Statuses(lines);
    assert forall s :: s in statuses ==> s == ExcludedTest;
    AllTheSame(statuses);
  }

  lemma {:induction false} AllTheSame(statuses: seq<Status>)
    requires forall s :: s in statuses ==> s == ExcludedTest
    ensures multiset(statuses)[ExcludedTest] == |statuses|
  {
    if statuses != [] {
      var front := statuses[..|statuses| - 1];
      assert (forall s :: s in front ==> s in statuses) && statuses[|statuses| - 1] in statuses;
      AllTheSame(front);
      assert statuses == front + [ExcludedTest];
    }
  }

  lemma ClassifiedSays(inputs: Inputs, path: string, added: seq<ChangedLine>, structural: set<nat>, inlineTest: set<nat>, m: nat)
    requires ScannedLines(path, added, inputs) == Ok((structural, inlineTest)) && m < |added|
    ensures LineSays(inputs, path, Classified(added, CoverageOf(path, inputs), structural, inlineTest)[m])
  {
    hide TestRanges, CoveredBy;
    CoveredMeansInRange(TestRanges(inputs.texts[path], inputs.classes).value, added[m].number);
  }

  lemma FileReportSays(file: ChangedFile, inputs: Inputs)
    requires IsRustTarget(file)
    ensures FileReportOf(file, inputs).Ok? <==> IsAnalyzable(file, inputs)
    ensures FileReportOf(file, inputs).Ok? ==> IsReportOf(file, inputs, FileReportOf(file, inputs).value)
  {
    hide Match, TestRanges, IsProtected, IsProtectedTwice, LineSays, CountsOf, CountsSay, CoverageOf, StatusOf;
    var path := file.newPath.value;
    MatchSays(inputs.rules, file.newPath, inputs.testOnly, inputs.platform);
    MatchSays(inputs.rules, file.oldPath, inputs.testOnly, inputs.platform);
    var scanned := ScannedLines(path, file.added, inputs);
    if inputs.testOnly(path) {
      TestOnlyCountsSay(TestOnlyLines(file.added));
    } else if scanned.Ok? {
      var (structural, inlineTest) := scanned.value;
      forall m | 0 <= m < |file.added|
        ensures LineSays(inputs, path, Classified(file.added, CoverageOf(path, inputs), structural, inlineTest)[m])
      {
        ClassifiedSays(inputs, path, file.added, structural, inlineTest, m);
      }
      CountsOfSay(Classified(file.added, CoverageOf(path, inputs), structural, inlineTest));
    }
  }

  // ----- the whole report -----

  ghost predicate AreReportsOf(targets: seq<ChangedFile>, inputs: Inputs, reports: seq<FileReport>) {
    |reports| == |targets| && forall k :: 0 <= k < |targets| ==> IsReportOf(targets[k], inputs, reports[k])
  }

  lemma TargetIsRust(file: ChangedFile)
    ensures IsRustTarget(file) <==> IsRust(file.newPath)
  {
  }

  lemma {:induction false} TargetsHavePaths(files: seq<ChangedFile>)
    ensures forall file :: file in Targets(files) ==> file.newPath.Some?
  {
    if files != [] {
      TargetsHavePaths(files[..|files| - 1]);
    }
  }

  lemma {:induction false} ReportsSay(files: seq<ChangedFile>, inputs: Inputs)
    ensures forall file :: file in Targets(files) ==> file.newPath.Some?
    ensures FileReports(files, inputs).Ok? <==> forall file :: file in Targets(files) ==> IsAnalyzable(file, inputs)
    ensures FileReports(files, inputs).Ok? ==> AreReportsOf(Targets(files), inputs, FileReports(files, inputs).value)
  {
    hide FileReportOf, FileReports, IsReportOf, IsAnalyzable, IsRustTarget, IsRust;
    TargetsHavePaths(files);
    if files != [] {
      var file, before := files[|files| - 1], files[..|files| - 1];
      ReportsSay(before, inputs);
      FileReportsUnfold(files, inputs);
      TargetIsRust(file);
      if IsRustTarget(file) {
        FileReportSays(file, inputs);
      }
    } else {
      NoReports(inputs);
    }
  }

  /**
   A change is analyzed exactly when each of its Rust sources can be; then the report has one entry for each of them,
   in order, and every status, class and count in it says what it should.
   */
  lemma AnalysisIsExact(files: seq<ChangedFile>, inputs: Inputs)
    ensures forall file :: file in Targets(files) ==> file.newPath.Some?
    ensures Analyze(files, inputs).Ok? <==> forall file :: file in Targets(files) ==> IsAnalyzable(file, inputs)
    ensures Analyze(files, inputs).Ok? ==> AreReportsOf(Targets(files), inputs, Analyze(files, inputs).value.files)
  {
    hide FileReports, AreReportsOf, IsAnalyzable;
    ReportsSay(files, inputs);
  }

  /** All statuses of the files of a class. */
  function TierStatuses(reports: seq<FileReport>, tier: Tier): seq<Status> {
    if reports == [] then []
    else
      var last := reports[|reports| - 1];
      TierStatuses(reports[..|reports| - 1], tier) + (if last.tier == tier then Statuses(last.lines) else [])
  }

  ghost predicate TotalsSay(totals: TierTotals, statuses: multiset<Status>) {
    && totals.covered == statuses[Covered] && totals.uncovered == statuses[Uncovered]
    && totals.coverable == statuses[Covered] + statuses[Uncovered]
    && totals.nonCoverable == statuses[NonCoverable] && totals.unmapped == statuses[Unmapped]
    && totals.inlineTest == statuses[InlineTest]
  }

  lemma {:induction false} TotalsOfSay(reports: seq<FileReport>, tier: Tier)
    requires forall k :: 0 <= k < |reports| ==> CountsSay(reports[k].counts, reports[k].lines)
    ensures TotalsSay(TotalsOf(reports, tier), multiset(TierStatuses(reports, tier)))
  {
    hide Statuses, CountsSay, TotalsSay;
    if reports != [] {
      var front, last := reports[..|reports| - 1], reports[|reports| - 1];
      TotalsOfSay(front, tier);
      if last.tier == tier {
        TotalsAdd(TotalsOf(front, tier), multiset(TierStatuses(front, tier)), last);
        assert multiset(TierStatuses(reports, tier)) == multiset(TierStatuses(front, tier)) + multiset(Statuses(last.lines));
      } else {
        assert TierStatuses(reports, tier) == TierStatuses(front, tier);
      }
    } else {
      NothingCounted(tier);
    }
  }

  lemma NothingCounted(tier: Tier)
    ensures TotalsSay(TotalsOf([], tier), multiset(TierStatuses([], tier)))
  {
  }

  lemma TotalsAdd(totals: TierTotals, statuses: multiset<Status>, report: FileReport)
    requires TotalsSay(totals, statuses) && CountsSay(report.counts, report.lines)
    ensures TotalsSay(AddToTier(totals, report.counts), statuses + multiset(Statuses(report.lines)))
  {
    hide Statuses;
  }

  /** The totals of a class count the lines of its files. */
  lemma ClassTotalsAreCounts(files: seq<ChangedFile>, inputs: Inputs)
    requires Analyze(files, inputs).Ok?
    ensures var report := Analyze(files, inputs).value;
            && TotalsSay(report.ordinary.totals, multiset(TierStatuses(report.files, Ordinary)))
            && TotalsSay(report.critical.totals, multiset(TierStatuses(report.files, Critical)))
  {
    hide FileReports, CountsSay, LineSays;
    ReportsSay(files, inputs);
    var reports := FileReports(files, inputs).value;
    assert forall k :: 0 <= k < |reports| ==> IsReportOf(Targets(files)[k], inputs, reports[k]);
    TotalsOfSay(reports, Ordinary);
    TotalsOfSay(reports, Critical);
  }

  lemma {:induction false} StatusIsInClass(reports: seq<FileReport>, k: nat, m: nat)
    requires k < |reports| && m < |reports[k].lines|
    ensures reports[k].lines[m].status in TierStatuses(reports, reports[k].tier)
    decreases |reports|
  {
    var n := |reports| - 1;
    if k < n {
      StatusIsInClass(reports[..n], k, m);
    } else {
      assert Statuses(reports[k].lines)[m] == reports[k].lines[m].status;
    }
  }

  /** A production line that is no test line, is not reported and is not structural fails the run. */
  lemma UnmappedLineFails(files: seq<ChangedFile>, inputs: Inputs, k: nat, m: nat)
    requires Analyze(files, inputs).Ok? && k < |Analyze(files, inputs).value.files|
    requires m < |Analyze(files, inputs).value.files[k].lines| && Analyze(files, inputs).value.files[k].scope.Production?
    requires var report := Analyze(files, inputs).value.files[k];
             var number := report.lines[m].line.number;
             && !IsTestLine(inputs, report.path, number) && !IsReported(inputs, report.path, number)
             && number !in inputs.structural(report.path)
    ensures !Analyze(files, inputs).value.passed
  {
    hide FileReports, CountsSay, IsTestLine, IsReported, TotalsOf;
    AnalysisIsExact(files, inputs);
    var report := Analyze(files, inputs).value;
    assert IsReportOf(Targets(files)[k], inputs, report.files[k]);
    assert LineSays(inputs, report.files[k].path, report.files[k].lines[m]);
    StatusIsInClass(report.files, k, m);
    ClassTotalsAreCounts(files, inputs);
    assert report.files[k].tier.Ordinary? || report.files[k].tier.Critical?;
    var tier := if report.files[k].tier.Ordinary? then report.ordinary else report.critical;
    assert tier.totals.unmapped > 0;
  }
}
