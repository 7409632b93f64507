/**
 Which test items are excluded as a whole. An attribute on a line that is excluded already is skipped together
 with its item; the item is then excluded only as far as the excluded lines happen to run on.
 */
module TestItemCoverage {
  import opened RustItems
  import opened RustMask
  import opened RustMaskTheorems
  import opened TestItemTheorems
  import opened TestItems
  import opened Text
  import opened Wrappers

  /** The `k`-th attribute marks a test item kept in this file, and the item takes these lines. */
  ghost predicate IsTestItem(text: string, masked: string, spans: seq<Span>, k: nat, range: Range, classes: Classes)
    requires |text| == |masked| && ValidSpans(masked, spans) && k < |spans|
  {
    && IsItemRange(text, masked, spans, spans[k], range, classes)
    && !IsExternal(masked, spans, spans[k], classes)
  }

  /** The last of the ranges that follow the `j`-th one without a line between them. */
  function RunIndex(ranges: seq<Range>, j: nat): (m: nat)
    requires j < |ranges|
    ensures j <= m < |ranges|
    ensures m + 1 < |ranges| ==> ranges[m + 1].first != ranges[m].last + 1
    decreases |ranges| - j
  {
    if j + 1 < |ranges| && ranges[j + 1].first == ranges[j].last + 1 then RunIndex(ranges, j + 1) else j
  }

  /** The last line of the unbroken excluded lines that the `j`-th range belongs to. */
  function RunEnd(ranges: seq<Range>, j: nat): nat
    requires j < |ranges|
  {
    ranges[RunIndex(ranges, j)].last
  }

  /** The attribute stands on a line of some range, and its item closes past the run of that range. */
  ghost predicate CutShort(text: string, masked: string, spans: seq<Span>, ranges: seq<Range>, k: nat, classes: Classes)
    requires |text| == |masked| && ValidSpans(masked, spans) && k < |spans|
  {
    exists j, range :: 0 <= j < |ranges| && ranges[j].first <= LineOf(masked, spans[k].start) <= ranges[j].last &&
      IsTestItem(text, masked, spans, k, range, classes) && RunEnd(ranges, j) < range.last
  }

  lemma {:induction false} CoveredMeansInRange(ranges: seq<Range>, n: nat)
    ensures n in CoveredBy(ranges) <==> exists j :: 0 <= j < |ranges| && ranges[j].first <= n <= ranges[j].last
  {
    if ranges != [] {
      var front, last := ranges[..|ranges| - 1], ranges[|ranges| - 1];
      CoveredMeansInRange(front, n);
      assert forall j :: 0 <= j < |front| ==> front[j] == ranges[j];
    }
  }

  lemma {:induction false} RunIsCovered(ranges: seq<Range>, j: nat, n: nat)
    requires j < |ranges| && ranges[j].first <= n <= RunEnd(ranges, j)
    ensures n in CoveredBy(ranges)
    decreases |ranges| - j
  {
    CoveredMeansInRange(ranges, n);
    if n > ranges[j].last {
      RunIsCovered(ranges, j + 1, n);
    }
  }

  lemma RunEndsInGap(ranges: seq<Range>, j: nat, floor: int)
    requires j < |ranges| && Increasing(ranges, floor)
    ensures ranges[j].last <= RunEnd(ranges, j) && RunEnd(ranges, j) + 1 !in CoveredBy(ranges)
  {
    hide CoveredBy, RunIndex;
    var m := RunIndex(ranges, j);
    var n := ranges[m].last + 1;
    CoveredMeansInRange(ranges, n);
    forall i | 0 <= i < |ranges|
      ensures !(ranges[i].first <= n <= ranges[i].last)
    {
      LineAfterRange(ranges, m, i, floor);
    }
    assert j < m ==> ranges[j].last < ranges[m].first;
  }

  lemma LineAfterRange(ranges: seq<Range>, m: nat, i: nat, floor: int)
    requires m < |ranges| && i < |ranges| && Increasing(ranges, floor)
    requires m + 1 < |ranges| ==> ranges[m + 1].first != ranges[m].last + 1
    ensures !(ranges[i].first <= ranges[m].last + 1 <= ranges[i].last)
  {
    assert i < m ==> ranges[i].last < ranges[m].first;
    if i > m {
      var next := m + 1;
      assert ranges[m].last < ranges[next].first;
      assert next < i ==> ranges[next].last < ranges[i].first;
    }
  }

  /** An item whose own range is among the excluded ones is never cut short. */
  lemma ExcludedItemIsWhole(
    text: string, masked: string, spans: seq<Span>, ranges: seq<Range>, k: nat, range: Range, classes: Classes, floor: int)
    requires |text| == |masked| && ValidSpans(masked, spans) && k < |spans| && Increasing(ranges, floor)
    requires IsTestItem(text, masked, spans, k, range, classes) && range in ranges
    ensures !CutShort(text, masked, spans, ranges, k, classes)
  {
    forall j, other | 0 <= j < |ranges| && ranges[j].first <= LineOf(masked, spans[k].start) <= ranges[j].last &&
        IsTestItem(text, masked, spans, k, other, classes)
      ensures other.last <= RunEnd(ranges, j)
    {
      OneRange(text, masked, spans, k, range, other, classes);
      var m :| 0 <= m < |ranges| && ranges[m] == range;
      RunEndsInGap(ranges, j, floor);
    }
  }

  lemma OneRange(text: string, masked: string, spans: seq<Span>, k: nat, a: Range, b: Range, classes: Classes)
    requires |text| == |masked| && ValidSpans(masked, spans) && k < |spans|
    requires IsTestItem(text, masked, spans, k, a, classes) && IsTestItem(text, masked, spans, k, b, classes)
    ensures a == b && a.first == LineOf(masked, spans[k].start)
  {
    hide ItemCloses, IsTestSupport, IsExternal, ItemRunsTo, LineOf, ItemEndFrom, ItemStart;
    ItemIsSeen(masked, spans, spans[k], classes);
    var cursor := ItemStart(masked, spans, spans[k].end, classes.space);
    var d: nat :| ItemCloses(masked, cursor, d) && 0 < d <= |masked| && a.last == LineOf(masked, d - 1);
    var e: nat :| ItemCloses(masked, cursor, e) && 0 < e <= |masked| && b.last == LineOf(masked, e - 1);
    ItemEndIsExact(masked, cursor, d);
    ItemEndIsExact(masked, cursor, e);
  }

  /**
   All lines of all test items are excluded if and only if no test attribute stands on a line of an excluded
   range while its own item closes past the unbroken excluded lines there. Only a skipped attribute can.
   */
  lemma TestItemsAreExcluded(text: string, classes: Classes)
    requires TestRanges(text, classes).Ok?
    ensures var masked := Mask(text, classes.alnum).value;
            var spans := SpansFrom(masked, 0, classes.space).value;
            var ranges := TestRanges(text, classes).value;
            && |masked| == |text| && ValidSpans(masked, spans)
            && ((forall k, range :: 0 <= k < |spans| && IsTestItem(text, masked, spans, k, range, classes) ==>
                   LinesOf(range) <= CoveredBy(ranges)) <==>
                (forall k :: 0 <= k < |spans| ==> !CutShort(text, masked, spans, ranges, k, classes)))
            && (forall k, range :: 0 <= k < |spans| && IsTestItem(text, masked, spans, k, range, classes) && range in ranges ==>
                  !CutShort(text, masked, spans, ranges, k, classes))
  {
    hide RangesFrom, Mask, SpansFrom, IsTestItem, CutShort, IsItemRange;
    TestRangesAreExact(text, classes);
    var masked := Mask(text, classes.alnum).value;
    var spans := SpansFrom(masked, 0, classes.space).value;
    var ranges := TestRanges(text, classes).value;
    forall k, range | 0 <= k < |spans| && IsTestItem(text, masked, spans, k, range, classes)
      ensures LinesOf(range) <= CoveredBy(ranges) <==> !CutShort(text, masked, spans, ranges, k, classes)
      ensures range in ranges ==> !CutShort(text, masked, spans, ranges, k, classes)
    {
      ItemIsExcluded(text, masked, spans, ranges, k, range, classes);
      if range in ranges {
        ExcludedItemIsWhole(text, masked, spans, ranges, k, range, classes, 0);
      }
    }
    forall k | 0 <= k < |spans| && CutShort(text, masked, spans, ranges, k, classes)
      ensures exists range :: IsTestItem(text, masked, spans, k, range, classes)
    {
      CutShortHasItem(text, masked, spans, ranges, k, classes);
    }
  }

  lemma CutShortHasItem(text: string, masked: string, spans: seq<Span>, ranges: seq<Range>, k: nat, classes: Classes)
    requires |text| == |masked| && ValidSpans(masked, spans) && k < |spans|
    requires CutShort(text, masked, spans, ranges, k, classes)
    ensures exists range :: IsTestItem(text, masked, spans, k, range, classes)
  {
    hide IsTestItem;
  }

  lemma ItemIsExcluded(text: string, masked: string, spans: seq<Span>, ranges: seq<Range>, k: nat, range: Range, classes: Classes)
    requires |text| == |masked| && ValidSpans(masked, spans) && k < |spans| && Increasing(ranges, 0)
    requires IsHandled(text, masked, spans, spans[k], CoveredBy(ranges), classes)
    requires IsTestItem(text, masked, spans, k, range, classes)
    ensures LinesOf(range) <= CoveredBy(ranges) <==> !CutShort(text, masked, spans, ranges, k, classes)
  {
    hide IsTestSupport, IsExternal, ItemRunsTo, Increasing, LineOf;
    var line := LineOf(masked, spans[k].start);
    OneRange(text, masked, spans, k, range, range, classes);
    CoveredMeansInRange(ranges, line);
    var j :| 0 <= j < |ranges| && ranges[j].first <= line <= ranges[j].last;
    RunEndsInGap(ranges, j, 0);
    if range.last <= RunEnd(ranges, j) {
      forall n | n in LinesOf(range)
        ensures n in CoveredBy(ranges)
      {
        RunIsCovered(ranges, j, n);
      }
      RunOfLine(text, masked, spans, ranges, k, range, j, classes);
    } else {
      assert RunEnd(ranges, j) + 1 in LinesOf(range);
    }
  }

  lemma RunOfLine(
    text: string, masked: string, spans: seq<Span>, ranges: seq<Range>, k: nat, range: Range, j: nat, classes: Classes)
    requires |text| == |masked| && ValidSpans(masked, spans) && k < |spans| && Increasing(ranges, 0)
    requires IsTestItem(text, masked, spans, k, range, classes) && j < |ranges| && range.last <= RunEnd(ranges, j)
    requires ranges[j].first <= LineOf(masked, spans[k].start) <= ranges[j].last
    ensures !CutShort(text, masked, spans, ranges, k, classes)
  {
    hide LineOf, IsTestSupport, IsExternal, ItemRunsTo, RunEnd;
    forall i, other | 0 <= i < |ranges| && ranges[i].first <= LineOf(masked, spans[k].start) <= ranges[i].last &&
        IsTestItem(text, masked, spans, k, other, classes)
      ensures other.last <= RunEnd(ranges, i)
    {
      hide IsTestItem;
      OneRange(text, masked, spans, k, range, other, classes);
      assert i == j;
    }
  }

  // ----- items that do not overlap -----

  /** Every test item that begins on a line of an earlier one also closes on a line of it. */
  ghost predicate ItemsNest(text: string, masked: string, spans: seq<Span>, classes: Classes)
    requires |text| == |masked| && ValidSpans(masked, spans)
  {
    forall i, k, a, b ::
      (0 <= i < k < |spans| && IsTestItem(text, masked, spans, i, a, classes) && IsTestItem(text, masked, spans, k, b, classes)
       && b.first in LinesOf(a)) ==> b.last <= a.last
  }

  /** No later item begins on an excluded line and closes on one that is not excluded. */
  ghost predicate NoneBegun(text: string, masked: string, spans: seq<Span>, k: nat, excluded: set<nat>, classes: Classes)
    requires |text| == |masked| && ValidSpans(masked, spans)
  {
    forall m, b :: k <= m < |spans| && IsTestItem(text, masked, spans, m, b, classes) && b.first in excluded ==> LinesOf(b) <= excluded
  }

  lemma JudgedItem(
    text: string, masked: string, spans: seq<Span>, k: nat, excluded: set<nat>, b: Range, classes: Classes)
    requires |text| == |masked| && ValidSpans(masked, spans) && k < |spans| && IsTestItem(text, masked, spans, k, b, classes)
    ensures var verdict := Judge(text, masked, spans, spans[k], excluded, classes);
            (verdict.Skip? ==> b.first in excluded) && (verdict.Exclude? ==> verdict.range == b)
  {
    hide IsTestSupport, IsExternal, IsAmbiguous, ItemRunsTo, LineOf, Judge, ItemFails;
    OneRange(text, masked, spans, k, b, b, classes);
    JudgeIsExact(text, masked, spans, spans[k], excluded, classes);
    var verdict := Judge(text, masked, spans, spans[k], excluded, classes);
    if verdict.Exclude? {
      OneRange(text, masked, spans, k, b, verdict.range, classes);
    }
  }

  lemma ExcludingIsAnItem(text: string, masked: string, spans: seq<Span>, k: nat, excluded: set<nat>, classes: Classes)
    requires |text| == |masked| && ValidSpans(masked, spans) && k < |spans|
    requires Judge(text, masked, spans, spans[k], excluded, classes).Exclude?
    ensures IsTestItem(text, masked, spans, k, Judge(text, masked, spans, spans[k], excluded, classes).range, classes)
  {
    hide IsItemRange, Judge, IsTestSupport, IsExternal, IsAmbiguous, ItemFails;
    JudgeIsExact(text, masked, spans, spans[k], excluded, classes);
  }

  lemma {:induction false} NestedItemsAreExcluded(
    text: string, masked: string, spans: seq<Span>, k: nat, excluded: set<nat>, classes: Classes)
    requires |text| == |masked| && ValidSpans(masked, spans) && k <= |spans|
    requires RangesFrom(text, masked, spans, k, excluded, classes).Ok?
    requires ItemsNest(text, masked, spans, classes) && NoneBegun(text, masked, spans, k, excluded, classes)
    ensures forall m, b :: k <= m < |spans| && IsTestItem(text, masked, spans, m, b, classes) ==>
              LinesOf(b) <= excluded + Lines(RangesFrom(text, masked, spans, k, excluded, classes).value)
    decreases |spans| - k
  {
    hide Judge, IsTestItem, IsItemRange;
    if k < |spans| {
      var verdict := Judge(text, masked, spans, spans[k], excluded, classes);
      var next := if verdict.Exclude? then excluded + LinesOf(verdict.range) else excluded;
      if verdict.Exclude? {
        ExcludingIsAnItem(text, masked, spans, k, excluded, classes);
      }
      forall m, b | k < m < |spans| && IsTestItem(text, masked, spans, m, b, classes) && b.first in next
        ensures LinesOf(b) <= next
      {
        assert b.first !in excluded ==> verdict.Exclude? && b.first in LinesOf(verdict.range) && b.last <= verdict.range.last;
      }
      NestedItemsAreExcluded(text, masked, spans, k + 1, next, classes);
      var rest := RangesFrom(text, masked, spans, k + 1, next, classes).value;
      var all := RangesFrom(text, masked, spans, k, excluded, classes).value;
      assert verdict.Exclude? ==> all == [verdict.range] + rest && all[1..] == rest;
      assert next + Lines(rest) == excluded + Lines(all);
      forall b | IsTestItem(text, masked, spans, k, b, classes)
        ensures LinesOf(b) <= next
      {
        JudgedItem(text, masked, spans, k, excluded, b, classes);
      }
    }
  }

  /** Whenever test items only nest, all of them are excluded as a whole; the condition speaks of the items alone. */
  lemma NestedItemsAreWhole(text: string, classes: Classes)
    requires TestRanges(text, classes).Ok?
    ensures var masked := Mask(text, classes.alnum).value;
            var spans := SpansFrom(masked, 0, classes.space).value;
            var ranges := TestRanges(text, classes).value;
            && |masked| == |text| && ValidSpans(masked, spans)
            && (ItemsNest(text, masked, spans, classes) ==>
                  && (forall k, range :: 0 <= k < |spans| && IsTestItem(text, masked, spans, k, range, classes) ==>
                        LinesOf(range) <= CoveredBy(ranges))
                  && (forall k :: 0 <= k < |spans| ==> !CutShort(text, masked, spans, ranges, k, classes)))
  {
    hide RangesFrom, Mask, SpansFrom, IsTestItem, CutShort, ItemsNest;
    TestItemsAreExcluded(text, classes);
    var masked := Mask(text, classes.alnum).value;
    var spans := SpansFrom(masked, 0, classes.space).value;
    var ranges := TestRanges(text, classes).value;
    if ItemsNest(text, masked, spans, classes) {
      NestedItemsAreExcluded(text, masked, spans, 0, {}, classes);
      CoveredByIsLines(ranges);
      assert {} + Lines(ranges) == CoveredBy(ranges);
    }
  }

  // ----- a file in which an item is cut short -----

  const ASCII := Classes((c: char) => c == ' ' || '\t' <= c <= '\r', (c: char) => 'a' <= c <= 'z' || 'A' <= c <= 'Z' || '0' <= c <= '9')

  /** Two test functions that begin on one line; the second one goes on to the next. */
  const CROWDED := "#[cfg(test)]fn a(){}#[cfg(test)]fn b(){\n}"

  lemma {:induction false} FlatClose(s: string, i: nat, e: nat, open: char, close: char)
    requires i < e <= |s| && s[e - 1] == close && forall k :: i <= k < e - 1 ==> s[k] != open && s[k] != close
    requires open != close
    ensures CloseAfter(s, i, 1, open, close) == Some(e)
    decreases e - i
  {
    if i + 1 < e {
      FlatClose(s, i + 1, e, open, close);
    } else {
      assert CloseAfter(s, e, 0, open, close) == Some(e);
    }
  }

  lemma {:induction false} FlatItem(s: string, i: nat, j: nat, parens: nat, brackets: nat)
    requires i <= j <= |s| && forall k :: i <= k < j ==> s[k] !in {'(', ')', '[', ']', '{', ';', ','}
    ensures ItemEndFrom(s, i, parens, brackets) == ItemEndFrom(s, j, parens, brackets)
    decreases j - i
  {
    if i < j {
      FlatItem(s, i + 1, j, parens, brackets);
    }
  }

  /** A function without parameters whose opening brace stands at `b`. */
  lemma FunctionEnds(s: string, i: nat, b: nat, e: nat)
    requires i + 2 <= b < e <= |s| && s[b - 2] == '(' && s[b - 1] == ')' && s[b] == '{' && b + 1 < e
    requires forall k :: i <= k < b - 2 ==> s[k] !in {'(', ')', '[', ']', '{', ';', ','}
    requires s[e - 1] == '}' && forall k :: b < k < e - 1 ==> s[k] != '{' && s[k] != '}'
    ensures ItemEndFrom(s, i, 0, 0) == Closed(e)
  {
    FlatItem(s, i, b - 2, 0, 0);
    FlatClose(s, b + 1, e, '{', '}');
    assert ItemEndFrom(s, b, 0, 0) == Closed(e);
    assert ItemEndFrom(s, b - 1, 1, 0) == ItemEndFrom(s, b, 0, 0);
    assert ItemEndFrom(s, b - 2, 0, 0) == ItemEndFrom(s, b - 1, 1, 0);
  }

  lemma {:induction false} NothingToDrop(s: string, space: CharClass)
    requires forall k :: 0 <= k < |s| ==> !space(s[k])
    ensures WithoutSpace(s, space) == s
  {
    if s != "" {
      NothingToDrop(s[1..], space);
      assert s == [s[0]] + s[1..];
    }
  }

  lemma {:induction false} NoneCounted(s: string, c: char)
    requires forall k :: 0 <= k < |s| ==> s[k] != c
    ensures Count(s, c) == 0
  {
    if s != "" {
      NoneCounted(s[..|s| - 1], c);
    }
  }

  lemma CrowdedIsMasked()
    ensures Mask(CROWDED, ASCII.alnum) == Ok(CROWDED)
  {
    forall k | 0 <= k < |CROWDED|
      ensures NoTokenAt(CROWDED, k)
    {
      assert CROWDED[k] !in {'"', '/', '\''};
    }
    QuietTextIsUnchanged(CROWDED, 0, ASCII.alnum);
    assert CROWDED[0..] == CROWDED;
  }

  lemma FirstAttribute(s: string, i: nat, at: nat, space: CharClass)
    requires i <= at <= |s| && (at == |s| || OpensAttribute(s, at, space))
    requires forall k :: i <= k < at ==> s[k] != '#'
    ensures NextAttribute(s, i, space) == at
  {
  }

  const CROWDED_SPANS := [Span(0, 12), Span(20, 32)]

  lemma SpanFound(s: string, i: nat, at: nat, end: nat, rest: seq<Span>, space: CharClass)
    requires i <= at < |s| && NextAttribute(s, i, space) == at
    requires AttributeEnd(s, at, space) == Some(end) && SpansFrom(s, end, space) == Ok(rest)
    ensures SpansFrom(s, i, space) == Ok([Span(at, end)] + rest)
  {
    hide NextAttribute, AttributeEnd, OpensAttribute;
  }

  lemma CrowdedOpens(at: nat)
    requires at == 0 || at == 20
    ensures OpensAttribute(CROWDED, at, ASCII.space) && AttributeEnd(CROWDED, at, ASCII.space) == Some(at + 12)
  {
    hide CloseAfter;
    assert CROWDED[at] == '#' && CROWDED[at + 1] == '[' && SkipSpace(CROWDED, at + 1, ASCII.space) == at + 1;
    if at == 0 {
      FlatClose(CROWDED, 2, 12, '[', ']');
    } else {
      FlatClose(CROWDED, 22, 32, '[', ']');
    }
    assert CloseAfter(CROWDED, at + 2, 1, '[', ']') == Some(at + 12);
    assert AttributeEnd(CROWDED, at, ASCII.space) == CloseAfter(CROWDED, at + 2, 1, '[', ']');
  }

  lemma CrowdedHashes()
    ensures |CROWDED| == 41 && forall k :: 0 <= k < 41 && CROWDED[k] == '#' ==> k == 0 || k == 20
  {
  }

  lemma CrowdedSpans()
    ensures SpansFrom(CROWDED, 0, ASCII.space) == Ok(CROWDED_SPANS)
    ensures ValidSpans(CROWDED, CROWDED_SPANS)
  {
    hide NextAttribute, AttributeEnd, OpensAttribute, SpansFrom;
    var s, space := CROWDED, ASCII.space;
    CrowdedHashes();
    CrowdedOpens(0);
    CrowdedOpens(20);
    FirstAttribute(s, 0, 0, space);
    FirstAttribute(s, 12, 20, space);
    FirstAttribute(s, 32, |s|, space);
    SpanStop(s, 32, space);
    SpanFound(s, 12, 20, 32, [], space);
    assert [Span(20, 32)] + [] == [Span(20, 32)];
    SpanFound(s, 0, 0, 12, [Span(20, 32)], space);
    assert [Span(0, 12)] + [Span(20, 32)] == CROWDED_SPANS;
  }

  lemma CrowdedAttributeText(span: Span)
    requires span in CROWDED_SPANS
    ensures CROWDED[span.start..span.end] == "#[cfg(test)]"
  {
    assert CROWDED[0..12] == "#[cfg(test)]" && CROWDED[20..32] == "#[cfg(test)]";
  }

  lemma CrowdedAttribute(span: Span)
    requires span in CROWDED_SPANS
    ensures IsTestSupportAttribute(CROWDED[span.start..span.end], ASCII.space)
  {
    hide WithoutSpace;
    var attribute := "#[cfg(test)]";
    CrowdedAttributeText(span);
    assert forall k :: 0 <= k < |attribute| ==> !ASCII.space(attribute[k]);
    NothingToDrop(attribute, ASCII.space);
  }

  lemma PlainItem(s: string, spans: seq<Span>, i: nat, classes: Classes)
    requires i < |s| && ValidSpans(s, spans) && !classes.space(s[i]) && s[i] !in {'p', 'm'}
    requires forall span :: span in spans ==> span.start != i
    ensures ItemStart(s, spans, i, classes.space) == i && DeclarationAt(s, i, classes).NotModule?
  {
    WordDiffers(s, i, "pub");
    WordDiffers(s, i, "mod");
  }

  lemma WordDiffers(s: string, i: nat, w: string)
    requires i < |s| && w != "" && s[i] != w[0]
    ensures !WordAt(s, i, w)
  {
    assert i + |w| <= |s| ==> s[i..i + |w|][0] == s[i];
  }

  lemma CrowdedItem(k: nat)
    requires k < 2
    ensures ValidSpans(CROWDED, CROWDED_SPANS)
    ensures var start := CROWDED_SPANS[k].end;
            && ItemStart(CROWDED, CROWDED_SPANS, start, ASCII.space) == start
            && DeclarationAt(CROWDED, start, ASCII).NotModule?
            && ItemEndFrom(CROWDED, start, 0, 0) == Closed(if k == 0 then 20 else 41)
  {
    hide ItemEndFrom, ItemStart, DeclarationAt, ValidSpans;
    CrowdedSpans();
    if k == 0 {
      CrowdedBegins(12);
      CrowdedFirstEnds();
    } else {
      CrowdedBegins(32);
      CrowdedSecondEnds();
    }
  }

  lemma CrowdedBegins(start: nat)
    requires (start == 12 || start == 32) && ValidSpans(CROWDED, CROWDED_SPANS)
    ensures ItemStart(CROWDED, CROWDED_SPANS, start, ASCII.space) == start && DeclarationAt(CROWDED, start, ASCII).NotModule?
  {
    hide ItemStart, DeclarationAt, ValidSpans;
    assert CROWDED[start] == 'f';
    PlainItem(CROWDED, CROWDED_SPANS, start, ASCII);
  }

  lemma CrowdedFirstEnds()
    ensures ItemEndFrom(CROWDED, 12, 0, 0) == Closed(20)
  {
    hide ItemEndFrom;
    FunctionEnds(CROWDED, 12, 18, 20);
  }

  lemma CrowdedSecondEnds()
    ensures ItemEndFrom(CROWDED, 32, 0, 0) == Closed(41)
  {
    hide ItemEndFrom;
    FunctionEnds(CROWDED, 32, 38, 41);
  }

  lemma CrowdedNewline()
    ensures |CROWDED| == 41 && forall k :: 0 <= k < 41 ==> (CROWDED[k] == '\n' <==> k == 39)
  {
  }

  lemma CrowdedFirstLine(j: nat)
    requires j <= 39
    ensures j < |CROWDED| && Count(CROWDED[..j], '\n') == 0
  {
    CrowdedNewline();
    NoneCounted(CROWDED[..j], '\n');
  }

  lemma CrowdedLines()
    ensures |CROWDED| == 41
    ensures LineOf(CROWDED, 0) == LineOf(CROWDED, 19) == LineOf(CROWDED, 20) == 1 && LineOf(CROWDED, 40) == 2
  {
    CrowdedNewline();
    CrowdedFirstLine(0);
    CrowdedFirstLine(19);
    CrowdedFirstLine(20);
    CrowdedFirstLine(39);
    assert CROWDED[..40][..39] == CROWDED[..39] && CROWDED[..40][39] == '\n';
  }

  /**
   The second function of the crowded file is a test item on lines 1 and 2, but only line 1 is excluded: its
   attribute is skipped because the first function already excluded the line it stands on.
   */
  lemma SecondItemIsCutShort()
    ensures Mask(CROWDED, ASCII.alnum) == Ok(CROWDED) && SpansFrom(CROWDED, 0, ASCII.space) == Ok(CROWDED_SPANS)
    ensures TestRanges(CROWDED, ASCII) == Ok([Range(1, 1)]) && 2 !in CoveredBy([Range(1, 1)])
    ensures ValidSpans(CROWDED, CROWDED_SPANS)
    ensures IsTestItem(CROWDED, CROWDED, CROWDED_SPANS, 1, Range(1, 2), ASCII)
    ensures CutShort(CROWDED, CROWDED, CROWDED_SPANS, [Range(1, 1)], 1, ASCII)
  {
    hide Mask, SpansFrom, IsTestSupportAttribute, ItemStart, DeclarationAt, ItemEndFrom, LineOf, ItemCloses, IsTestSupport, IsExternal,
      ItemRunsTo;
    var s, spans := CROWDED, CROWDED_SPANS;
    CrowdedIsMasked();
    CrowdedSpans();
    CrowdedAttribute(spans[0]);
    CrowdedAttribute(spans[1]);
    CrowdedItem(0);
    CrowdedItem(1);
    CrowdedLines();
    ItemEndIsExact(s, 32, 41);
    var first := Range(1, 1);
    assert Judge(s, s, spans, spans[0], {}, ASCII) == Exclude(first);
    assert Judge(s, s, spans, spans[1], {} + LinesOf(first), ASCII) == Skip;
    assert RangesFrom(s, s, spans, 2, {} + LinesOf(first), ASCII) == Ok([]);
    assert RangesFrom(s, s, spans, 1, {} + LinesOf(first), ASCII) == Ok([]);
    assert RangesFrom(s, s, spans, 0, {}, ASCII) == Ok([first] + []);
    assert [first] + [] == [Range(1, 1)];
    assert TestRanges(s, ASCII) == RangesFrom(s, s, spans, 0, {}, ASCII);
    CoveredMeansInRange([first], 2);
    assert ItemCloses(s, 32, 41) && LineOf(s, 40) == 2;
    TestSupportIsRecognized(s[20..32], ASCII.space);
    ItemIsSeen(s, spans, spans[1], ASCII);
    assert ItemRunsTo(s, spans, spans[1], 41, ASCII.space);
    assert IsItemRange(s, s, spans, spans[1], Range(1, 2), ASCII);
  }
}
