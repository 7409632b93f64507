/**
 Excluding test items is exact: attribute spans are the balanced brackets of the source, items end at the first
 delimiter that closes them, and the excluded line ranges are disjoint, increasing and those of test items.
 */
module TestItemTheorems {
  import opened Wrappers
  import opened Text
  import opened RustItems
  import opened RustMask
  import opened RustMaskTheorems
  import opened TestItems

  // ----- nesting levels, counted from the start of the text -----

  function Level(s: string, j: nat, open: char, close: char): int
    requires j <= |s|
  {
    Count(s[..j], open) - Count(s[..j], close)
  }

  lemma LevelStep(s: string, j: nat, open: char, close: char)
    requires j < |s| && open != close
    ensures Level(s, j + 1, open, close)
         == Level(s, j, open, close) + (if s[j] == open then 1 else if s[j] == close then -1 else 0)
  {
    assert s[..j + 1][..j] == s[..j];
  }

  /** `e` is the least position after `i` at which `depth` open delimiters have all been closed. */
  ghost predicate Closes(s: string, i: nat, depth: nat, e: nat, open: char, close: char)
    requires i <= |s|
  {
    i < e <= |s| && depth + Level(s, e, open, close) == Level(s, i, open, close) &&
    StaysOpen(s, i, depth, e, open, close)
  }

  ghost predicate StaysOpen(s: string, i: nat, depth: nat, e: nat, open: char, close: char)
    requires i <= |s| && e <= |s|
  {
    forall j :: i <= j < e ==> depth + Level(s, j, open, close) > Level(s, i, open, close)
  }

  lemma {:induction false} CloseAfterLevels(s: string, i: nat, depth: nat, open: char, close: char)
    requires i <= |s| && depth > 0 && open != close
    ensures CloseAfter(s, i, depth, open, close).Some?
        ==> Closes(s, i, depth, CloseAfter(s, i, depth, open, close).value, open, close)
    ensures CloseAfter(s, i, depth, open, close).None?
        ==> StaysOpen(s, i, depth, |s|, open, close) && depth + Level(s, |s|, open, close) > Level(s, i, open, close)
    decreases |s| - i
  {
    hide Level;
    if i < |s| {
      LevelStep(s, i, open, close);
      var next := if s[i] == open then depth + 1 else if s[i] == close then depth - 1 else depth;
      assert CloseAfter(s, i, depth, open, close) == CloseAfter(s, i + 1, next, open, close);
      if next > 0 {
        CloseAfterLevels(s, i + 1, next, open, close);
      }
    }
  }

  /** The scanner finds the matching delimiter: the least position where the level returns to the outside. */
  lemma CloseAfterIsLeast(s: string, i: nat, depth: nat, e: nat, open: char, close: char)
    requires i <= |s| && depth > 0 && open != close
    ensures CloseAfter(s, i, depth, open, close) == Some(e) <==> Closes(s, i, depth, e, open, close)
  {
    hide Level;
    CloseAfterLevels(s, i, depth, open, close);
  }

  // ----- attribute spans -----

  ghost predicate IsAttributeSpan(masked: string, span: Span, space: CharClass) {
    span.start < span.end <= |masked| &&
    AttributeBegins(masked, span.start, space) &&
    var opening := SkipSpace(masked, span.start + 1, space);
    opening < span.end && Closes(masked, opening + 1, 1, span.end, '[', ']')
  }

  ghost predicate InSpans(spans: seq<Span>, p: nat) {
    exists k :: 0 <= k < |spans| && spans[k].start <= p < spans[k].end
  }

  /** The spans are attributes, disjoint and in order, and cover every attribute opener from `i` on. */
  ghost predicate ExactSpans(masked: string, i: nat, spans: seq<Span>, space: CharClass) {
    && (forall k :: 0 <= k < |spans| ==> i <= spans[k].start && IsAttributeSpan(masked, spans[k], space))
    && (forall j, k :: 0 <= j < k < |spans| ==> spans[j].end <= spans[k].start)
    && (forall p :: i <= p < |masked| && AttributeBegins(masked, p, space) ==> InSpans(spans, p))
  }

  lemma PrependSpan(masked: string, i: nat, span: Span, rest: seq<Span>, space: CharClass)
    requires i <= span.start < span.end && IsAttributeSpan(masked, span, space)
    requires forall p :: i <= p < span.start ==> !AttributeBegins(masked, p, space)
    requires ExactSpans(masked, span.end, rest, space)
    ensures ExactSpans(masked, i, [span] + rest, space)
  {
    hide IsAttributeSpan, AttributeBegins;
    var spans := [span] + rest;
    assert forall k :: 0 < k < |spans| ==> spans[k] == rest[k - 1];
    forall p | i <= p < |masked| && AttributeBegins(masked, p, space)
      ensures InSpans(spans, p)
    {
      if p < span.end {
        assert spans[0].start <= p < spans[0].end;
      } else {
        assert InSpans(rest, p);
        var k :| 0 <= k < |rest| && rest[k].start <= p < rest[k].end;
        assert spans[k + 1] == rest[k];
      }
    }
  }

  /**
   Every span runs from an attribute opener to its matching bracket, spans are disjoint and in
   order, and no attribute opener is left outside them.
   */
  lemma {:induction false} AttributeSpansAreExact(masked: string, i: nat, space: CharClass)
    requires i <= |masked| && SpansFrom(masked, i, space).Ok?
    ensures ExactSpans(masked, i, SpansFrom(masked, i, space).value, space)
    decreases |masked| - i
  {
    hide OpensAttribute, AttributeBegins, IsAttributeSpan;
    forall p: nat
      ensures OpensAttribute(masked, p, space) <==> AttributeBegins(masked, p, space)
    {
      AttributeIsOpened(masked, p, space);
    }
    var start := NextAttribute(masked, i, space);
    if start < |masked| {
      var end := AttributeEnd(masked, start, space).value;
      AttributeSpansAreExact(masked, end, space);
      ClosedAttribute(masked, start, space);
      hide ExactSpans;
      PrependSpan(masked, i, Span(start, end), SpansFrom(masked, end, space).value, space);
    }
  }

  lemma ClosedAttribute(masked: string, start: nat, space: CharClass)
    requires OpensAttribute(masked, start, space) && AttributeEnd(masked, start, space).Some?
    ensures IsAttributeSpan(masked, Span(start, AttributeEnd(masked, start, space).value), space)
  {
    hide Closes;
    AttributeIsOpened(masked, start, space);
    CloseAfterIsLeast(masked, SkipSpace(masked, start + 1, space) + 1, 1, AttributeEnd(masked, start, space).value, '[', ']');
  }

  /** An attribute that begins at `start` and is never closed. */
  ghost predicate NeverCloses(masked: string, start: nat, space: CharClass) {
    AttributeBegins(masked, start, space) && start < |masked| &&
    var opening := SkipSpace(masked, start + 1, space);
    opening < |masked| && StaysOpen(masked, opening + 1, 1, |masked|, '[', ']') &&
    Level(masked, |masked|, '[', ']') >= Level(masked, opening + 1, '[', ']')
  }

  /** Attributes are refused only because of one that is never closed, and the line is that of its beginning. */
  lemma {:induction false} RefusedAttribute(masked: string, i: nat, space: CharClass) returns (start: nat)
    requires i <= |masked| && SpansFrom(masked, i, space).Err?
    ensures i <= start < |masked| && NeverCloses(masked, start, space)
    ensures SpansFrom(masked, i, space) == Err(UnterminatedAttribute(Count(masked[..start], '\n') + 1))
    decreases |masked| - i
  {
    hide OpensAttribute, StaysOpen, Level;
    start := NextAttribute(masked, i, space);
    AttributeIsOpened(masked, start, space);
    var end := AttributeEnd(masked, start, space);
    if end.None? {
      OpenedBracket(masked, start, space);
      CloseAfterLevels(masked, SkipSpace(masked, start + 1, space) + 1, 1, '[', ']');
    } else {
      start := RefusedAttribute(masked, end.value, space);
    }
  }

  lemma OpenedBracket(masked: string, start: nat, space: CharClass)
    requires OpensAttribute(masked, start, space)
    ensures SkipSpace(masked, start + 1, space) < |masked|
  {
  }

  // ----- item ends -----

  predicate EndsItem(c: char) {
    c == '{' || c == ';' || c == ','
  }

  /** Open parentheses and brackets at `j`, counted from `i` on top of the given numbers. */
  function Parens(s: string, i: nat, parens: int, j: nat): int
    requires i <= j <= |s|
  {
    parens + Level(s, j, '(', ')') - Level(s, i, '(', ')')
  }

  function Brackets(s: string, i: nat, brackets: int, j: nat): int
    requires i <= j <= |s|
  {
    brackets + Level(s, j, '[', ']') - Level(s, i, '[', ']')
  }

  ghost predicate TopLevelDelimiter(s: string, i: nat, parens: nat, brackets: nat, j: nat)
    requires i <= j < |s|
  {
    EndsItem(s[j]) && Parens(s, i, parens, j) == 0 && Brackets(s, i, brackets, j) == 0
  }

  /** `k` is the first `{`, `;` or `,` outside all parentheses and brackets, and none closed too often before. */
  ghost predicate FirstDelimiter(s: string, i: nat, parens: nat, brackets: nat, k: nat)
    requires i <= |s|
  {
    i <= k < |s| && TopLevelDelimiter(s, i, parens, brackets, k) &&
    (forall j :: i <= j < k ==> !TopLevelDelimiter(s, i, parens, brackets, j)) &&
    (forall j :: i <= j <= k ==> Parens(s, i, parens, j) >= 0 && Brackets(s, i, brackets, j) >= 0)
  }

  /** Moving the reference point one character on changes no level. */
  lemma ShiftLevels(s: string, i: nat, parens: nat, brackets: nat, parens': int, brackets': int, j: nat)
    requires i < j <= |s|
    requires parens' == parens + (if s[i] == '(' then 1 else if s[i] == ')' then -1 else 0)
    requires brackets' == brackets + (if s[i] == '[' then 1 else if s[i] == ']' then -1 else 0)
    ensures Parens(s, i, parens, j) == Parens(s, i + 1, parens', j)
    ensures Brackets(s, i, brackets, j) == Brackets(s, i + 1, brackets', j)
  {
    LevelStep(s, i, '(', ')');
    LevelStep(s, i, '[', ']');
  }

  lemma ShiftDelimiter(s: string, i: nat, parens: nat, brackets: nat, parens': nat, brackets': nat, k: nat)
    requires i < |s| && !TopLevelDelimiter(s, i, parens, brackets, i)
    requires parens' == parens + (if s[i] == '(' then 1 else if s[i] == ')' then -1 else 0)
    requires brackets' == brackets + (if s[i] == '[' then 1 else if s[i] == ']' then -1 else 0)
    ensures FirstDelimiter(s, i, parens, brackets, k) <==> FirstDelimiter(s, i + 1, parens', brackets', k)
  {
    hide Level;
    assert Parens(s, i, parens, i) == parens && Brackets(s, i, brackets, i) == brackets;
    forall j | i < j <= |s|
      ensures Parens(s, i, parens, j) == Parens(s, i + 1, parens', j)
      ensures Brackets(s, i, brackets, j) == Brackets(s, i + 1, brackets', j)
    {
      ShiftLevels(s, i, parens, brackets, parens', brackets', j);
    }
    hide Parens, Brackets;
    var next := i + 1;
    if FirstDelimiter(s, next, parens', brackets', k) {
      forall j | i <= j < k ensures !TopLevelDelimiter(s, i, parens, brackets, j) {
        assert j > i ==> !TopLevelDelimiter(s, next, parens', brackets', j);
      }
    }
    if FirstDelimiter(s, i, parens, brackets, k) {
      forall j | next <= j < k ensures !TopLevelDelimiter(s, next, parens', brackets', j) {
        assert !TopLevelDelimiter(s, i, parens, brackets, j);
      }
      forall j | next <= j <= k
        ensures Parens(s, next, parens', j) >= 0 && Brackets(s, next, brackets', j) >= 0
      {
        assert Parens(s, i, parens, j) >= 0 && Brackets(s, i, brackets, j) >= 0;
      }
      assert k > i && TopLevelDelimiter(s, next, parens', brackets', k);
    }
  }

  /** What the scan reports, told by the first delimiter alone. */
  ghost predicate ItemEndAt(s: string, k: nat, e: ItemEnd) {
    k < |s| &&
    match e
    case Closed(end) => if s[k] == '{' then Closes(s, k + 1, 1, end, '{', '}') else end == k + 1
    case Unclosed => s[k] == '{' && StaysOpen(s, k + 1, 1, |s|, '{', '}') && Level(s, k + 1, '{', '}') <= Level(s, |s|, '{', '}')
    case NoEnd => false
  }

  lemma DelimiterEnds(s: string, i: nat, parens: nat, brackets: nat)
    requires i < |s| && TopLevelDelimiter(s, i, parens, brackets, i)
    ensures FirstDelimiter(s, i, parens, brackets, i)
    ensures ItemEndAt(s, i, ItemEndFrom(s, i, parens, brackets))
  {
    hide Level;
    assert parens == 0 && brackets == 0;
    if s[i] == '{' {
      CloseAfterLevels(s, i + 1, 1, '{', '}');
    }
  }

  lemma ClosedTooOften(s: string, i: nat, parens: nat, brackets: nat, k: nat)
    requires i < |s|
    requires (s[i] == ')' && parens == 0) || (s[i] == ']' && brackets == 0)
    ensures !FirstDelimiter(s, i, parens, brackets, k)
  {
    LevelStep(s, i, '(', ')');
    LevelStep(s, i, '[', ']');
    if k > i {
      assert Parens(s, i, parens, i + 1) < 0 || Brackets(s, i, brackets, i + 1) < 0;
    }
  }

  lemma {:induction false} ItemEndFromLevels(s: string, i: nat, parens: nat, brackets: nat)
    requires i <= |s|
    ensures ItemEndFrom(s, i, parens, brackets).NoEnd? ==> forall k :: !FirstDelimiter(s, i, parens, brackets, k)
    ensures !ItemEndFrom(s, i, parens, brackets).NoEnd? ==>
            exists k :: FirstDelimiter(s, i, parens, brackets, k) && ItemEndAt(s, k, ItemEndFrom(s, i, parens, brackets))
    decreases |s| - i
  {
    hide Level, FirstDelimiter, CloseAfter;
    if i == |s| {
      forall k ensures !FirstDelimiter(s, i, parens, brackets, k) {
        NoDelimiterAtEnd(s, parens, brackets, k);
      }
    } else if TopLevelDelimiter(s, i, parens, brackets, i) {
      DelimiterEnds(s, i, parens, brackets);
    } else if (s[i] == ')' && parens == 0) || (s[i] == ']' && brackets == 0) {
      forall k ensures !FirstDelimiter(s, i, parens, brackets, k) {
        ClosedTooOften(s, i, parens, brackets, k);
      }
    } else {
      var parens' := parens + (if s[i] == '(' then 1 else if s[i] == ')' then -1 else 0);
      var brackets' := brackets + (if s[i] == '[' then 1 else if s[i] == ']' then -1 else 0);
      ItemEndFromLevels(s, i + 1, parens', brackets');
      forall k ensures FirstDelimiter(s, i, parens, brackets, k) <==> FirstDelimiter(s, i + 1, parens', brackets', k) {
        ShiftDelimiter(s, i, parens, brackets, parens', brackets', k);
      }
    }
  }

  lemma NoDelimiterAtEnd(s: string, parens: nat, brackets: nat, k: nat)
    ensures !FirstDelimiter(s, |s|, parens, brackets, k)
  {
  }

  lemma DelimiterIsUnique(s: string, i: nat, k: nat, k': nat)
    requires i <= |s| && FirstDelimiter(s, i, 0, 0, k) && FirstDelimiter(s, i, 0, 0, k')
    ensures k == k'
  {
    hide Level;
  }

  /** The item at `i` closes at `e`. */
  ghost predicate ItemCloses(s: string, i: nat, e: nat)
    requires i <= |s|
  {
    exists k: nat :: FirstDelimiter(s, i, 0, 0, k) && ItemEndAt(s, k, Closed(e))
  }

  /**
   An item ends at the match of its first top-level brace, or just after its first top-level
   semicolon or comma, and nowhere else.
   */
  lemma ItemEndIsExact(s: string, i: nat, e: nat)
    requires i <= |s|
    ensures ItemEndFrom(s, i, 0, 0) == Closed(e) <==> ItemCloses(s, i, e)
  {
    hide FirstDelimiter, Level, ItemEndFrom;
    ItemEndFromLevels(s, i, 0, 0);
    var scanned := ItemEndFrom(s, i, 0, 0);
    if ItemCloses(s, i, e) {
      var k :| FirstDelimiter(s, i, 0, 0, k) && ItemEndAt(s, k, Closed(e));
      assert !scanned.NoEnd?;
      var k' :| FirstDelimiter(s, i, 0, 0, k') && ItemEndAt(s, k', scanned);
      DelimiterIsUnique(s, i, k, k');
    }
  }

  // ----- line numbers survive masking -----

  lemma {:induction false} SameNewlines(text: string, masked: string, j: nat)
    requires |text| == |masked| && SamePositions(text, masked, 0) && j <= |text|
    ensures Count(text[..j], '\n') == Count(masked[..j], '\n')
  {
    if j > 0 {
      assert text[..j][..j - 1] == text[..j - 1] && masked[..j][..j - 1] == masked[..j - 1];
      SameNewlines(text, masked, j - 1);
    }
  }

  /** A position has the same line number in the source and in its masked form. */
  lemma MaskKeepsLineNumbers(text: string, alnum: CharClass, j: nat)
    requires Mask(text, alnum).Ok? && j <= |text|
    ensures |Mask(text, alnum).value| == |text|
    ensures LineOf(Mask(text, alnum).value, j) == LineOf(text, j)
  {
    MaskKeepsPositions(text, alnum);
    SameNewlines(text, Mask(text, alnum).value, j);
  }

  // ----- the excluded ranges -----

  /** The item of the attribute, behind further attributes, closes at `e`. */
  ghost predicate ItemRunsTo(masked: string, spans: seq<Span>, span: Span, e: nat, space: CharClass)
    requires ValidSpans(masked, spans) && span in spans
  {
    exists cursor: nat :: cursor <= |masked| && ItemBegins(masked, spans, span.end, cursor, space) && ItemCloses(masked, cursor, e)
  }

  /** The attribute is attached to a module that is kept in another file. */
  ghost predicate IsExternal(masked: string, spans: seq<Span>, span: Span, classes: Classes) {
    exists cursor :: ItemBegins(masked, spans, span.end, cursor, classes.space) && ModuleThen(masked, cursor, ';', classes)
  }

  /** The attribute is attached to a module of which neither a body nor an end is seen. */
  ghost predicate IsAmbiguous(masked: string, spans: seq<Span>, span: Span, classes: Classes) {
    exists cursor ::
      && ItemBegins(masked, spans, span.end, cursor, classes.space) && IsModule(masked, cursor, classes)
      && !ModuleThen(masked, cursor, ';', classes) && !ModuleThen(masked, cursor, '{', classes)
  }

  /** What the scanner sees behind an attribute is what is written there. */
  lemma ItemIsSeen(masked: string, spans: seq<Span>, span: Span, classes: Classes)
    requires ValidSpans(masked, spans) && span in spans
    ensures span.end <= |masked|
    ensures forall e: nat :: ItemRunsTo(masked, spans, span, e, classes.space) <==>
                             ItemCloses(masked, ItemStart(masked, spans, span.end, classes.space), e)
    ensures IsExternal(masked, spans, span, classes) <==>
            DeclarationAt(masked, ItemStart(masked, spans, span.end, classes.space), classes).External?
    ensures IsAmbiguous(masked, spans, span, classes) <==>
            DeclarationAt(masked, ItemStart(masked, spans, span.end, classes.space), classes).Ambiguous?
  {
    hide ItemBegins, ItemCloses, DeclarationAt, IsModule, ModuleThen;
    var cursor := ItemStart(masked, spans, span.end, classes.space);
    forall j: nat
      ensures ItemBegins(masked, spans, span.end, j, classes.space) <==> j == cursor
    {
      ItemStartIsExact(masked, spans, span.end, j, classes.space);
    }
    DeclarationIsExact(masked, cursor, classes);
  }

  /** The span carries a test-support attribute and its item occupies exactly these lines. */
  ghost predicate IsItemRange(text: string, masked: string, spans: seq<Span>, span: Span, range: Range, classes: Classes)
    requires |text| == |masked| && ValidSpans(masked, spans) && span in spans
  {
    IsTestSupport(text[span.start..span.end], classes.space) &&
    range.first == LineOf(masked, span.start) &&
    exists e: nat :: ItemRunsTo(masked, spans, span, e, classes.space) && 0 < e <= |masked| && range.last == LineOf(masked, e - 1)
  }

  lemma JudgedRange(text: string, masked: string, spans: seq<Span>, span: Span, excluded: set<nat>, classes: Classes)
    requires |text| == |masked| && ValidSpans(masked, spans) && span in spans
    requires Judge(text, masked, spans, span, excluded, classes).Exclude?
    ensures var range := Judge(text, masked, spans, span, excluded, classes).range;
            range.first <= range.last && range.first !in excluded &&
            IsItemRange(text, masked, spans, span, range, classes)
  {
    hide IsTestSupportAttribute, IsTestSupport, DeclarationAt, FirstDelimiter, ItemRunsTo, ItemCloses, IsExternal, IsAmbiguous;
    TestSupportIsRecognized(text[span.start..span.end], classes.space);
    ItemIsSeen(masked, spans, span, classes);
    var cursor := ItemStart(masked, spans, span.end, classes.space);
    var e := ItemEndFrom(masked, cursor, 0, 0).end;
    ItemEndIsExact(masked, cursor, e);
    CountMonotone(masked, span.start, e - 1, '\n');
  }

  /** Ranges start after `floor` and follow one another without touching a common line. */
  ghost predicate Increasing(ranges: seq<Range>, floor: int) {
    (forall k :: 0 <= k < |ranges| ==> floor < ranges[k].first <= ranges[k].last) &&
    (forall j, k :: 0 <= j < k < |ranges| ==> ranges[j].last < ranges[k].first)
  }

  lemma PrependIncreasing(range: Range, rest: seq<Range>, floor: int)
    requires floor < range.first <= range.last && Increasing(rest, range.last)
    ensures Increasing([range] + rest, floor)
  {
    var ranges := [range] + rest;
    assert forall k :: 0 < k < |ranges| ==> ranges[k] == rest[k - 1];
  }

  lemma SpanLinesAscend(masked: string, spans: seq<Span>, j: nat, k: nat)
    requires ValidSpans(masked, spans) && j <= k < |spans|
    requires forall a, b :: 0 <= a < b < |spans| ==> spans[a].end <= spans[b].start
    ensures LineOf(masked, spans[j].start) <= LineOf(masked, spans[k].start)
  {
    CountMonotone(masked, spans[j].start, spans[k].start, '\n');
  }

  /**
   From the `k`-th span on: given that the lines `floorStart..floor` are already excluded and that
   no later attribute starts before `floorStart`, the new ranges lie strictly below `floor`.
   */
  lemma {:induction false} RangesIncrease(text: string, masked: string, spans: seq<Span>, k: nat, excluded: set<nat>,
                                          classes: Classes, floorStart: int, floor: int)
    requires |text| == |masked| && ValidSpans(masked, spans) && k <= |spans|
    requires forall a, b :: 0 <= a < b < |spans| ==> spans[a].end <= spans[b].start
    requires forall n: nat :: floorStart <= n <= floor ==> n in excluded
    requires forall m :: k <= m < |spans| ==> floorStart <= LineOf(masked, spans[m].start)
    requires RangesFrom(text, masked, spans, k, excluded, classes).Ok?
    ensures Increasing(RangesFrom(text, masked, spans, k, excluded, classes).value, floor)
    decreases |spans| - k
  {
    hide Judge, LineOf, IsItemRange;
    if k < |spans| {
      var verdict := Judge(text, masked, spans, spans[k], excluded, classes);
      if verdict.Exclude? {
        var range := verdict.range;
        JudgedRange(text, masked, spans, spans[k], excluded, classes);
        JudgedFirst(text, masked, spans, spans[k], excluded, classes);
        forall m | k + 1 <= m < |spans| ensures range.first <= LineOf(masked, spans[m].start) {
          SpanLinesAscend(masked, spans, k, m);
        }
        RangesIncrease(text, masked, spans, k + 1, excluded + LinesOf(range), classes, range.first, range.last);
        PrependIncreasing(range, RangesFrom(text, masked, spans, k + 1, excluded + LinesOf(range), classes).value, floor);
      } else {
        RangesIncrease(text, masked, spans, k + 1, excluded, classes, floorStart, floor);
      }
    }
  }

  lemma JudgedFirst(text: string, masked: string, spans: seq<Span>, span: Span, excluded: set<nat>, classes: Classes)
    requires |text| == |masked| && ValidSpans(masked, spans) && span in spans
    requires Judge(text, masked, spans, span, excluded, classes).Exclude?
    ensures Judge(text, masked, spans, span, excluded, classes).range.first == LineOf(masked, span.start)
  {
    hide IsTestSupportAttribute, DeclarationAt, ItemEndFrom;
  }

  ghost predicate ComesFromItem(text: string, masked: string, spans: seq<Span>, range: Range, classes: Classes)
    requires |text| == |masked| && ValidSpans(masked, spans)
  {
    exists k :: 0 <= k < |spans| && IsItemRange(text, masked, spans, spans[k], range, classes)
  }

  /** A test-support span stands on an excluded line, or declares a module kept in another file. */
  ghost predicate IsHandled(text: string, masked: string, spans: seq<Span>, span: Span, lines: set<nat>, classes: Classes)
    requires |text| == |masked| && ValidSpans(masked, spans) && span in spans
  {
    || !IsTestSupport(text[span.start..span.end], classes.space)
    || LineOf(masked, span.start) in lines
    || IsExternal(masked, spans, span, classes)
  }

  /** All lines of the ranges, gathered from the front. */
  function Lines(ranges: seq<Range>): set<nat> {
    if ranges == [] then {} else LinesOf(ranges[0]) + Lines(ranges[1..])
  }

  lemma {:induction false} RangesComeFromItems(text: string, masked: string, spans: seq<Span>, k: nat, excluded: set<nat>,
                                               classes: Classes)
    requires |text| == |masked| && ValidSpans(masked, spans) && k <= |spans|
    requires RangesFrom(text, masked, spans, k, excluded, classes).Ok?
    ensures forall r :: r in RangesFrom(text, masked, spans, k, excluded, classes).value ==>
              ComesFromItem(text, masked, spans, r, classes)
    ensures forall m :: k <= m < |spans| ==>
              IsHandled(text, masked, spans, spans[m],
                        excluded + Lines(RangesFrom(text, masked, spans, k, excluded, classes).value), classes)
    decreases |spans| - k
  {
    hide Judge, IsItemRange, IsHandled;
    if k < |spans| {
      var verdict := Judge(text, masked, spans, spans[k], excluded, classes);
      var next := if verdict.Exclude? then excluded + LinesOf(verdict.range) else excluded;
      RangesComeFromItems(text, masked, spans, k + 1, next, classes);
      var rest := RangesFrom(text, masked, spans, k + 1, next, classes).value;
      var all := RangesFrom(text, masked, spans, k, excluded, classes).value;
      if verdict.Exclude? {
        JudgedRange(text, masked, spans, spans[k], excluded, classes);
        assert all == [verdict.range] + rest && all[1..] == rest;
      }
      assert next + Lines(rest) == excluded + Lines(all);
      JudgedSpanIsHandled(text, masked, spans, spans[k], excluded, excluded + Lines(all), classes);
    }
  }

  lemma JudgedSpanIsHandled(text: string, masked: string, spans: seq<Span>, span: Span, excluded: set<nat>,
                            lines: set<nat>, classes: Classes)
    requires |text| == |masked| && ValidSpans(masked, spans) && span in spans && excluded <= lines
    requires var verdict := Judge(text, masked, spans, span, excluded, classes);
             verdict.Skip? || (verdict.Exclude? && LinesOf(verdict.range) <= lines)
    ensures IsHandled(text, masked, spans, span, lines, classes)
  {
    hide IsTestSupportAttribute, IsTestSupport, DeclarationAt, ItemRunsTo, IsExternal, IsAmbiguous;
    TestSupportIsRecognized(text[span.start..span.end], classes.space);
    ItemIsSeen(masked, spans, span, classes);
    if Judge(text, masked, spans, span, excluded, classes).Exclude? {
      var cursor := ItemStart(masked, spans, span.end, classes.space);
      CountMonotone(masked, span.start, ItemEndFrom(masked, cursor, 0, 0).end - 1, '\n');
    }
  }

  lemma {:induction false} CoveredByIsLines(ranges: seq<Range>)
    ensures CoveredBy(ranges) == Lines(ranges)
    decreases |ranges|
  {
    if |ranges| > 0 {
      LinesAppend(ranges[..|ranges| - 1], ranges[|ranges| - 1]);
      assert ranges == ranges[..|ranges| - 1] + [ranges[|ranges| - 1]];
      CoveredByIsLines(ranges[..|ranges| - 1]);
    }
  }

  lemma {:induction false} LinesAppend(ranges: seq<Range>, last: Range)
    ensures Lines(ranges + [last]) == Lines(ranges) + LinesOf(last)
    decreases |ranges|
  {
    if ranges == [] {
      assert ([] + [last])[1..] == [];
    } else {
      LinesAppend(ranges[1..], last);
      assert (ranges + [last])[1..] == ranges[1..] + [last];
    }
  }

  /**
   For every accepted source: the excluded ranges are increasing and pairwise disjoint, each is
   exactly the lines of one test-support item from its attribute to its closing delimiter, and
   every test-support attribute is either on an excluded line or declares an external module.
   */
  lemma TestRangesAreExact(text: string, classes: Classes)
    requires TestRanges(text, classes).Ok?
    ensures var masked := Mask(text, classes.alnum).value;
            var spans := SpansFrom(masked, 0, classes.space).value;
            var ranges := TestRanges(text, classes).value;
            && |masked| == |text| && ValidSpans(masked, spans)
            && Increasing(ranges, 0)
            && (forall r :: r in ranges ==> ComesFromItem(text, masked, spans, r, classes))
            && (forall m :: 0 <= m < |spans| ==> IsHandled(text, masked, spans, spans[m], CoveredBy(ranges), classes))
  {
    hide Mask, SpansFrom, IsHandled, ComesFromItem;
    var masked := Mask(text, classes.alnum).value;
    var spans := SpansFrom(masked, 0, classes.space).value;
    MaskLength(text, classes.alnum);
    SpansAreValid(masked, 0, classes.space);
    RangesIncrease(text, masked, spans, 0, {}, classes, 1, 0);
    RangesComeFromItems(text, masked, spans, 0, {}, classes);
    var ranges := TestRanges(text, classes).value;
    CoveredByIsLines(ranges);
    assert {} + Lines(ranges) == CoveredBy(ranges);
  }

  // ----- the judgement, told by the text -----

  /** Something of the item is never closed, or it has no end. */
  ghost predicate ItemFails(masked: string, spans: seq<Span>, span: Span, line: nat, error: ItemError, classes: Classes)
    requires ValidSpans(masked, spans) && span in spans
  {
    exists cursor: nat :: cursor <= |masked| && ItemBegins(masked, spans, span.end, cursor, classes.space) &&
      if HasDelimiter(masked, cursor) then NeverEnds(masked, cursor) && error == UnclosedItem(line) else error == AmbiguousItem(line)
  }

  ghost predicate HasDelimiter(s: string, i: nat)
    requires i <= |s|
  {
    exists k: nat :: FirstDelimiter(s, i, 0, 0, k)
  }

  ghost predicate NeverEnds(s: string, i: nat)
    requires i <= |s|
  {
    exists k: nat :: FirstDelimiter(s, i, 0, 0, k) && ItemEndAt(s, k, Unclosed)
  }

  lemma EndIsSeen(s: string, i: nat)
    requires i <= |s|
    ensures ItemEndFrom(s, i, 0, 0).NoEnd? <==> !HasDelimiter(s, i)
    ensures ItemEndFrom(s, i, 0, 0).Unclosed? <==> NeverEnds(s, i)
  {
    hide FirstDelimiter, ItemEndFrom, ItemEndAt;
    ItemEndFromLevels(s, i, 0, 0);
    var end := ItemEndFrom(s, i, 0, 0);
    if !end.NoEnd? {
      var k: nat :| FirstDelimiter(s, i, 0, 0, k) && ItemEndAt(s, k, end);
      if NeverEnds(s, i) {
        var m: nat :| FirstDelimiter(s, i, 0, 0, m) && ItemEndAt(s, m, Unclosed);
        DelimiterIsUnique(s, i, k, m);
        ClosedOrNot(s, k, end);
      }
    }
  }

  lemma ClosedOrNot(s: string, k: nat, end: ItemEnd)
    requires ItemEndAt(s, k, end) && ItemEndAt(s, k, Unclosed)
    ensures !end.Closed?
  {
    hide Level;
  }

  lemma ItemFailureIsSeen(masked: string, spans: seq<Span>, span: Span, line: nat, error: ItemError, classes: Classes)
    requires ValidSpans(masked, spans) && span in spans
    ensures span.end <= |masked|
    ensures var end := ItemEndFrom(masked, ItemStart(masked, spans, span.end, classes.space), 0, 0);
            ItemFails(masked, spans, span, line, error, classes) <==>
              (end.Unclosed? && error == UnclosedItem(line)) || (end.NoEnd? && error == AmbiguousItem(line))
  {
    hide ItemBegins, HasDelimiter, NeverEnds, ItemEndFrom;
    var cursor := ItemStart(masked, spans, span.end, classes.space);
    forall j: nat
      ensures ItemBegins(masked, spans, span.end, j, classes.space) <==> j == cursor
    {
      ItemStartIsExact(masked, spans, span.end, j, classes.space);
    }
    EndIsSeen(masked, cursor);
  }

  /**
   One attribute contributes nothing exactly when it does not mark tests, stands on an excluded line or belongs to an
   external module; otherwise the lines of its item; and it is refused exactly when the module is ambiguous or the
   item does not end.
   */
  lemma JudgeIsExact(text: string, masked: string, spans: seq<Span>, span: Span, excluded: set<nat>, classes: Classes)
    requires |text| == |masked| && ValidSpans(masked, spans) && span in spans
    ensures var verdict, line := Judge(text, masked, spans, span, excluded, classes), LineOf(masked, span.start);
            var passed := !IsTestSupport(text[span.start..span.end], classes.space) || line in excluded ||
                          IsExternal(masked, spans, span, classes);
            var ambiguous := IsAmbiguous(masked, spans, span, classes);
            && (verdict.Skip? <==> passed)
            && (forall range :: verdict == Exclude(range) <==>
                  !passed && !ambiguous && IsItemRange(text, masked, spans, span, range, classes))
            && (forall error :: verdict == Reject(error) <==>
                  !passed && if ambiguous then error == AmbiguousModule(line) else ItemFails(masked, spans, span, line, error, classes))
  {
    hide IsTestSupportAttribute, IsTestSupport, DeclarationAt, ItemRunsTo, ItemCloses, IsExternal, IsAmbiguous, ItemFails, ItemEndFrom,
      ItemStart, LineOf;
    var cursor, line := ItemStart(masked, spans, span.end, classes.space), LineOf(masked, span.start);
    TestSupportIsRecognized(text[span.start..span.end], classes.space);
    ItemIsSeen(masked, spans, span, classes);
    forall e: nat
      ensures ItemEndFrom(masked, cursor, 0, 0) == Closed(e) <==> ItemCloses(masked, cursor, e)
    {
      ItemEndIsExact(masked, cursor, e);
    }
    forall error
      ensures ItemFails(masked, spans, span, line, error, classes) <==>
              (ItemEndFrom(masked, cursor, 0, 0).Unclosed? && error == UnclosedItem(line)) ||
              (ItemEndFrom(masked, cursor, 0, 0).NoEnd? && error == AmbiguousItem(line))
    {
      ItemFailureIsSeen(masked, spans, span, line, error, classes);
    }
  }

  /** The attribute contributes nothing. */
  ghost predicate IsPassed(text: string, masked: string, spans: seq<Span>, span: Span, excluded: set<nat>, classes: Classes)
    requires |text| == |masked| && ValidSpans(masked, spans) && span in spans
  {
    || !IsTestSupport(text[span.start..span.end], classes.space) || LineOf(masked, span.start) in excluded
    || IsExternal(masked, spans, span, classes)
  }

  /** The attributes from the `k`-th on contribute exactly these ranges, one after the other. */
  ghost predicate Contribute(
    text: string, masked: string, spans: seq<Span>, k: nat, excluded: set<nat>, ranges: seq<Range>, classes: Classes)
    requires |text| == |masked| && ValidSpans(masked, spans) && k <= |spans|
    decreases |spans| - k
  {
    if k == |spans| then ranges == []
    else if IsPassed(text, masked, spans, spans[k], excluded, classes) then
      Contribute(text, masked, spans, k + 1, excluded, ranges, classes)
    else
      && ranges != [] && !IsAmbiguous(masked, spans, spans[k], classes)
      && IsItemRange(text, masked, spans, spans[k], ranges[0], classes)
      && Contribute(text, masked, spans, k + 1, excluded + LinesOf(ranges[0]), ranges[1..], classes)
  }

  /** The first attribute from the `k`-th on that is refused is refused for this reason. */
  ghost predicate Refuses(
    text: string, masked: string, spans: seq<Span>, k: nat, excluded: set<nat>, error: ItemError, classes: Classes)
    requires |text| == |masked| && ValidSpans(masked, spans) && k <= |spans|
    decreases |spans| - k
  {
    k < |spans| &&
    if IsPassed(text, masked, spans, spans[k], excluded, classes) then Refuses(text, masked, spans, k + 1, excluded, error, classes)
    else if IsAmbiguous(masked, spans, spans[k], classes) then error == AmbiguousModule(LineOf(masked, spans[k].start))
    else
      || ItemFails(masked, spans, spans[k], LineOf(masked, spans[k].start), error, classes)
      || exists range :: IsItemRange(text, masked, spans, spans[k], range, classes) &&
           Refuses(text, masked, spans, k + 1, excluded + LinesOf(range), error, classes)
  }

  lemma {:induction false} RangesAreContributed(
    text: string, masked: string, spans: seq<Span>, k: nat, excluded: set<nat>, ranges: seq<Range>, error: ItemError, classes: Classes)
    requires |text| == |masked| && ValidSpans(masked, spans) && k <= |spans|
    ensures RangesFrom(text, masked, spans, k, excluded, classes) == Ok(ranges) <==>
            Contribute(text, masked, spans, k, excluded, ranges, classes)
    ensures RangesFrom(text, masked, spans, k, excluded, classes) == Err(error) <==>
            Refuses(text, masked, spans, k, excluded, error, classes)
    decreases |spans| - k
  {
    hide Judge, IsTestSupport, IsExternal, IsAmbiguous, IsItemRange, ItemFails, LineOf, LinesOf;
    if k < |spans| {
      JudgeIsExact(text, masked, spans, spans[k], excluded, classes);
      var verdict := Judge(text, masked, spans, spans[k], excluded, classes);
      match verdict {
        case Skip =>
          RangesAreContributed(text, masked, spans, k + 1, excluded, ranges, error, classes);
        case Reject(_) =>
        case Exclude(range) =>
          var next := excluded + LinesOf(range);
          RangesAreContributed(text, masked, spans, k + 1, next, if ranges == [] then [] else ranges[1..], error, classes);
          assert forall other :: IsItemRange(text, masked, spans, spans[k], other, classes) ==> other == range;
          assert ranges != [] && ranges[0] == range ==> ranges == [range] + ranges[1..];
      }
    }
  }

  /**
   The excluded ranges, or the reason to reject the source, as the attributes of the masked text contribute them; and
   a source is rejected before that only where masking fails or an attribute is never closed.
   */
  lemma TestRangesAreContributed(text: string, classes: Classes, ranges: seq<Range>, error: ItemError)
    ensures Mask(text, classes.alnum).Err? ==> TestRanges(text, classes) == Err(Masking(Mask(text, classes.alnum).error))
    ensures Mask(text, classes.alnum).Ok? ==>
              var masked := Mask(text, classes.alnum).value;
              var spans := SpansFrom(masked, 0, classes.space);
              && |masked| == |text|
              && (spans.Err? ==>
                    (exists start: nat :: NeverCloses(masked, start, classes.space) && start <= |masked| &&
                       TestRanges(text, classes) == Err(UnterminatedAttribute(Count(masked[..start], '\n') + 1))))
              && (spans.Ok? ==>
                    && ValidSpans(masked, spans.value) && ExactSpans(masked, 0, spans.value, classes.space)
                    && (TestRanges(text, classes) == Ok(ranges) <==> Contribute(text, masked, spans.value, 0, {}, ranges, classes))
                    && (TestRanges(text, classes) == Err(error) <==> Refuses(text, masked, spans.value, 0, {}, error, classes)))
  {
    hide Mask, SpansFrom, RangesFrom, Contribute, Refuses, ExactSpans, NeverCloses;
    if Mask(text, classes.alnum).Ok? {
      var masked := Mask(text, classes.alnum).value;
      MaskLength(text, classes.alnum);
      if SpansFrom(masked, 0, classes.space).Err? {
        var start := RefusedAttribute(masked, 0, classes.space);
      } else {
        SpansAreValid(masked, 0, classes.space);
        AttributeSpansAreExact(masked, 0, classes.space);
        RangesAreContributed(text, masked, SpansFrom(masked, 0, classes.space).value, 0, {}, ranges, error, classes);
      }
    }
  }
}
