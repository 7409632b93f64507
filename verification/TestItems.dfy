/**
 Inline test-support items: attribute spans in masked Rust source, the item an attribute is attached
 to, and the source lines the item occupies.
 */
module TestItems {
  import opened Wrappers
  import opened Text
  import opened RustMask

  datatype Span = Span(start: nat, end: nat)

  /** An inclusive range of source lines. */
  datatype Range = Range(first: nat, last: nat)

  datatype ItemError =
    | Masking(error: MaskError)
    | UnterminatedAttribute(line: nat)
    | AmbiguousModule(line: nat)
    | UnclosedItem(line: nat)
    | AmbiguousItem(line: nat)

  /** White space and alphanumerics as the host language classifies characters. */
  datatype Classes = Classes(space: CharClass, alnum: CharClass)

  // ----- bracket matching -----

  /** The position after the delimiter that brings `depth` back to zero, scanning from `i`. */
  function CloseAfter(s: string, i: nat, depth: nat, open: char, close: char): (e: Option<nat>)
    requires i <= |s|
    ensures e.Some? ==> i <= e.value <= |s|
    ensures e.Some? && depth > 0 ==> i < e.value && s[e.value - 1] == close
    decreases |s| - i
  {
    if depth == 0 then Some(i)
    else if i == |s| then None
    else if s[i] == open then CloseAfter(s, i + 1, depth + 1, open, close)
    else if s[i] == close then CloseAfter(s, i + 1, depth - 1, open, close)
    else CloseAfter(s, i + 1, depth, open, close)
  }

  method FindClose(s: string, start: nat, open: char, close: char) returns (end: Option<nat>)
    requires start <= |s|
    ensures end == CloseAfter(s, start, 1, open, close)
  {
    var depth, position := 1, start;
    while position < |s| && depth > 0
      invariant start <= position <= |s| && depth >= 0
      invariant CloseAfter(s, position, depth, open, close) == CloseAfter(s, start, 1, open, close)
    {
      if s[position] == open {
        depth := depth + 1;
      } else if s[position] == close {
        depth := depth - 1;
      }
      position := position + 1;
    }
    end := if depth > 0 then None else Some(position);
  }

  // ----- attribute spans -----

  function SkipSpace(s: string, i: nat, space: CharClass): (j: nat)
    requires i <= |s|
    ensures i <= j <= |s|
    ensures forall k :: i <= k < j ==> space(s[k])
    ensures j < |s| ==> !space(s[j])
    decreases |s| - i
  {
    if i < |s| && space(s[i]) then SkipSpace(s, i + 1, space) else i
  }

  /** A hash sign, optional white space and an opening bracket. */
  predicate OpensAttribute(masked: string, i: nat, space: CharClass) {
    i < |masked| && masked[i] == '#' &&
    var j := SkipSpace(masked, i + 1, space);
    j < |masked| && masked[j] == '['
  }

  function NextAttribute(masked: string, i: nat, space: CharClass): (s: nat)
    requires i <= |masked|
    ensures i <= s <= |masked|
    ensures s < |masked| ==> OpensAttribute(masked, s, space)
    ensures forall k :: i <= k < s ==> !OpensAttribute(masked, k, space)
    decreases |masked| - i
  {
    if i == |masked| || OpensAttribute(masked, i, space) then i else NextAttribute(masked, i + 1, space)
  }

  /** The span of the attribute that opens at `start`, if its brackets close. */
  function AttributeEnd(masked: string, start: nat, space: CharClass): (e: Option<nat>)
    requires OpensAttribute(masked, start, space)
    ensures e.Some? ==> start + 2 <= e.value <= |masked|
  {
    CloseAfter(masked, SkipSpace(masked, start + 1, space) + 1, 1, '[', ']')
  }

  function SpansFrom(masked: string, i: nat, space: CharClass): Result<seq<Span>, ItemError>
    requires i <= |masked|
    decreases |masked| - i
  {
    var start := NextAttribute(masked, i, space);
    if start == |masked| then Ok([])
    else match AttributeEnd(masked, start, space)
      case None => Err(UnterminatedAttribute(LineOf(masked, start)))
      case Some(end) =>
        match SpansFrom(masked, end, space)
        case Err(error) => Err(error)
        case Ok(rest) => Ok([Span(start, end)] + rest)
  }

  function PrependSpans(spans: seq<Span>, r: Result<seq<Span>, ItemError>): Result<seq<Span>, ItemError> {
    match r
    case Err(error) => Err(error)
    case Ok(rest) => Ok(spans + rest)
  }

  method FindAttributeEnd(masked: string, start: nat, space: CharClass) returns (end: Option<nat>)
    requires OpensAttribute(masked, start, space)
    ensures end == AttributeEnd(masked, start, space)
  {
    var opening := SkipSpace(masked, start + 1, space);
    end := FindClose(masked, opening + 1, '[', ']');
  }

  method RustAttributeSpans(masked: string, space: CharClass) returns (r: Result<seq<Span>, ItemError>)
    ensures r == SpansFrom(masked, 0, space)
  {
    hide OpensAttribute, AttributeEnd, SpansFrom;
    var spans: seq<Span> := [];
    var cursor := 0;
    var start := NextAttribute(masked, cursor, space);
    assert SpansFrom(masked, 0, space).Ok? ==> spans + SpansFrom(masked, 0, space).value == SpansFrom(masked, 0, space).value;
    while start < |masked|
      invariant cursor <= start <= |masked| && start == NextAttribute(masked, cursor, space)
      invariant SpansFrom(masked, 0, space) == PrependSpans(spans, SpansFrom(masked, cursor, space))
      decreases |masked| - cursor
    {
      SpanStop(masked, cursor, space);
      var position := FindAttributeEnd(masked, start, space);
      if position.None? {
        return Err(UnterminatedAttribute(LineOf(masked, start)));
      }
      SpanStep(masked, cursor, space, spans);
      spans := spans + [Span(start, position.value)];
      cursor := position.value;
      start := NextAttribute(masked, cursor, space);
    }
    SpanStop(masked, cursor, space);
    assert spans + [] == spans;
    r := Ok(spans);
  }

  lemma SpanStop(masked: string, i: nat, space: CharClass)
    requires i <= |masked|
    ensures NextAttribute(masked, i, space) == |masked| ==> SpansFrom(masked, i, space) == Ok([])
    ensures NextAttribute(masked, i, space) < |masked| && AttributeEnd(masked, NextAttribute(masked, i, space), space).None?
            ==> SpansFrom(masked, i, space) == Err(UnterminatedAttribute(LineOf(masked, NextAttribute(masked, i, space))))
  {
    hide OpensAttribute, AttributeEnd;
  }

  lemma SpanStep(masked: string, i: nat, space: CharClass, spans: seq<Span>)
    requires i <= |masked| && NextAttribute(masked, i, space) < |masked|
    requires AttributeEnd(masked, NextAttribute(masked, i, space), space).Some?
    ensures (var start := NextAttribute(masked, i, space);
             var end := AttributeEnd(masked, start, space).value;
             PrependSpans(spans, SpansFrom(masked, i, space))
             == PrependSpans(spans + [Span(start, end)], SpansFrom(masked, end, space)))
  {
    hide OpensAttribute, AttributeEnd;
    var start := NextAttribute(masked, i, space);
    var end := AttributeEnd(masked, start, space).value;
    var rest := SpansFrom(masked, end, space);
    if rest.Ok? {
      assert spans + ([Span(start, end)] + rest.value) == (spans + [Span(start, end)]) + rest.value;
    }
  }

  // ----- which attributes count -----

  function WithoutSpace(s: string, space: CharClass): (r: string)
    ensures forall c :: c in r <==> c in s && !space(c)
  {
    if s == "" then ""
    else if space(s[0]) then WithoutSpace(s[1..], space)
    else [s[0]] + WithoutSpace(s[1..], space)
  }

  const CFG_ALL_TEST := "#[cfg(all(test,"
  const CFG_ALL_CLOSE := "))]"

  /** Exact test, test-support and fuzz-support attributes, and `all(test, ...)` conjunctions. */
  predicate IsTestSupportAttribute(attribute: string, space: CharClass) {
    var normalized := WithoutSpace(attribute, space);
    || normalized == "#[cfg(test)]"
    || normalized == "#[cfg(feature=\"test-support\")]"
    || normalized == "#[cfg(feature=\"fuzz-support\")]"
    || normalized == "#[cfg(any(test,feature=\"gui-semantic-smoke\"))]"
    || (StartsWith(normalized, CFG_ALL_TEST) && EndsWith(normalized, CFG_ALL_CLOSE) &&
        |normalized| > |CFG_ALL_TEST| + |CFG_ALL_CLOSE| && '\n' !in normalized)
  }

  // ----- the declaration after the attributes -----

  predicate WordAt(s: string, i: nat, w: string) {
    i + |w| <= |s| && s[i..i + |w|] == w
  }

  /** Where the `mod` keyword must stand: after an optional visibility and the space behind it. */
  function ModKeyword(s: string, i: nat, space: CharClass): (p: Option<nat>)
    requires i <= |s|
    ensures p.Some? ==> i <= p.value && WordAt(s, p.value, "mod")
  {
    if WordAt(s, i, "pub") then
      var k := SkipSpace(s, i + 3, space);
      var closing := if k < |s| && s[k] == '(' then IndexOrEnd(s, k + 1, ')') else |s|;
      var after := if closing < |s| then closing + 1 else i + 3;
      var p := SkipSpace(s, after, space);
      if p > after && WordAt(s, p, "mod") then Some(p) else None
    else if WordAt(s, i, "mod") then Some(i)
    else None
  }

  predicate IdentStart(c: char) {
    'A' <= c <= 'Z' || 'a' <= c <= 'z' || c == '_'
  }

  function IdentRun(s: string, i: nat): (j: nat)
    requires i <= |s|
    ensures i <= j <= |s|
    decreases |s| - i
  {
    if i < |s| && (IdentStart(s[i]) || '0' <= s[i] <= '9') then IdentRun(s, i + 1) else i
  }

  /** The end of an identifier at `i` that is followed by a word boundary. */
  function IdentEnd(s: string, i: nat, alnum: CharClass): (e: Option<nat>)
    requires i <= |s|
    ensures e.Some? ==> i < e.value <= |s|
  {
    if i < |s| && IdentStart(s[i]) then
      var e := IdentRun(s, i + 1);
      if e == |s| || !IsWord(s[e], alnum) then Some(e) else None
    else None
  }

  function ModuleNameEnd(s: string, i: nat, alnum: CharClass): (e: Option<nat>)
    requires i <= |s|
    ensures e.Some? ==> i < e.value <= |s|
  {
    var raw := if WordAt(s, i, "r#") then IdentEnd(s, i + 2, alnum) else None;
    if raw.Some? then raw else IdentEnd(s, i, alnum)
  }

  datatype Declaration = NotModule | External | InlineModule | Ambiguous

  /** What follows the attributes: a module with a body, an external module, or something else. */
  function DeclarationAt(s: string, i: nat, classes: Classes): Declaration
    requires i <= |s|
  {
    match ModKeyword(s, i, classes.space)
    case None => NotModule
    case Some(p) =>
      var n := SkipSpace(s, p + 3, classes.space);
      if n == p + 3 then NotModule
      else match ModuleNameEnd(s, n, classes.alnum)
        case None => NotModule
        case Some(e) =>
          var after := SkipSpace(s, e, classes.space);
          if after < |s| && s[after] == ';' then External
          else if after < |s| && s[after] == '{' then InlineModule
          else Ambiguous
  }

  // ----- where the item ends -----

  datatype ItemEnd = Closed(end: nat) | Unclosed | NoEnd

  /** Scans one item from `i` with the given numbers of open parentheses and brackets. */
  function ItemEndFrom(s: string, i: nat, parens: nat, brackets: nat): (e: ItemEnd)
    requires i <= |s|
    ensures e.Closed? ==> i < e.end <= |s|
    decreases |s| - i
  {
    if i == |s| then NoEnd
    else if s[i] == '(' then ItemEndFrom(s, i + 1, parens + 1, brackets)
    else if s[i] == ')' then
      if parens == 0 then NoEnd else ItemEndFrom(s, i + 1, parens - 1, brackets)
    else if s[i] == '[' then ItemEndFrom(s, i + 1, parens, brackets + 1)
    else if s[i] == ']' then
      if brackets == 0 then NoEnd else ItemEndFrom(s, i + 1, parens, brackets - 1)
    else if s[i] == '{' && parens == 0 && brackets == 0 then
      match CloseAfter(s, i + 1, 1, '{', '}') {
        case Some(e) => Closed(e)
        case None => Unclosed
      }
    else if s[i] in {';', ','} && parens == 0 && brackets == 0 then Closed(i + 1)
    else ItemEndFrom(s, i + 1, parens, brackets)
  }

  method FindItemEnd(masked: string, cursor: nat) returns (end: ItemEnd)
    requires cursor <= |masked|
    ensures end == ItemEndFrom(masked, cursor, 0, 0)
  {
    var parentheses, brackets, closing := 0, 0, cursor;
    while closing < |masked|
      invariant cursor <= closing <= |masked| && parentheses >= 0 && brackets >= 0
      invariant ItemEndFrom(masked, closing, parentheses, brackets) == ItemEndFrom(masked, cursor, 0, 0)
    {
      var character := masked[closing];
      if character == '(' {
        parentheses := parentheses + 1;
      } else if character == ')' {
        parentheses := parentheses - 1;
        if parentheses < 0 { return NoEnd; }
      } else if character == '[' {
        brackets := brackets + 1;
      } else if character == ']' {
        brackets := brackets - 1;
        if brackets < 0 { return NoEnd; }
      } else if character == '{' && parentheses == 0 && brackets == 0 {
        var e := FindClose(masked, closing + 1, '{', '}');
        return if e.Some? then Closed(e.value) else Unclosed;
      } else if character in {';', ','} && parentheses == 0 && brackets == 0 {
        return Closed(closing + 1);
      }
      closing := closing + 1;
    }
    end := NoEnd;
  }

  // ----- line numbers by bisection -----

  /** Positions up to `j` where a line starts. */
  function LineStartsUpTo(s: string, j: nat): (starts: seq<nat>)
    requires j <= |s|
    ensures |starts| == LineOf(s, j)
  {
    if j == 0 then [0]
    else
      assert s[..j][..j - 1] == s[..j - 1];
      LineStartsUpTo(s, j - 1) + (if s[j - 1] == '\n' then [j] else [])
  }

  lemma {:induction false} LineStartsBounded(s: string, j: nat)
    requires j <= |s|
    ensures forall k :: 0 <= k < |LineStartsUpTo(s, j)| ==> LineStartsUpTo(s, j)[k] <= j
    ensures forall k, m :: 0 <= k < m < |LineStartsUpTo(s, j)| ==> LineStartsUpTo(s, j)[k] < LineStartsUpTo(s, j)[m]
  {
    if j > 0 {
      LineStartsBounded(s, j - 1);
    }
  }

  lemma {:induction false} LineStartsSplit(s: string, i: nat, j: nat)
    requires i <= j <= |s|
    ensures LineStartsUpTo(s, i) <= LineStartsUpTo(s, j)
    ensures forall k :: |LineStartsUpTo(s, i)| <= k < |LineStartsUpTo(s, j)| ==> i < LineStartsUpTo(s, j)[k]
    decreases j - i
  {
    if i < j {
      LineStartsSplit(s, i, j - 1);
    }
  }

  method LineStarts(masked: string) returns (starts: seq<nat>)
    ensures starts == LineStartsUpTo(masked, |masked|)
  {
    starts := [0];
    var position := 0;
    while position < |masked|
      invariant 0 <= position <= |masked|
      invariant starts == LineStartsUpTo(masked, position)
    {
      if masked[position] == '\n' {
        starts := starts + [position + 1];
      }
      position := position + 1;
    }
  }

  /** Right bisection of the line starts gives one more than the newlines before the position. */
  method LineNumber(masked: string, starts: seq<nat>, position: nat) returns (line: nat)
    requires position <= |masked| && starts == LineStartsUpTo(masked, |masked|)
    ensures line == LineOf(masked, position)
  {
    LineStartsBounded(masked, |masked|);
    LineStartsBounded(masked, position);
    LineStartsSplit(masked, position, |masked|);
    ghost var before := LineStartsUpTo(masked, position);
    assert forall k :: 0 <= k < |before| ==> starts[k] == before[k];
    var lo, hi := 0, |starts|;
    while lo < hi
      invariant 0 <= lo <= |before| <= hi <= |starts|
    {
      var mid := (lo + hi) / 2;
      if position < starts[mid] {
        hi := mid;
      } else {
        lo := mid + 1;
      }
    }
    line := lo;
  }

  // ----- the ranges -----

  /** The end of the span that starts exactly at `i`, if there is one. */
  function SpanEndAt(spans: seq<Span>, i: nat): (e: Option<nat>)
    ensures e.Some? ==> Span(i, e.value) in spans
    ensures e.None? ==> forall s :: s in spans ==> s.start != i
  {
    if spans == [] then None
    else if spans[0].start == i then Some(spans[0].end)
    else SpanEndAt(spans[1..], i)
  }

  ghost predicate ValidSpans(masked: string, spans: seq<Span>) {
    && (forall k :: 0 <= k < |spans| ==> spans[k].start < spans[k].end <= |masked|)
    && forall j, k :: 0 <= j < k < |spans| ==> spans[j].end <= spans[k].start
  }

  /** Past white space and any further attributes. */
  function ItemStart(masked: string, spans: seq<Span>, i: nat, space: CharClass): (j: nat)
    requires i <= |masked| && ValidSpans(masked, spans)
    ensures i <= j <= |masked|
    decreases |masked| - i
  {
    var j := SkipSpace(masked, i, space);
    match SpanEndAt(spans, j)
    case None => j
    case Some(e) => ItemStart(masked, spans, e, space)
  }

  method SkipAttributes(masked: string, spans: seq<Span>, start: nat, space: CharClass) returns (cursor: nat)
    requires start <= |masked| && ValidSpans(masked, spans)
    ensures cursor == ItemStart(masked, spans, start, space)
  {
    cursor := start;
    while true
      invariant start <= cursor <= |masked|
      invariant ItemStart(masked, spans, cursor, space) == ItemStart(masked, spans, start, space)
      decreases |masked| - cursor
    {
      var next := SkipSpace(masked, cursor, space);
      var following := SpanEndAt(spans, next);
      if following.None? {
        return next;
      }
      cursor := following.value;
    }
  }

  datatype Verdict = Skip | Exclude(range: Range) | Reject(error: ItemError)

  /** What one attribute span contributes, given the lines excluded so far. */
  function Judge(text: string, masked: string, spans: seq<Span>, span: Span, excluded: set<nat>, classes: Classes): (v: Verdict)
    requires |text| == |masked| && ValidSpans(masked, spans) && span in spans
  {
    var line := LineOf(masked, span.start);
    if !IsTestSupportAttribute(text[span.start..span.end], classes.space) || line in excluded then Skip
    else
      var cursor := ItemStart(masked, spans, span.end, classes.space);
      var declaration := DeclarationAt(masked, cursor, classes);
      if declaration.External? then Skip
      else if declaration.Ambiguous? then Reject(AmbiguousModule(line))
      else match ItemEndFrom(masked, cursor, 0, 0)
        case Closed(end) => Exclude(Range(line, LineOf(masked, end - 1)))
        case Unclosed => Reject(UnclosedItem(line))
        case NoEnd => Reject(AmbiguousItem(line))
  }

  function LinesOf(range: Range): (lines: set<nat>)
    ensures forall n :: n in lines <==> range.first <= n <= range.last
    decreases range.last
  {
    if range.last < range.first then {}
    else if range.last == 0 then {0}
    else LinesOf(Range(range.first, range.last - 1)) + {range.last}
  }

  /** The ranges contributed by the spans from the `k`-th on. */
  function RangesFrom(text: string, masked: string, spans: seq<Span>, k: nat, excluded: set<nat>, classes: Classes)
    : Result<seq<Range>, ItemError>
    requires |text| == |masked| && ValidSpans(masked, spans) && k <= |spans|
    decreases |spans| - k
  {
    if k == |spans| then Ok([])
    else match Judge(text, masked, spans, spans[k], excluded, classes)
      case Skip => RangesFrom(text, masked, spans, k + 1, excluded, classes)
      case Reject(error) => Err(error)
      case Exclude(range) =>
        match RangesFrom(text, masked, spans, k + 1, excluded + LinesOf(range), classes)
        case Err(error) => Err(error)
        case Ok(rest) => Ok([range] + rest)
  }

  /** Every line inside one of the ranges. */
  function CoveredBy(ranges: seq<Range>): set<nat> {
    if ranges == [] then {} else CoveredBy(ranges[..|ranges| - 1]) + LinesOf(ranges[|ranges| - 1])
  }

  function PrependRanges(done: seq<Range>, r: Result<seq<Range>, ItemError>): Result<seq<Range>, ItemError> {
    match r
    case Err(error) => Err(error)
    case Ok(rest) => Ok(done + rest)
  }

  lemma MaskLength(text: string, alnum: CharClass)
    requires Mask(text, alnum).Ok?
    ensures |Mask(text, alnum).value| == |text|
  {
  }

  /** The excluded ranges of a source text, or the first reason to reject it. */
  function TestRanges(text: string, classes: Classes): Result<seq<Range>, ItemError> {
    match Mask(text, classes.alnum)
    case Err(error) => Err(Masking(error))
    case Ok(masked) =>
      match SpansFrom(masked, 0, classes.space)
      case Err(error) => Err(error)
      case Ok(spans) =>
        SpansAreValid(masked, 0, classes.space);
        MaskLength(text, classes.alnum);
        RangesFrom(text, masked, spans, 0, {}, classes)
  }

  /** Spans lie one after the other inside the text, each at least two characters long. */
  lemma {:induction false} SpansAreValid(masked: string, i: nat, space: CharClass)
    requires i <= |masked| && SpansFrom(masked, i, space).Ok?
    ensures ValidSpans(masked, SpansFrom(masked, i, space).value)
    ensures forall k :: 0 <= k < |SpansFrom(masked, i, space).value| ==> i <= SpansFrom(masked, i, space).value[k].start
    ensures var spans := SpansFrom(masked, i, space).value;
            forall j, k :: 0 <= j < k < |spans| ==> spans[j].end <= spans[k].start
    decreases |masked| - i
  {
    var start := NextAttribute(masked, i, space);
    if start < |masked| {
      SpansAreValid(masked, AttributeEnd(masked, start, space).value, space);
    }
  }

  method JudgeSpan(text: string, masked: string, lineStarts: seq<nat>, spans: seq<Span>, span: Span,
                   excluded: set<nat>, classes: Classes)
    returns (v: Verdict)
    requires |text| == |masked| && ValidSpans(masked, spans) && span in spans
    requires lineStarts == LineStartsUpTo(masked, |masked|)
    ensures v == Judge(text, masked, spans, span, excluded, classes)
  {
    hide IsTestSupportAttribute, DeclarationAt, ItemEndFrom, ItemStart, LineStartsUpTo;
    var startLine := LineNumber(masked, lineStarts, span.start);
    if !IsTestSupportAttribute(text[span.start..span.end], classes.space) || startLine in excluded {
      return Skip;
    }
    var cursor := SkipAttributes(masked, spans, span.end, classes.space);
    var declaration := DeclarationAt(masked, cursor, classes);
    if declaration.External? {
      return Skip;
    }
    if declaration.Ambiguous? {
      return Reject(AmbiguousModule(startLine));
    }
    var end := FindItemEnd(masked, cursor);
    if end.Unclosed? {
      return Reject(UnclosedItem(startLine));
    }
    if end.NoEnd? {
      return Reject(AmbiguousItem(startLine));
    }
    var endLine := LineNumber(masked, lineStarts, end.end - 1);
    v := Exclude(Range(startLine, endLine));
  }

  method ExcludedLines(text: string, masked: string, spans: seq<Span>, classes: Classes)
    returns (r: Result<set<nat>, ItemError>)
    requires |text| == |masked| && ValidSpans(masked, spans)
    ensures r == ToLines(RangesFrom(text, masked, spans, 0, {}, classes))
  {
    hide Judge, RangesFrom, LinesOf, LineStartsUpTo;
    var lineStarts := LineStarts(masked);
    var excluded: set<nat> := {};
    ghost var done: seq<Range> := [];
    ghost var all := RangesFrom(text, masked, spans, 0, {}, classes);
    assert all.Ok? ==> [] + all.value == all.value;
    for k := 0 to |spans|
      invariant excluded == CoveredBy(done)
      invariant all == PrependRanges(done, RangesFrom(text, masked, spans, k, excluded, classes))
    {
      RangesUnfold(text, masked, spans, k, excluded, classes);
      var verdict := JudgeSpan(text, masked, lineStarts, spans, spans[k], excluded, classes);
      match verdict {
        case Skip =>
        case Reject(error) =>
          return Err(error);
        case Exclude(range) =>
          RangeStep(text, masked, spans, k, excluded, done, range, classes);
          excluded := excluded + LinesOf(range);
          done := done + [range];
      }
    }
    RangesUnfold(text, masked, spans, |spans|, excluded, classes);
    assert done + [] == done;
    r := Ok(excluded);
  }

  function ToLines(r: Result<seq<Range>, ItemError>): Result<set<nat>, ItemError> {
    match r
    case Ok(ranges) => Ok(CoveredBy(ranges))
    case Err(error) => Err(error)
  }

  method InlineCfgTestModuleLines(text: string, classes: Classes) returns (r: Result<set<nat>, ItemError>)
    ensures r == ToLines(TestRanges(text, classes))
  {
    hide Mask, RangesFrom;
    var masking := MaskRustCommentsAndLiterals(text, classes.alnum);
    if masking.Err? { return Err(Masking(masking.error)); }
    var masked := masking.value;
    var scan := RustAttributeSpans(masked, classes.space);
    if scan.Err? { return Err(scan.error); }
    SpansAreValid(masked, 0, classes.space);
    MaskLength(text, classes.alnum);
    r := ExcludedLines(text, masked, scan.value, classes);
  }

  lemma RangesUnfold(text: string, masked: string, spans: seq<Span>, k: nat, excluded: set<nat>, classes: Classes)
    requires |text| == |masked| && ValidSpans(masked, spans) && k <= |spans|
    ensures k == |spans| ==> RangesFrom(text, masked, spans, k, excluded, classes) == Ok([])
    ensures k < |spans| && Judge(text, masked, spans, spans[k], excluded, classes).Skip?
        ==> RangesFrom(text, masked, spans, k, excluded, classes) == RangesFrom(text, masked, spans, k + 1, excluded, classes)
    ensures k < |spans| && Judge(text, masked, spans, spans[k], excluded, classes).Reject?
        ==> RangesFrom(text, masked, spans, k, excluded, classes)
            == Err(Judge(text, masked, spans, spans[k], excluded, classes).error)
  {
    hide Judge;
  }

  lemma RangeStep(text: string, masked: string, spans: seq<Span>, k: nat, excluded: set<nat>, done: seq<Range>,
                  range: Range, classes: Classes)
    requires |text| == |masked| && ValidSpans(masked, spans) && k < |spans|
    requires Judge(text, masked, spans, spans[k], excluded, classes) == Exclude(range)
    ensures PrependRanges(done, RangesFrom(text, masked, spans, k, excluded, classes))
         == PrependRanges(done + [range], RangesFrom(text, masked, spans, k + 1, excluded + LinesOf(range), classes))
    ensures CoveredBy(done + [range]) == CoveredBy(done) + LinesOf(range)
  {
    hide Judge;
    var rest := RangesFrom(text, masked, spans, k + 1, excluded + LinesOf(range), classes);
    if rest.Ok? {
      assert done + ([range] + rest.value) == (done + [range]) + rest.value;
    }
    assert (done + [range])[..|done|] == done;
  }
}
