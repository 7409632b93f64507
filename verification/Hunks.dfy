/**
 The hunk part of one file's unified diff, read line by line: hunk headers, context, removed and added
 lines, and the marker for a missing final newline.
 */
module Hunks {
  import opened Decimals
  import opened Text
  import opened Wrappers

  datatype ChangedLine = ChangedLine(number: nat, text: string)

  datatype ChangeKind = AddedFile | DeletedFile | ModifiedFile | RenamedFile | BinaryFile

  /** What the diff says about one file: its paths, its added lines, and every line its new text must show. */
  datatype ChangedFile = ChangedFile(
    oldPath: Option<string>, newPath: Option<string>, kind: ChangeKind, added: seq<ChangedLine>, bound: seq<ChangedLine>)

  /** A Rust source that is still there after the change. */
  predicate IsRustTarget(file: ChangedFile) {
    file.newPath.Some? && EndsWith(file.newPath.value, ".rs")
  }

  datatype HunkError =
    | OutsideHunk
    | NumberTooLong
    | StartsAtZero
    | OutOfOrder
    | MisplacedMarker
    | MissingPrefix
    | InvalidPrefix(prefix: char)
    | AddedTwice(number: nat)
    | ExceedsCounts
    | CountMismatch

  const NO_NEWLINE := "\\ No newline at end of file"
  const MAX_DIGITS := 20

  // ----- hunk headers -----

  /** The parts of a hunk header, as written. */
  datatype HeaderText = HeaderText(
    oldStart: string, oldCount: Option<string>, newStart: string, newCount: Option<string>, section: Option<string>)

  function DigitRun(s: string): (n: nat)
    ensures n <= |s| && AllDigits(s[..n])
    ensures n < |s| ==> !IsDigit(s[n])
  {
    if s != "" && IsDigit(s[0]) then
      var n := 1 + DigitRun(s[1..]);
      assert s[..n] == [s[0]] + s[1..][..n - 1];
      n
    else 0
  }

  /** The text after `prefix`, if the line starts with it. */
  function After(s: string, prefix: string): Option<string> {
    if StartsWith(s, prefix) then Some(s[|prefix|..]) else None
  }

  /** One or two numbers: a start, and after a comma a count. */
  function MatchRange(s: string): Option<(string, Option<string>, string)> {
    var n := DigitRun(s);
    if n == 0 then None
    else
      var rest := s[n..];
      var m := if rest != "" && rest[0] == ',' then DigitRun(rest[1..]) else 0;
      if m == 0 then Some((s[..n], None, rest))
      else Some((s[..n], Some(rest[1..][..m]), rest[1..][m..]))
  }

  function MatchHeader(line: string): Option<HeaderText> {
    match After(line, "@@ -")
    case None => None
    case Some(s) =>
      match MatchRange(s)
      case None => None
      case Some((oldStart, oldCount, s)) =>
        match After(s, " +")
        case None => None
        case Some(s) =>
          match MatchRange(s)
          case None => None
          case Some((newStart, newCount, s)) =>
            match After(s, " @@")
            case None => None
            case Some(s) =>
              if s == "" then Some(HeaderText(oldStart, oldCount, newStart, newCount, None))
              else if s[0] == ' ' && '\n' !in s then Some(HeaderText(oldStart, oldCount, newStart, newCount, Some(s[1..])))
              else None
  }

  datatype Header = Header(oldStart: nat, oldCount: nat, newStart: nat, newCount: nat)

  function Number(digits: string): Option<nat> {
    if AllDigits(digits) && |digits| <= MAX_DIGITS then Some(ParseNat(digits)) else None
  }

  function CountOf(digits: Option<string>): Option<nat> {
    match digits
    case None => Some(1)
    case Some(s) => Number(s)
  }

  function NumbersOf(h: HeaderText): Option<Header> {
    match (Number(h.oldStart), CountOf(h.oldCount), Number(h.newStart), CountOf(h.newCount))
    case (Some(a), Some(b), Some(c), Some(d)) => Some(Header(a, b, c, d))
    case _ => None
  }

  function ReadHeader(line: string, previousOldEnd: int, previousNewEnd: int): Result<Header, HunkError> {
    match MatchHeader(line)
    case None => Err(OutsideHunk)
    case Some(text) =>
      match NumbersOf(text)
      case None => Err(NumberTooLong)
      case Some(h) =>
        if (h.oldCount > 0 && h.oldStart == 0) || (h.newCount > 0 && h.newStart == 0) then Err(StartsAtZero)
        else if h.oldStart < previousOldEnd || h.newStart < previousNewEnd then Err(OutOfOrder)
        else Ok(h)
  }

  // ----- hunk bodies -----

  /** The scanner's variables inside a hunk. */
  datatype State = State(
    newLine: nat, consumedOld: nat, consumedNew: nat, content: bool,
    seen: set<nat>, added: seq<ChangedLine>, bound: seq<ChangedLine>)

  predicate StartsHunk(line: string) {
    StartsWith(line, "@@ ")
  }

  /** One body line. */
  function Step(line: string, st: State, h: Header): Result<State, HunkError> {
    if line == NO_NEWLINE then
      if st.content then Ok(st.(content := false)) else Err(MisplacedMarker)
    else if line == "" then Err(MissingPrefix)
    else
      var text := line[1..];
      var changed := ChangedLine(st.newLine, text);
      if line[0] == '+' && st.newLine in st.seen then Err(AddedTwice(st.newLine))
      else if line[0] !in {' ', '-', '+'} then Err(InvalidPrefix(line[0]))
      else
        var next :=
          if line[0] == ' ' then
            st.(content := true, consumedOld := st.consumedOld + 1, consumedNew := st.consumedNew + 1,
                newLine := st.newLine + 1, bound := st.bound + [changed])
          else if line[0] == '-' then
            st.(content := true, consumedOld := st.consumedOld + 1)
          else
            st.(content := true, consumedNew := st.consumedNew + 1, newLine := st.newLine + 1,
                seen := st.seen + {st.newLine}, added := st.added + [changed], bound := st.bound + [changed]);
        if next.consumedOld > h.oldCount || next.consumedNew > h.newCount then Err(ExceedsCounts) else Ok(next)
  }

  /** A hunk body up to the next header or the end: the remaining lines and the final state. */
  function Body(lines: seq<string>, st: State, h: Header): (r: Result<(seq<string>, State), HunkError>)
    ensures r.Ok? ==> |r.value.0| <= |lines|
  {
    if lines == [] || StartsHunk(lines[0]) then Ok((lines, st))
    else match Step(lines[0], st, h)
      case Err(error) => Err(error)
      case Ok(next) => Body(lines[1..], next, h)
  }

  type Parsed = Result<(seq<ChangedLine>, seq<ChangedLine>), HunkError>

  /** One whole hunk: its header, the lines after it and the state it leaves. */
  datatype HunkRead = HunkRead(header: Header, rest: seq<string>, state: State)

  function ReadHunk(lines: seq<string>, previousOldEnd: int, previousNewEnd: int,
                    seen: set<nat>, added: seq<ChangedLine>, bound: seq<ChangedLine>): (r: Result<HunkRead, HunkError>)
    requires lines != []
    ensures r.Ok? ==> |r.value.rest| < |lines|
  {
    match ReadHeader(lines[0], previousOldEnd, previousNewEnd)
    case Err(error) => Err(error)
    case Ok(h) =>
      match Body(lines[1..], State(h.newStart, 0, 0, false, seen, added, bound), h)
      case Err(error) => Err(error)
      case Ok((rest, st)) =>
        if st.consumedOld != h.oldCount || st.consumedNew != h.newCount then Err(CountMismatch)
        else Ok(HunkRead(h, rest, st))
  }

  /** All hunks from here on, given the ends of the previous hunk and the lines collected so far. */
  function ParseFrom(lines: seq<string>, previousOldEnd: int, previousNewEnd: int,
                     seen: set<nat>, added: seq<ChangedLine>, bound: seq<ChangedLine>): Parsed
    decreases |lines|
  {
    if lines == [] then Ok((added, bound))
    else match ReadHunk(lines, previousOldEnd, previousNewEnd, seen, added, bound)
      case Err(error) => Err(error)
      case Ok(HunkRead(h, rest, st)) =>
        ParseFrom(rest, h.oldStart + h.oldCount, h.newStart + h.newCount, st.seen, st.added, st.bound)
  }

  function Parse(lines: seq<string>): Parsed {
    ParseFrom(lines, -1, -1, {}, [], [])
  }

  method ReadBody(lines: seq<string>, start: nat, h: Header, seenBefore: set<nat>,
                  addedBefore: seq<ChangedLine>, boundBefore: seq<ChangedLine>)
    returns (r: Result<(nat, State), HunkError>)
    requires start <= |lines|
    ensures r.Ok? ==> start <= r.value.0 <= |lines|
    ensures Body(lines[start..], State(h.newStart, 0, 0, false, seenBefore, addedBefore, boundBefore), h)
         == (match r case Err(error) => Err(error) case Ok((index, st)) => Ok((lines[index..], st)))
  {
    var added, bound, seen := addedBefore, boundBefore, seenBefore;
    var index, newLine, consumedOld, consumedNew, previousWasContent := start, h.newStart, 0, 0, false;
    ghost var whole := Body(lines[start..], State(h.newStart, 0, 0, false, seen, added, bound), h);
    while index < |lines| && !StartsHunk(lines[index])
      invariant start <= index <= |lines| && newLine >= 0 && consumedOld >= 0 && consumedNew >= 0
      invariant whole == Body(lines[index..], State(newLine, consumedOld, consumedNew, previousWasContent, seen, added, bound), h)
    {
      assert lines[index..][1..] == lines[index + 1..];
      var line := lines[index];
      if line == NO_NEWLINE {
        if !previousWasContent { return Err(MisplacedMarker); }
        previousWasContent := false;
        index := index + 1;
        continue;
      }
      if line == "" { return Err(MissingPrefix); }
      var marker, text := line[0], line[1..];
      previousWasContent := true;
      if marker == ' ' {
        consumedOld, consumedNew := consumedOld + 1, consumedNew + 1;
        bound := bound + [ChangedLine(newLine, text)];
        newLine := newLine + 1;
      } else if marker == '-' {
        consumedOld := consumedOld + 1;
      } else if marker == '+' {
        consumedNew := consumedNew + 1;
        if newLine in seen { return Err(AddedTwice(newLine)); }
        var changed := ChangedLine(newLine, text);
        added, bound, seen := added + [changed], bound + [changed], seen + {newLine};
        newLine := newLine + 1;
      } else {
        return Err(InvalidPrefix(marker));
      }
      if consumedOld > h.oldCount || consumedNew > h.newCount { return Err(ExceedsCounts); }
      index := index + 1;
    }
    r := Ok((index, State(newLine, consumedOld, consumedNew, previousWasContent, seen, added, bound)));
  }

  method NextHunk(lines: seq<string>, start: nat, previousOldEnd: int, previousNewEnd: int, seen: set<nat>,
                  added: seq<ChangedLine>, bound: seq<ChangedLine>)
    returns (r: Result<(nat, Header, State), HunkError>)
    requires start < |lines|
    ensures r.Ok? ==> start < r.value.0 <= |lines|
    ensures ReadHunk(lines[start..], previousOldEnd, previousNewEnd, seen, added, bound)
         == (match r case Err(error) => Err(error) case Ok((next, h, st)) => Ok(HunkRead(h, lines[next..], st)))
  {
    hide ReadHeader, Body;
    var header := ReadHeader(lines[start], previousOldEnd, previousNewEnd);
    if header.Err? { return Err(header.error); }
    var h := header.value;
    assert lines[start..][1..] == lines[start + 1..];
    var body := ReadBody(lines, start + 1, h, seen, added, bound);
    if body.Err? { return Err(body.error); }
    var (next, st) := body.value;
    if st.consumedOld != h.oldCount || st.consumedNew != h.newCount { return Err(CountMismatch); }
    r := Ok((next, h, st));
  }

  method ParseHunks(lines: seq<string>, startIndex: nat) returns (r: Parsed)
    requires startIndex <= |lines|
    ensures r == Parse(lines[startIndex..])
  {
    hide ReadHunk;
    var added: seq<ChangedLine>, bound: seq<ChangedLine>, seen: set<nat> := [], [], {};
    var previousOldEnd, previousNewEnd, index := -1, -1, startIndex;
    while index < |lines|
      invariant startIndex <= index <= |lines|
      invariant Parse(lines[startIndex..]) == ParseFrom(lines[index..], previousOldEnd, previousNewEnd, seen, added, bound)
    {
      var hunk := NextHunk(lines, index, previousOldEnd, previousNewEnd, seen, added, bound);
      if hunk.Err? { return Err(hunk.error); }
      var (next, h, st) := hunk.value;
      previousOldEnd, previousNewEnd := h.oldStart + h.oldCount, h.newStart + h.newCount;
      index, seen, added, bound := next, st.seen, st.added, st.bound;
    }
    r := Ok((added, bound));
  }
}
