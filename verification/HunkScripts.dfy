/** Edit scripts, their unified-diff text, and how the reader takes rendered headers and bodies. */
module HunkScripts {
  import opened Decimals
  import opened Hunks
  import opened Text
  import opened Wrappers

  datatype Edit = Keep(text: string) | Remove(text: string) | Add(text: string)

  /** An edit, and whether the marker for a missing final newline follows it. */
  datatype Piece = Piece(edit: Edit, unterminated: bool)

  datatype Hunk = Hunk(header: HeaderText, body: seq<Piece>)

  // ----- the text of a script -----

  function EditLine(e: Edit): string {
    match e
    case Keep(text) => " " + text
    case Remove(text) => "-" + text
    case Add(text) => "+" + text
  }

  function PieceLines(p: Piece): seq<string> {
    if p.unterminated then [EditLine(p.edit), "\\ No newline at end of file"] else [EditLine(p.edit)]
  }

  function BodyLines(body: seq<Piece>): seq<string> {
    if body == [] then [] else PieceLines(body[0]) + BodyLines(body[1..])
  }

  function RangeText(start: string, count: Option<string>): string {
    match count
    case None => start
    case Some(c) => start + "," + c
  }

  function SectionText(section: Option<string>): string {
    match section
    case None => ""
    case Some(s) => " " + s
  }

  function HeaderLine(h: HeaderText): string {
    "@@ -" + (RangeText(h.oldStart, h.oldCount) + (" +" + (RangeText(h.newStart, h.newCount) + (" @@" + SectionText(h.section)))))
  }

  function HunkLines(h: Hunk): seq<string> {
    [HeaderLine(h.header)] + BodyLines(h.body)
  }

  function ScriptLines(hunks: seq<Hunk>): seq<string> {
    if hunks == [] then [] else HunkLines(hunks[0]) + ScriptLines(hunks[1..])
  }

  // ----- what a script says -----

  function OldCount(body: seq<Piece>): nat {
    if body == [] then 0 else (if body[0].edit.Add? then 0 else 1) + OldCount(body[1..])
  }

  function NewCount(body: seq<Piece>): nat {
    if body == [] then 0 else (if body[0].edit.Remove? then 0 else 1) + NewCount(body[1..])
  }

  /** Added lines with their new-file numbers, the body starting at new line `n`. */
  function AddedBy(body: seq<Piece>, n: nat): seq<ChangedLine> {
    if body == [] then []
    else match body[0].edit
      case Keep(_) => AddedBy(body[1..], n + 1)
      case Remove(_) => AddedBy(body[1..], n)
      case Add(text) => [ChangedLine(n, text)] + AddedBy(body[1..], n + 1)
  }

  /** Every line the new file must show, with its number. */
  function BoundBy(body: seq<Piece>, n: nat): seq<ChangedLine> {
    if body == [] then []
    else match body[0].edit
      case Keep(text) => [ChangedLine(n, text)] + BoundBy(body[1..], n + 1)
      case Remove(_) => BoundBy(body[1..], n)
      case Add(text) => [ChangedLine(n, text)] + BoundBy(body[1..], n + 1)
  }

  // ----- headers -----

  predicate ProperNumber(s: string) {
    s != "" && AllDigits(s)
  }

  predicate ProperHeader(h: HeaderText) {
    && ProperNumber(h.oldStart) && ProperNumber(h.newStart)
    && (h.oldCount.Some? ==> ProperNumber(h.oldCount.value))
    && (h.newCount.Some? ==> ProperNumber(h.newCount.value))
    && (h.section.Some? ==> '\n' !in h.section.value)
  }

  lemma {:induction false} DigitRunOf(digits: string, rest: string)
    requires AllDigits(digits) && (rest == "" || !IsDigit(rest[0]))
    ensures DigitRun(digits + rest) == |digits|
  {
    if digits == "" {
      assert digits + rest == rest;
    } else {
      DigitRunOf(digits[1..], rest);
      assert (digits + rest)[1..] == digits[1..] + rest;
    }
  }

  lemma SplitAt(a: string, b: string)
    ensures (a + b)[..|a|] == a && (a + b)[|a|..] == b
  {
  }

  lemma MatchRangeOf(start: string, count: Option<string>, rest: string)
    requires ProperNumber(start) && (count.Some? ==> ProperNumber(count.value))
    requires rest != "" && rest[0] == ' '
    ensures MatchRange(RangeText(start, count) + rest) == Some((start, count, rest))
  {
    hide DigitRun;
    var s := RangeText(start, count) + rest;
    match count
    case None =>
      DigitRunOf(start, rest);
      SplitAt(start, rest);
    case Some(c) =>
      var tail := "," + (c + rest);
      assert s == start + tail;
      DigitRunOf(start, tail);
      DigitRunOf(c, rest);
      SplitAt(start, tail);
      SplitAt(",", c + rest);
      SplitAt(c, rest);
  }

  lemma CountIsRead(start: string, rest: string, m: nat)
    requires rest != "" && rest[0] == ',' && m <= |rest| - 1
    ensures start + rest == RangeText(start, Some(rest[1..][..m])) + rest[1..][m..]
  {
    var c := rest[1..];
    assert c == c[..m] + c[m..];
    assert rest == "," + (c[..m] + c[m..]);
    assert start + rest == (start + "," + c[..m]) + c[m..];
  }

  lemma MatchRangeReads(s: string)
    requires MatchRange(s).Some?
    ensures var (start, count, rest) := MatchRange(s).value;
            ProperNumber(start) && (count.Some? ==> ProperNumber(count.value)) && s == RangeText(start, count) + rest
  {
    hide DigitRun;
    var n := DigitRun(s);
    var rest := s[n..];
    assert s == s[..n] + rest;
    if rest != "" && rest[0] == ',' && DigitRun(rest[1..]) > 0 {
      CountIsRead(s[..n], rest, DigitRun(rest[1..]));
    }
  }

  lemma AfterIs(s: string, prefix: string, rest: string)
    ensures After(s, prefix) == Some(rest) <==> s == prefix + rest
  {
    if StartsWith(s, prefix) {
      assert s == s[..|prefix|] + s[|prefix|..];
    }
    if s == prefix + rest {
      assert s[..|prefix|] == prefix && s[|prefix|..] == rest;
    }
  }

  lemma HeaderIsMatched(h: HeaderText)
    requires ProperHeader(h)
    ensures MatchHeader(HeaderLine(h)) == Some(h)
  {
    hide MatchRange, RangeText, After;
    var s5 := SectionText(h.section);
    var s4 := " @@" + s5;
    var s3 := RangeText(h.newStart, h.newCount) + s4;
    var s2 := " +" + s3;
    var s1 := RangeText(h.oldStart, h.oldCount) + s2;
    assert HeaderLine(h) == "@@ -" + s1;
    AfterIs(HeaderLine(h), "@@ -", s1);
    MatchRangeOf(h.oldStart, h.oldCount, s2);
    AfterIs(s2, " +", s3);
    MatchRangeOf(h.newStart, h.newCount, s4);
    AfterIs(s4, " @@", s5);
    if h.section.Some? {
      assert s5[1..] == h.section.value;
      assert forall k :: 0 < k < |s5| ==> s5[k] == h.section.value[k - 1];
    }
  }

  lemma MatchedIsHeader(line: string)
    requires MatchHeader(line).Some?
    ensures ProperHeader(MatchHeader(line).value) && line == HeaderLine(MatchHeader(line).value)
  {
    hide MatchRange, RangeText, After;
    var h := MatchHeader(line).value;
    var s1 := After(line, "@@ -").value;
    AfterIs(line, "@@ -", s1);
    MatchRangeReads(s1);
    var s2 := MatchRange(s1).value.2;
    var s3 := After(s2, " +").value;
    AfterIs(s2, " +", s3);
    MatchRangeReads(s3);
    var s4 := MatchRange(s3).value.2;
    var s5 := After(s4, " @@").value;
    AfterIs(s4, " @@", s5);
    if s5 != "" {
      assert s5 == " " + s5[1..];
    }
  }

  /** The header pattern matches exactly the rendered headers. */
  lemma HeaderRoundTrip(line: string, h: HeaderText)
    ensures MatchHeader(line) == Some(h) <==> ProperHeader(h) && line == HeaderLine(h)
  {
    hide MatchHeader, HeaderLine;
    if ProperHeader(h) {
      HeaderIsMatched(h);
    }
    if MatchHeader(line).Some? {
      MatchedIsHeader(line);
    }
  }

  // ----- bodies -----

  function AdvancePiece(p: Piece, st: State): State {
    var content := !p.unterminated;
    match p.edit
    case Keep(text) =>
      st.(content := content, consumedOld := st.consumedOld + 1, consumedNew := st.consumedNew + 1,
          newLine := st.newLine + 1, bound := st.bound + [ChangedLine(st.newLine, text)])
    case Remove(_) =>
      st.(content := content, consumedOld := st.consumedOld + 1)
    case Add(text) =>
      st.(content := content, consumedNew := st.consumedNew + 1, newLine := st.newLine + 1,
          seen := st.seen + {st.newLine}, added := st.added + [ChangedLine(st.newLine, text)],
          bound := st.bound + [ChangedLine(st.newLine, text)])
  }

  function Advance(body: seq<Piece>, st: State): State {
    if body == [] then st else Advance(body[1..], AdvancePiece(body[0], st))
  }

  /** Lines already seen all have smaller numbers than the next new line. */
  ghost predicate SeenBelow(seen: set<nat>, limit: int) {
    forall n :: n in seen ==> n < limit
  }

  predicate AtHunkOrEnd(lines: seq<string>) {
    lines == [] || StartsHunk(lines[0])
  }

  lemma EditLineIsPlain(e: Edit)
    ensures EditLine(e) != NO_NEWLINE && EditLine(e) != "" && !StartsHunk(EditLine(e))
    ensures EditLine(e)[1..] == e.text
    ensures EditLine(e)[0] == (match e case Keep(_) => ' ' case Remove(_) => '-' case Add(_) => '+')
  {
    assert EditLine(e)[0] != NO_NEWLINE[0];
    assert |EditLine(e)| >= 3 ==> EditLine(e)[..3][0] == EditLine(e)[0] != "@@ "[0];
  }

  lemma EditIsStepped(e: Edit, st: State, h: Header)
    requires SeenBelow(st.seen, st.newLine)
    requires var next := AdvancePiece(Piece(e, false), st);
             next.consumedOld <= h.oldCount && next.consumedNew <= h.newCount
    ensures Step(EditLine(e), st, h) == Ok(AdvancePiece(Piece(e, false), st))
  {
    EditLineIsPlain(e);
  }

  lemma StepIsEdit(line: string, st: State, h: Header) returns (e: Edit)
    requires line != NO_NEWLINE && Step(line, st, h).Ok?
    ensures line == EditLine(e) && Step(line, st, h).value == AdvancePiece(Piece(e, false), st)
  {
    var text := line[1..];
    assert line == [line[0]] + text;
    e := if line[0] == ' ' then Keep(text) else if line[0] == '-' then Remove(text) else Add(text);
  }

  lemma BodyTakes(line: string, rest: seq<string>, st: State, h: Header)
    requires !StartsHunk(line) && Step(line, st, h).Ok?
    ensures Body([line] + rest, st, h) == Body(rest, Step(line, st, h).value, h)
  {
    hide Step, StartsHunk;
    assert ([line] + rest)[1..] == rest;
  }

  lemma MarkerIsStepped(st: State, h: Header)
    requires st.content
    ensures !StartsHunk(NO_NEWLINE) && Step(NO_NEWLINE, st, h) == Ok(st.(content := false))
  {
    assert NO_NEWLINE[..3][0] != "@@ "[0];
  }

  lemma EditIsTaken(e: Edit, rest: seq<string>, st: State, h: Header)
    requires SeenBelow(st.seen, st.newLine)
    requires var next := AdvancePiece(Piece(e, false), st);
             next.consumedOld <= h.oldCount && next.consumedNew <= h.newCount
    ensures Body([EditLine(e)] + rest, st, h) == Body(rest, AdvancePiece(Piece(e, false), st), h)
  {
    hide Body, Step, StartsHunk, EditLine;
    EditLineIsPlain(e);
    EditIsStepped(e, st, h);
    BodyTakes(EditLine(e), rest, st, h);
  }

  lemma PieceIsTaken(p: Piece, rest: seq<string>, st: State, h: Header)
    requires SeenBelow(st.seen, st.newLine)
    requires var next := AdvancePiece(p, st); next.consumedOld <= h.oldCount && next.consumedNew <= h.newCount
    ensures Body(PieceLines(p) + rest, st, h) == Body(rest, AdvancePiece(p, st), h)
  {
    hide Body, Step, StartsHunk, EditLine;
    if p.unterminated {
      EditIsTaken(p.edit, [NO_NEWLINE] + rest, st, h);
      var st' := AdvancePiece(Piece(p.edit, false), st);
      MarkerIsStepped(st', h);
      BodyTakes(NO_NEWLINE, rest, st', h);
      assert PieceLines(p) + rest == [EditLine(p.edit)] + ([NO_NEWLINE] + rest);
    } else {
      EditIsTaken(p.edit, rest, st, h);
    }
  }

  /** A rendered body within its declared counts is read to its end. */
  lemma {:induction false} BodyIsTaken(body: seq<Piece>, rest: seq<string>, st: State, h: Header)
    requires AtHunkOrEnd(rest) && SeenBelow(st.seen, st.newLine)
    requires st.consumedOld + OldCount(body) <= h.oldCount && st.consumedNew + NewCount(body) <= h.newCount
    ensures Body(BodyLines(body) + rest, st, h) == Ok((rest, Advance(body, st)))
    decreases |body|
  {
    if body == [] {
      assert BodyLines(body) + rest == rest;
    } else {
      hide Body;
      assert BodyLines(body) + rest == PieceLines(body[0]) + (BodyLines(body[1..]) + rest);
      PieceIsTaken(body[0], BodyLines(body[1..]) + rest, st, h);
      BodyIsTaken(body[1..], rest, AdvancePiece(body[0], st), h);
    }
  }

  lemma BodyUntaken(lines: seq<string>, st: State, h: Header)
    requires Body(lines, st, h).Ok?
    ensures AtHunkOrEnd(lines) ==> Body(lines, st, h) == Ok((lines, st))
    ensures !AtHunkOrEnd(lines) ==>
              Step(lines[0], st, h).Ok? && Body(lines, st, h) == Body(lines[1..], Step(lines[0], st, h).value, h)
  {
    hide Step, StartsHunk;
  }

  lemma PieceIsRead(lines: seq<string>, st: State, h: Header) returns (p: Piece, left: seq<string>)
    requires Body(lines, st, h).Ok? && !AtHunkOrEnd(lines) && lines[0] != NO_NEWLINE
    ensures lines == PieceLines(p) + left && AdvancePiece(p, st).content == !p.unterminated
    ensures Body(lines, st, h) == Body(left, AdvancePiece(p, st), h)
    ensures AdvancePiece(p, st).content ==> left == [] || left[0] != NO_NEWLINE
  {
    hide Body, Step, EditLine;
    BodyUntaken(lines, st, h);
    var e := StepIsEdit(lines[0], st, h);
    var next := Step(lines[0], st, h).value;
    left := lines[1..];
    assert lines == [lines[0]] + left;
    if left != [] && left[0] == NO_NEWLINE {
      MarkerIsStepped(next, h);
      BodyUntaken(left, next, h);
      p := Piece(e, true);
      assert left == [NO_NEWLINE] + left[1..];
      assert lines == PieceLines(p) + left[1..];
      left := left[1..];
    } else {
      p := Piece(e, false);
    }
  }

  /** Whatever the reader takes as a body is the rendering of one. */
  lemma {:induction false} BodyIsRead(lines: seq<string>, st: State, h: Header) returns (body: seq<Piece>)
    requires Body(lines, st, h).Ok?
    requires st.content ==> lines == [] || lines[0] != NO_NEWLINE
    ensures var (rest, after) := Body(lines, st, h).value;
            lines == BodyLines(body) + rest && after == Advance(body, st) && AtHunkOrEnd(rest)
    decreases |lines|
  {
    hide Body, Step;
    BodyUntaken(lines, st, h);
    if AtHunkOrEnd(lines) {
      body := [];
    } else {
      MarkerNeedsContent(st, h);
      var p, left := PieceIsRead(lines, st, h);
      var rest := BodyIsRead(left, AdvancePiece(p, st), h);
      body := [p] + rest;
      assert body[1..] == rest;
      assert lines == BodyLines(body) + Body(lines, st, h).value.0;
    }
  }

  lemma MarkerNeedsContent(st: State, h: Header)
    ensures !st.content ==> Step(NO_NEWLINE, st, h).Err?
  {
  }
}
