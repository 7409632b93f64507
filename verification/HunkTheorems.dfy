/**
 The hunk reader against edit scripts: it accepts exactly the rendered valid scripts, numbers added
 lines in strictly increasing order from one, and can never see a line added twice.
 */
module HunkTheorems {
  import opened Decimals
  import opened Hunks
  import opened HunkScripts
  import opened Wrappers

  // ----- the state after a body, in closed form -----

  lemma {:induction false} AdvanceAdds(body: seq<Piece>, st: State)
    ensures Advance(body, st).added == st.added + AddedBy(body, st.newLine)
    ensures Advance(body, st).bound == st.bound + BoundBy(body, st.newLine)
    ensures Advance(body, st).newLine == st.newLine + NewCount(body)
    ensures Advance(body, st).consumedOld == st.consumedOld + OldCount(body)
    ensures Advance(body, st).consumedNew == st.consumedNew + NewCount(body)
    decreases |body|
  {
    if body != [] {
      var st' := AdvancePiece(body[0], st);
      AdvanceAdds(body[1..], st');
      match body[0].edit {
        case Keep(text) =>
          assert st'.bound + BoundBy(body[1..], st'.newLine)
              == st.bound + ([ChangedLine(st.newLine, text)] + BoundBy(body[1..], st'.newLine));
        case Remove(_) =>
        case Add(text) =>
          var changed := ChangedLine(st.newLine, text);
          assert st'.added + AddedBy(body[1..], st'.newLine) == st.added + ([changed] + AddedBy(body[1..], st'.newLine));
          assert st'.bound + BoundBy(body[1..], st'.newLine) == st.bound + ([changed] + BoundBy(body[1..], st'.newLine));
      }
    }
  }

  lemma {:induction false} AdvanceSees(body: seq<Piece>, st: State)
    requires SeenBelow(st.seen, st.newLine)
    ensures SeenBelow(Advance(body, st).seen, Advance(body, st).newLine)
    decreases |body|
  {
    if body != [] {
      AdvanceSees(body[1..], AdvancePiece(body[0], st));
    }
  }

  // ----- valid scripts -----

  /** A number of at most twenty digits. */
  predicate Means(digits: string, n: nat) {
    |digits| <= 20 && (forall c :: c in digits ==> '0' <= c <= '9') && AllDigits(digits) && ParseNat(digits) == n
  }

  /** The header's starts and counts; a count that is not written is one. */
  predicate Announces(text: HeaderText, h: Header) {
    && Means(text.oldStart, h.oldStart) && (if text.oldCount.Some? then Means(text.oldCount.value, h.oldCount) else h.oldCount == 1)
    && Means(text.newStart, h.newStart) && (if text.newCount.Some? then Means(text.newCount.value, h.newCount) else h.newCount == 1)
  }

  lemma NumberIsMeant(digits: string, n: nat)
    ensures Number(digits) == Some(n) <==> Means(digits, n)
  {
    if AllDigits(digits) {
      forall c | c in digits
        ensures '0' <= c <= '9'
      {
        var k :| 0 <= k < |digits| && digits[k] == c;
      }
    }
  }

  /** The numbers of a header are those that it announces. */
  lemma NumbersAreAnnounced(text: HeaderText, h: Header)
    ensures NumbersOf(text) == Some(h) <==> Announces(text, h)
  {
    hide Number, Means;
    NumberIsMeant(text.oldStart, h.oldStart);
    NumberIsMeant(text.newStart, h.newStart);
    if text.oldCount.Some? {
      NumberIsMeant(text.oldCount.value, h.oldCount);
    }
    if text.newCount.Some? {
      NumberIsMeant(text.newCount.value, h.newCount);
    }
  }

  /** The header announces this body at this place after the previous hunk. */
  predicate ValidHunk(hunk: Hunk, previousOldEnd: int, previousNewEnd: int) {
    ProperHeader(hunk.header) && NumbersOf(hunk.header).Some? &&
    var h := NumbersOf(hunk.header).value;
    && (h.oldCount > 0 ==> h.oldStart > 0) && (h.newCount > 0 ==> h.newStart > 0)
    && previousOldEnd <= h.oldStart && previousNewEnd <= h.newStart
    && h.oldCount == OldCount(hunk.body) && h.newCount == NewCount(hunk.body)
  }

  function OldEnd(hunk: Hunk): int
    requires NumbersOf(hunk.header).Some?
  {
    NumbersOf(hunk.header).value.oldStart + NumbersOf(hunk.header).value.oldCount
  }

  function NewEnd(hunk: Hunk): int
    requires NumbersOf(hunk.header).Some?
  {
    NumbersOf(hunk.header).value.newStart + NumbersOf(hunk.header).value.newCount
  }

  predicate ValidFrom(hunks: seq<Hunk>, previousOldEnd: int, previousNewEnd: int) {
    hunks == [] ||
    (ValidHunk(hunks[0], previousOldEnd, previousNewEnd) &&
     ValidFrom(hunks[1..], OldEnd(hunks[0]), NewEnd(hunks[0])))
  }

  predicate Valid(hunks: seq<Hunk>) {
    ValidFrom(hunks, -1, -1)
  }

  function NewStart(hunk: Hunk): nat {
    match NumbersOf(hunk.header)
    case None => 0
    case Some(h) => h.newStart
  }

  function Added(hunks: seq<Hunk>): seq<ChangedLine> {
    if hunks == [] then [] else AddedBy(hunks[0].body, NewStart(hunks[0])) + Added(hunks[1..])
  }

  function Bound(hunks: seq<Hunk>): seq<ChangedLine> {
    if hunks == [] then [] else BoundBy(hunks[0].body, NewStart(hunks[0])) + Bound(hunks[1..])
  }

  lemma HeaderStartsHunk(h: HeaderText)
    ensures StartsHunk(HeaderLine(h))
  {
    assert HeaderLine(h)[..3] == "@@ ";
  }

  lemma ScriptStartsHunk(hunks: seq<Hunk>)
    ensures AtHunkOrEnd(ScriptLines(hunks))
  {
    if hunks != [] {
      HeaderStartsHunk(hunks[0].header);
    }
  }

  lemma HeaderIsRead(hunk: Hunk, previousOldEnd: int, previousNewEnd: int)
    requires ValidHunk(hunk, previousOldEnd, previousNewEnd)
    ensures ReadHeader(HeaderLine(hunk.header), previousOldEnd, previousNewEnd) == Ok(NumbersOf(hunk.header).value)
  {
    hide MatchHeader, HeaderLine;
    HeaderRoundTrip(HeaderLine(hunk.header), hunk.header);
  }

  /** A valid hunk at the front is read exactly. */
  lemma HunkIsRead(hunk: Hunk, rest: seq<string>, previousOldEnd: int, previousNewEnd: int, seen: set<nat>,
                   added: seq<ChangedLine>, bound: seq<ChangedLine>)
    requires ValidHunk(hunk, previousOldEnd, previousNewEnd)
    requires AtHunkOrEnd(rest) && SeenBelow(seen, previousNewEnd)
    ensures (var h := NumbersOf(hunk.header).value;
             ReadHunk(HunkLines(hunk) + rest, previousOldEnd, previousNewEnd, seen, added, bound)
             == Ok(HunkRead(h, rest, Advance(hunk.body, State(h.newStart, 0, 0, false, seen, added, bound)))))
  {
    hide ReadHeader, Body, HeaderLine, StartsHunk, ProperHeader;
    var h := NumbersOf(hunk.header).value;
    var st := State(h.newStart, 0, 0, false, seen, added, bound);
    HeaderIsRead(hunk, previousOldEnd, previousNewEnd);
    hide NumbersOf;
    BodyIsTaken(hunk.body, rest, st, h);
    AdvanceAdds(hunk.body, st);
    var lines := HunkLines(hunk) + rest;
    assert lines[0] == HeaderLine(hunk.header) && lines[1..] == BodyLines(hunk.body) + rest;
  }

  /** The state a valid hunk leaves, in terms of what the script says. */
  lemma HunkState(hunk: Hunk, rest: seq<string>, previousOldEnd: int, previousNewEnd: int, seen: set<nat>,
                  added: seq<ChangedLine>, bound: seq<ChangedLine>)
    returns (st: State)
    requires ValidHunk(hunk, previousOldEnd, previousNewEnd)
    requires AtHunkOrEnd(rest) && SeenBelow(seen, previousNewEnd)
    ensures ReadHunk(HunkLines(hunk) + rest, previousOldEnd, previousNewEnd, seen, added, bound)
         == Ok(HunkRead(NumbersOf(hunk.header).value, rest, st))
    ensures SeenBelow(st.seen, NewEnd(hunk))
    ensures st.added == added + AddedBy(hunk.body, NewStart(hunk))
    ensures st.bound == bound + BoundBy(hunk.body, NewStart(hunk))
  {
    hide ReadHunk, HunkLines, AtHunkOrEnd, ProperHeader, Advance;
    var h := NumbersOf(hunk.header).value;
    var start := State(h.newStart, 0, 0, false, seen, added, bound);
    st := Advance(hunk.body, start);
    HunkIsRead(hunk, rest, previousOldEnd, previousNewEnd, seen, added, bound);
    AdvanceAdds(hunk.body, start);
    AdvanceSees(hunk.body, start);
  }

  lemma ParseEnd(previousOldEnd: int, previousNewEnd: int, seen: set<nat>, added: seq<ChangedLine>, bound: seq<ChangedLine>)
    ensures ParseFrom([], previousOldEnd, previousNewEnd, seen, added, bound) == Ok((added, bound))
  {
  }

  lemma ParseNext(lines: seq<string>, previousOldEnd: int, previousNewEnd: int, seen: set<nat>,
                  added: seq<ChangedLine>, bound: seq<ChangedLine>)
    requires lines != []
    ensures var read := ReadHunk(lines, previousOldEnd, previousNewEnd, seen, added, bound);
            ParseFrom(lines, previousOldEnd, previousNewEnd, seen, added, bound)
            == if read.Err? then Err(read.error)
               else ParseFrom(read.value.rest, read.value.header.oldStart + read.value.header.oldCount,
                              read.value.header.newStart + read.value.header.newCount,
                              read.value.state.seen, read.value.state.added, read.value.state.bound)
  {
    hide ReadHunk;
  }

  lemma Rejoin(a: seq<ChangedLine>, b: seq<ChangedLine>, c: seq<ChangedLine>)
    ensures (a + b) + c == a + (b + c)
  {
  }

  lemma {:induction false} ScriptIsRead(hunks: seq<Hunk>, previousOldEnd: int, previousNewEnd: int, seen: set<nat>,
                                        added: seq<ChangedLine>, bound: seq<ChangedLine>)
    requires ValidFrom(hunks, previousOldEnd, previousNewEnd) && SeenBelow(seen, previousNewEnd)
    ensures ParseFrom(ScriptLines(hunks), previousOldEnd, previousNewEnd, seen, added, bound)
         == Ok((added + Added(hunks), bound + Bound(hunks)))
    decreases |hunks|
  {
    hide ReadHunk, ParseFrom, NumbersOf, HunkLines, ProperHeader, SeenBelow, AtHunkOrEnd;
    if hunks == [] {
      assert added + Added(hunks) == added && bound + Bound(hunks) == bound;
      ParseEnd(previousOldEnd, previousNewEnd, seen, added, bound);
    } else {
      var hunk, rest := hunks[0], hunks[1..];
      ScriptStartsHunk(rest);
      var st := HunkState(hunk, ScriptLines(rest), previousOldEnd, previousNewEnd, seen, added, bound);
      ScriptIsRead(rest, OldEnd(hunk), NewEnd(hunk), st.seen, st.added, st.bound);
      HunkIsNotEmpty(hunk);
      ParseNext(HunkLines(hunk) + ScriptLines(rest), previousOldEnd, previousNewEnd, seen, added, bound);
      Rejoin(added, AddedBy(hunk.body, NewStart(hunk)), Added(rest));
      Rejoin(bound, BoundBy(hunk.body, NewStart(hunk)), Bound(rest));
    }
  }

  lemma HunkIsNotEmpty(hunk: Hunk)
    ensures |HunkLines(hunk)| > 0
  {
  }

  lemma ReadHunkIsHunk(lines: seq<string>, previousOldEnd: int, previousNewEnd: int, seen: set<nat>,
                       added: seq<ChangedLine>, bound: seq<ChangedLine>)
    returns (hunk: Hunk)
    requires lines != [] && ReadHunk(lines, previousOldEnd, previousNewEnd, seen, added, bound).Ok?
    ensures ValidHunk(hunk, previousOldEnd, previousNewEnd)
    ensures lines == HunkLines(hunk) + ReadHunk(lines, previousOldEnd, previousNewEnd, seen, added, bound).value.rest
    ensures NumbersOf(hunk.header) == Some(ReadHunk(lines, previousOldEnd, previousNewEnd, seen, added, bound).value.header)
  {
    hide MatchHeader, HeaderLine, Body, ProperHeader, NumbersOf;
    var read := ReadHunk(lines, previousOldEnd, previousNewEnd, seen, added, bound).value;
    var text := MatchHeader(lines[0]).value;
    HeaderRoundTrip(lines[0], text);
    var h := read.header;
    var st := State(h.newStart, 0, 0, false, seen, added, bound);
    var body := BodyIsRead(lines[1..], st, h);
    AdvanceAdds(body, st);
    hunk := Hunk(text, body);
    assert lines == [lines[0]] + lines[1..];
    assert lines == HunkLines(hunk) + read.rest;
  }

  lemma {:induction false} ParsedIsScript(lines: seq<string>, previousOldEnd: int, previousNewEnd: int, seen: set<nat>,
                                          added: seq<ChangedLine>, bound: seq<ChangedLine>)
    returns (hunks: seq<Hunk>)
    requires ParseFrom(lines, previousOldEnd, previousNewEnd, seen, added, bound).Ok?
    ensures ValidFrom(hunks, previousOldEnd, previousNewEnd) && lines == ScriptLines(hunks)
    decreases |lines|
  {
    hide ReadHunk, NumbersOf, HunkLines, ValidHunk;
    if lines == [] {
      hunks := [];
    } else {
      var hunk := ReadHunkIsHunk(lines, previousOldEnd, previousNewEnd, seen, added, bound);
      var HunkRead(h, left, st) := ReadHunk(lines, previousOldEnd, previousNewEnd, seen, added, bound).value;
      var rest := ParsedIsScript(left, h.oldStart + h.oldCount, h.newStart + h.newCount, st.seen, st.added, st.bound);
      hunks := [hunk] + rest;
      assert hunks[1..] == rest;
    }
  }

  /**
   Parsing inverts rendering: every valid script is read back as exactly its added lines and the
   lines it shows of the new file.
   */
  lemma ValidScriptsAreRead(hunks: seq<Hunk>)
    requires Valid(hunks)
    ensures Parse(ScriptLines(hunks)) == Ok((Added(hunks), Bound(hunks)))
  {
    ScriptIsRead(hunks, -1, -1, {}, [], []);
    assert [] + Added(hunks) == Added(hunks) && [] + Bound(hunks) == Bound(hunks);
  }

  /** The reader accepts the renderings of valid scripts and nothing else. */
  lemma AcceptsExactlyScripts(lines: seq<string>, added: seq<ChangedLine>, bound: seq<ChangedLine>)
    ensures Parse(lines) == Ok((added, bound)) <==>
            exists hunks :: Valid(hunks) && lines == ScriptLines(hunks) && added == Added(hunks) && bound == Bound(hunks)
  {
    hide ValidFrom;
    if Parse(lines).Ok? {
      var hunks := ParsedIsScript(lines, -1, -1, {}, [], []);
      ValidScriptsAreRead(hunks);
      assert Valid(hunks);
    }
    if exists hunks :: Valid(hunks) && lines == ScriptLines(hunks) && added == Added(hunks) && bound == Bound(hunks) {
      var hunks :| Valid(hunks) && lines == ScriptLines(hunks) && added == Added(hunks) && bound == Bound(hunks);
      ValidScriptsAreRead(hunks);
    }
  }

  // ----- added line numbers -----

  /** Numbers increase strictly and stay within `low..high`. */
  ghost predicate Ascending(lines: seq<ChangedLine>, low: int, high: int) {
    && (forall k :: 0 <= k < |lines| ==> low <= lines[k].number < high)
    && (forall j, k :: 0 <= j < k < |lines| ==> lines[j].number < lines[k].number)
  }

  lemma AscendingJoin(a: seq<ChangedLine>, b: seq<ChangedLine>, low: int, mid: int, high: int)
    requires Ascending(a, low, mid) && Ascending(b, mid, high) && low <= mid <= high
    ensures Ascending(a + b, low, high)
  {
  }

  lemma {:induction false} AddedByAscends(body: seq<Piece>, n: nat)
    ensures Ascending(AddedBy(body, n), n, n + NewCount(body))
    decreases |body|
  {
    if body != [] {
      match body[0].edit
      case Keep(_) => AddedByAscends(body[1..], n + 1);
      case Remove(_) => AddedByAscends(body[1..], n);
      case Add(text) =>
        AddedByAscends(body[1..], n + 1);
        AscendingJoin([ChangedLine(n, text)], AddedBy(body[1..], n + 1), n, n + 1, n + NewCount(body));
    }
  }

  lemma {:induction false} AddedAscends(hunks: seq<Hunk>, previousOldEnd: int, previousNewEnd: int) returns (high: int)
    requires ValidFrom(hunks, previousOldEnd, previousNewEnd)
    ensures previousNewEnd <= high
    ensures Ascending(Added(hunks), if previousNewEnd < 1 then 1 else previousNewEnd, high)
    decreases |hunks|
  {
    if hunks == [] {
      high := previousNewEnd;
    } else {
      hide NumbersOf, ProperHeader;
      var h := NumbersOf(hunks[0].header).value;
      high := AddedAscends(hunks[1..], OldEnd(hunks[0]), NewEnd(hunks[0]));
      AddedByAscends(hunks[0].body, h.newStart);
    }
  }

  /** In every accepted diff the added lines are numbered from at least one, strictly upwards. */
  lemma AddedNumbersAscend(lines: seq<string>)
    requires Parse(lines).Ok?
    ensures var added := Parse(lines).value.0;
            && (forall k :: 0 <= k < |added| ==> 1 <= added[k].number)
            && (forall j, k :: 0 <= j < k < |added| ==> added[j].number < added[k].number)
  {
    hide ValidFrom;
    var hunks := ParsedIsScript(lines, -1, -1, {}, [], []);
    ValidScriptsAreRead(hunks);
    var high := AddedAscends(hunks, -1, -1);
  }

  // ----- the duplicate-line error is dead -----

  lemma {:induction false} BodyNeverAddsTwice(lines: seq<string>, st: State, h: Header)
    requires SeenBelow(st.seen, st.newLine)
    ensures Body(lines, st, h).Err? ==> !Body(lines, st, h).error.AddedTwice?
    ensures Body(lines, st, h).Ok? ==>
              var after := Body(lines, st, h).value.1;
              SeenBelow(after.seen, after.newLine) && after.newLine - after.consumedNew == st.newLine - st.consumedNew
    decreases |lines|
  {
    if lines != [] && !StartsHunk(lines[0]) && Step(lines[0], st, h).Ok? {
      var next := Step(lines[0], st, h).value;
      assert SeenBelow(next.seen, next.newLine);
      BodyNeverAddsTwice(lines[1..], next, h);
    }
  }

  lemma HunkNeverAddsTwice(lines: seq<string>, previousOldEnd: int, previousNewEnd: int, seen: set<nat>,
                           added: seq<ChangedLine>, bound: seq<ChangedLine>)
    requires lines != [] && SeenBelow(seen, previousNewEnd)
    ensures var read := ReadHunk(lines, previousOldEnd, previousNewEnd, seen, added, bound);
            if read.Ok? then SeenBelow(read.value.state.seen, read.value.header.newStart + read.value.header.newCount)
            else !read.error.AddedTwice?
  {
    hide MatchHeader, Body, NumbersOf;
    var header := ReadHeader(lines[0], previousOldEnd, previousNewEnd);
    if header.Ok? {
      var h := header.value;
      BodyNeverAddsTwice(lines[1..], State(h.newStart, 0, 0, false, seen, added, bound), h);
    }
  }

  lemma {:induction false} ParseNeverAddsTwice(lines: seq<string>, previousOldEnd: int, previousNewEnd: int, seen: set<nat>,
                                               added: seq<ChangedLine>, bound: seq<ChangedLine>)
    requires SeenBelow(seen, previousNewEnd)
    ensures ParseFrom(lines, previousOldEnd, previousNewEnd, seen, added, bound).Err? ==>
              !ParseFrom(lines, previousOldEnd, previousNewEnd, seen, added, bound).error.AddedTwice?
    decreases |lines|
  {
    hide ReadHunk, ParseFrom;
    if lines == [] {
      ParseEnd(previousOldEnd, previousNewEnd, seen, added, bound);
    } else {
      ParseNext(lines, previousOldEnd, previousNewEnd, seen, added, bound);
      HunkNeverAddsTwice(lines, previousOldEnd, previousNewEnd, seen, added, bound);
      var read := ReadHunk(lines, previousOldEnd, previousNewEnd, seen, added, bound);
      if read.Ok? {
        var HunkRead(h, rest, st) := read.value;
        ParseNeverAddsTwice(rest, h.oldStart + h.oldCount, h.newStart + h.newCount, st.seen, st.added, st.bound);
      }
    }
  }

  /** No input whatever makes the reader report that a new line is added twice. */
  lemma DuplicateErrorIsDead(lines: seq<string>)
    ensures Parse(lines).Err? ==> !Parse(lines).error.AddedTwice?
  {
    ParseNeverAddsTwice(lines, -1, -1, {}, [], []);
  }
}
