/**
 The unified diff of two files, read back: accepted exactly when its numbers fit and its hunks are separated;
 then the added lines are the inserted lines of the new file, and the binding check accepts that file.
 */
module DiffMeaningTheorems {
  import opened Decimals
  import opened DiffMeaning
  import opened Hunks
  import opened HunkScripts
  import opened HunkTheorems
  import opened Wrappers

  // ----- refusal -----

  /** The header, when its numbers fit, announces the body that follows it. */
  predicate Announced(hunk: Hunk) {
    ProperHeader(hunk.header) &&
    (NumbersOf(hunk.header).Some? ==>
       var h := NumbersOf(hunk.header).value;
       && h.oldCount == OldCount(hunk.body) && h.newCount == NewCount(hunk.body)
       && (h.oldCount > 0 ==> h.oldStart > 0) && (h.newCount > 0 ==> h.newStart > 0))
  }

  lemma HeaderIsRefused(hunk: Hunk, previousOldEnd: int, previousNewEnd: int)
    requires Announced(hunk) && !ValidHunk(hunk, previousOldEnd, previousNewEnd)
    ensures ReadHeader(HeaderLine(hunk.header), previousOldEnd, previousNewEnd).Err?
  {
    hide MatchHeader, HeaderLine, NumbersOf;
    HeaderRoundTrip(HeaderLine(hunk.header), hunk.header);
  }

  lemma HunkIsRefused(hunk: Hunk, rest: seq<string>, previousOldEnd: int, previousNewEnd: int, seen: set<nat>,
                      added: seq<ChangedLine>, bound: seq<ChangedLine>)
    requires Announced(hunk) && !ValidHunk(hunk, previousOldEnd, previousNewEnd)
    ensures HunkLines(hunk) + rest != []
    ensures ReadHunk(HunkLines(hunk) + rest, previousOldEnd, previousNewEnd, seen, added, bound).Err?
  {
    hide ReadHeader, Announced, ValidHunk, Body;
    HeaderIsRefused(hunk, previousOldEnd, previousNewEnd);
    assert (HunkLines(hunk) + rest)[0] == HeaderLine(hunk.header);
  }

  /** A script whose headers announce their bodies is refused unless it is valid. */
  lemma {:induction false} InvalidIsRefused(hunks: seq<Hunk>, previousOldEnd: int, previousNewEnd: int, seen: set<nat>,
                                            added: seq<ChangedLine>, bound: seq<ChangedLine>)
    requires forall k :: 0 <= k < |hunks| ==> Announced(hunks[k])
    requires SeenBelow(seen, previousNewEnd) && !ValidFrom(hunks, previousOldEnd, previousNewEnd)
    ensures ParseFrom(ScriptLines(hunks), previousOldEnd, previousNewEnd, seen, added, bound).Err?
    decreases |hunks|
  {
    hide ParseFrom, ReadHunk, HunkLines, Announced, ValidHunk, NumbersOf, SeenBelow, AtHunkOrEnd;
    var hunk, rest := hunks[0], hunks[1..];
    var lines := HunkLines(hunk) + ScriptLines(rest);
    HunkIsNotEmpty(hunk);
    ParseNext(lines, previousOldEnd, previousNewEnd, seen, added, bound);
    if ValidHunk(hunk, previousOldEnd, previousNewEnd) {
      ScriptStartsHunk(rest);
      HunkHasNumbers(hunk, previousOldEnd, previousNewEnd);
      var st := HunkState(hunk, ScriptLines(rest), previousOldEnd, previousNewEnd, seen, added, bound);
      InvalidIsRefused(rest, OldEnd(hunk), NewEnd(hunk), st.seen, st.added, st.bound);
    } else {
      HunkIsRefused(hunk, ScriptLines(rest), previousOldEnd, previousNewEnd, seen, added, bound);
    }
  }

  lemma HunkHasNumbers(hunk: Hunk, previousOldEnd: int, previousNewEnd: int)
    requires ValidHunk(hunk, previousOldEnd, previousNewEnd)
    ensures NumbersOf(hunk.header).Some?
  {
    hide NumbersOf, ProperHeader;
  }

  lemma {:induction false} UnifiedHunksAreAnnounced(regions: seq<Region>, oldBefore: nat, newBefore: nat)
    requires OneLineSections(regions)
    ensures forall k :: 0 <= k < |UnifiedHunks(regions, oldBefore, newBefore)| ==>
              Announced(UnifiedHunks(regions, oldBefore, newBefore)[k])
    decreases |regions|
  {
    hide Announced, UnifiedHunk;
    if regions != [] {
      var oldStart, newStart := oldBefore + |regions[0].skipped|, newBefore + |regions[0].skipped|;
      UnifiedHunkIsAnnounced(regions[0], oldStart, newStart);
      UnifiedHunksAreAnnounced(regions[1..], oldStart + OldCount(regions[0].body), newStart + NewCount(regions[0].body));
    }
  }

  lemma UnifiedHunkIsAnnounced(region: Region, oldBefore: nat, newBefore: nat)
    requires region.section.Some? ==> '\n' !in region.section.value
    ensures Announced(UnifiedHunk(region, oldBefore, newBefore))
  {
    hide NumbersOf, ProperHeader, Printable;
    UnifiedHunkNumbers(region, oldBefore, newBefore);
    UnifiedHunkIsProper(region, oldBefore, newBefore);
  }

  // ----- what an accepted diff says -----

  lemma {:induction false} NumberedJoin(a: seq<NewLine>, b: seq<NewLine>, roles: set<Role>, n: nat)
    ensures Numbered(a + b, roles, n) == Numbered(a, roles, n) + Numbered(b, roles, n + |a|)
    decreases |a|
  {
    if a == [] {
      assert a + b == b;
    } else {
      NumberedJoin(a[1..], b, roles, n + 1);
      assert (a + b)[1..] == a[1..] + b && (a + b)[0] == a[0];
      var first := if a[0].role in roles then [ChangedLine(n, a[0].text)] else [];
      var left, right := Numbered(a[1..], roles, n + 1), Numbered(b, roles, n + |a|);
      assert first + (left + right) == (first + left) + right;
    }
  }

  lemma {:induction false} UnchangedIsUnnumbered(lines: seq<string>, roles: set<Role>, n: nat)
    requires Unshown !in roles
    ensures Numbered(Unchanged(lines), roles, n) == [] && |Unchanged(lines)| == |lines|
    decreases |lines|
  {
    if lines != [] {
      UnchangedIsUnnumbered(lines[1..], roles, n + 1);
      assert Unchanged(lines)[1..] == Unchanged(lines[1..]);
    }
  }

  lemma {:induction false} BodyIsNumbered(body: seq<Piece>, n: nat)
    ensures Numbered(BodyOfNew(body), {Inserted}, n) == AddedBy(body, n)
    ensures Numbered(BodyOfNew(body), {Shown, Inserted}, n) == BoundBy(body, n)
    ensures |BodyOfNew(body)| == NewCount(body)
    decreases |body|
  {
    if body != [] && !body[0].edit.Remove? {
      BodyIsNumbered(body[1..], n + 1);
      assert BodyOfNew(body)[1..] == BodyOfNew(body[1..]);
    } else if body != [] {
      BodyIsNumbered(body[1..], n);
    }
  }

  lemma PrintedNewStart(region: Region, oldBefore: nat, newBefore: nat)
    requires NumbersOf(UnifiedHunk(region, oldBefore, newBefore).header).Some?
    ensures NewCount(region.body) > 0 ==> NewStart(UnifiedHunk(region, oldBefore, newBefore)) == newBefore + 1
  {
    hide NumbersOf, Printable;
    UnifiedHunkNumbers(region, oldBefore, newBefore);
  }

  lemma NoNewLinesNoEntries(body: seq<Piece>, n: nat)
    requires NewCount(body) == 0
    ensures AddedBy(body, n) == [] && BoundBy(body, n) == []
  {
    BodyIsNumbered(body, n);
  }

  /** The script's lines are those of the new file, numbered from one. */
  lemma {:induction false} PrintedLines(regions: seq<Region>, tail: seq<string>, oldBefore: nat, newBefore: nat,
                                        previousOldEnd: int, previousNewEnd: int)
    requires ValidFrom(UnifiedHunks(regions, oldBefore, newBefore), previousOldEnd, previousNewEnd)
    ensures Added(UnifiedHunks(regions, oldBefore, newBefore)) == Numbered(NewFile(regions, tail), {Inserted}, newBefore + 1)
    ensures Bound(UnifiedHunks(regions, oldBefore, newBefore)) == Numbered(NewFile(regions, tail), {Shown, Inserted}, newBefore + 1)
    decreases |regions|
  {
    hide UnifiedHunk, NumbersOf, ValidHunk, Numbered, AddedBy, BoundBy, NewCount, OldCount, BodyOfNew, Unchanged;
    if regions == [] {
      UnchangedIsUnnumbered(tail, {Inserted}, newBefore + 1);
      UnchangedIsUnnumbered(tail, {Shown, Inserted}, newBefore + 1);
    } else {
      var region, rest := regions[0], regions[1..];
      var oldStart, newStart := oldBefore + |region.skipped|, newBefore + |region.skipped|;
      var hunk := UnifiedHunk(region, oldStart, newStart);
      var hunks := UnifiedHunks(regions, oldBefore, newBefore);
      assert hunks[0] == hunk;
      assert hunks[1..] == UnifiedHunks(rest, oldStart + OldCount(region.body), newStart + NewCount(region.body));
      HunkHasNumbers(hunk, previousOldEnd, previousNewEnd);
      PrintedLines(rest, tail, oldStart + OldCount(region.body), newStart + NewCount(region.body), OldEnd(hunk), NewEnd(hunk));
      RegionLines(region, oldStart, newStart, newBefore + 1, NewFile(rest, tail));
    }
  }

  lemma RegionLines(region: Region, oldStart: nat, newStart: nat, first: nat, rest: seq<NewLine>)
    requires NumbersOf(UnifiedHunk(region, oldStart, newStart).header).Some? && newStart + 1 == first + |region.skipped|
    ensures var hunk := UnifiedHunk(region, oldStart, newStart);
            var lines := Unchanged(region.skipped) + (BodyOfNew(region.body) + rest);
            var next := newStart + NewCount(region.body) + 1;
            && hunk.body == region.body
            && Numbered(lines, {Inserted}, first) == AddedBy(hunk.body, NewStart(hunk)) + Numbered(rest, {Inserted}, next)
            && Numbered(lines, {Shown, Inserted}, first)
               == BoundBy(hunk.body, NewStart(hunk)) + Numbered(rest, {Shown, Inserted}, next)
  {
    hide NumbersOf, Numbered, BodyOfNew, Unchanged, AddedBy, BoundBy, NewCount, OldCount, Dec;
    var hunk := UnifiedHunk(region, oldStart, newStart);
    var body := BodyOfNew(region.body);
    forall roles: set<Role> | Unshown !in roles
      ensures Numbered(Unchanged(region.skipped) + (body + rest), roles, first)
           == Numbered(body, roles, newStart + 1) + Numbered(rest, roles, newStart + 1 + |body|)
    {
      NumberedJoin(Unchanged(region.skipped), body + rest, roles, first);
      UnchangedIsUnnumbered(region.skipped, roles, first);
      NumberedJoin(body, rest, roles, newStart + 1);
    }
    BodyIsNumbered(region.body, newStart + 1);
    PrintedNewStart(region, oldStart, newStart);
    if NewCount(region.body) == 0 {
      NoNewLinesNoEntries(region.body, newStart + 1);
      NoNewLinesNoEntries(region.body, NewStart(hunk));
    }
  }

  lemma {:induction false} NumberedBinds(lines: seq<NewLine>, roles: set<Role>, before: seq<string>)
    ensures forall line :: line in Numbered(lines, roles, |before| + 1) ==> Binds(before + Texts(lines), line)
    decreases |lines|
  {
    if lines != [] {
      NumberedBinds(lines[1..], roles, before + [lines[0].text]);
      assert before + Texts(lines) == (before + [lines[0].text]) + Texts(lines[1..]);
    }
  }

  /**
   The unified diff between two files is accepted exactly when every printed number has at most
   twenty digits and no hunk that takes no lines on one side touches a hunk that took some there.
   An accepted diff gives exactly the inserted lines of the new file with their line numbers, and
   the new file passes the binding check.
   */
  lemma UnifiedDiffIsRead(regions: seq<Region>, tail: seq<string>)
    requires OneLineSections(regions)
    ensures Parse(UnifiedDiff(regions)).Ok? <==> PrintableFrom(regions, 0, 0) && SeparatedFrom(regions, false, false)
    ensures Parse(UnifiedDiff(regions)).Ok? ==>
              var (added, bound) := Parse(UnifiedDiff(regions)).value;
              && added == Numbered(NewFile(regions, tail), {Inserted}, 1)
              && bound == Numbered(NewFile(regions, tail), {Shown, Inserted}, 1)
              && forall line :: line in bound ==> Binds(Texts(NewFile(regions, tail)), line)
  {
    hide ParseFrom, ScriptLines, PrintableFrom, SeparatedFrom, ValidFrom, UnifiedHunks;
    var hunks := UnifiedHunks(regions, 0, 0);
    PrintedValidity(regions, 0, 0, -1, -1, false, false);
    if ValidFrom(hunks, -1, -1) {
      ValidScriptsAreRead(hunks);
      PrintedLines(regions, tail, 0, 0, -1, -1);
      NumberedBinds(NewFile(regions, tail), {Shown, Inserted}, []);
      assert [] + Texts(NewFile(regions, tail)) == Texts(NewFile(regions, tail));
    } else {
      UnifiedHunksAreAnnounced(regions, 0, 0);
      InvalidIsRefused(hunks, -1, -1, {}, [], []);
    }
  }

  /** A replaced line followed directly by an insertion hunk: a correct edit script the reader refuses. */
  lemma TouchingInsertionIsRefused()
    ensures var regions := [Region([], [Piece(Remove("a"), false), Piece(Add("b"), false)], None),
                            Region([], [Piece(Add("c"), false)], None)];
            Parse(UnifiedDiff(regions)).Err?
  {
    var first := [Piece(Remove("a"), false), Piece(Add("b"), false)];
    var regions := [Region([], first, None), Region([], [Piece(Add("c"), false)], None)];
    UnifiedDiffIsRead(regions, []);
    assert first[1..] == [Piece(Add("b"), false)];
    assert OldCount(first) > 0 && OldCount([Piece(Add("c"), false)]) == 0;
    assert regions[1..] == [Region([], [Piece(Add("c"), false)], None)];
    assert !SeparatedFrom(regions[1..], true, true);
  }
}
