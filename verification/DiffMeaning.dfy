/**
 What a unified diff of two files means: from the old and the new text with the regions that changed, the
 hunks of a diff, the lines the reader extracts from them, and the check against the new file.
 */
module DiffMeaning {
  import opened Decimals
  import opened Hunks
  import opened HunkScripts
  import opened HunkTheorems
  import opened Wrappers

  // ----- binding a diff to a source file -----

  datatype BindError =
    | EscapesRepository(path: string)
    | NoSource(path: string)
    | UnreadableSource(path: string)
    | OutsideSource(path: string, line: nat)
    | SourceDiffers(path: string, line: nat)

  /** What stands in the repository at a changed path, once its links are resolved. */
  datatype Source = Outside | Missing | Unreadable | Lines(lines: seq<string>)

  /** The source carries the line at its number. */
  predicate Binds(source: seq<string>, line: ChangedLine) {
    1 <= line.number <= |source| && source[line.number - 1] == line.text
  }

  function FirstUnbound(path: string, source: seq<string>, bound: seq<ChangedLine>): Option<BindError> {
    if bound == [] then None
    else if bound[0].number < 1 || bound[0].number > |source| then Some(OutsideSource(path, bound[0].number))
    else if source[bound[0].number - 1] != bound[0].text then Some(SourceDiffers(path, bound[0].number))
    else FirstUnbound(path, source, bound[1..])
  }

  /** What is wrong with one changed file, if anything is. */
  function FileUnbound(file: ChangedFile, source: Source): Option<BindError> {
    if !IsRustTarget(file) then None
    else if source.Outside? then Some(EscapesRepository(file.newPath.value))
    else if source.Missing? then Some(NoSource(file.newPath.value))
    else if file.bound == [] then None
    else if source.Unreadable? then Some(UnreadableSource(file.newPath.value))
    else FirstUnbound(file.newPath.value, source.lines, file.bound)
  }

  function FirstFileUnbound(files: seq<ChangedFile>, sources: string -> Source): Option<BindError> {
    if files == [] then None
    else
      var error := FileUnbound(files[0], SourceOf(files[0], sources));
      if error.Some? then error else FirstFileUnbound(files[1..], sources)
  }

  function SourceOf(file: ChangedFile, sources: string -> Source): Source {
    if file.newPath.Some? then sources(file.newPath.value) else Missing
  }

  /** The file is no Rust target, or its source is in the repository and carries every bound line. */
  predicate FileBinds(file: ChangedFile, source: Source) {
    IsRustTarget(file) ==>
      && !source.Outside? && !source.Missing?
      && (file.bound != [] ==> source.Lines? && forall line :: line in file.bound ==> Binds(source.lines, line))
  }

  method CheckBindings(path: string, source: seq<string>, bound: seq<ChangedLine>) returns (error: Option<BindError>)
    ensures error == FirstUnbound(path, source, bound)
    ensures error.None? <==> forall line :: line in bound ==> Binds(source, line)
  {
    for k := 0 to |bound|
      invariant FirstUnbound(path, source, bound) == FirstUnbound(path, source, bound[k..])
      invariant forall j :: 0 <= j < k ==> Binds(source, bound[j])
    {
      var binding := bound[k];
      assert bound[k..][1..] == bound[k + 1..];
      if binding.number < 1 || binding.number > |source| {
        assert !Binds(source, binding);
        return Some(OutsideSource(path, binding.number));
      }
      if source[binding.number - 1] != binding.text {
        assert !Binds(source, binding);
        return Some(SourceDiffers(path, binding.number));
      }
    }
    error := None;
  }

  method ValidateSourceBindings(files: seq<ChangedFile>, sources: string -> Source) returns (error: Option<BindError>)
    ensures error == FirstFileUnbound(files, sources)
    ensures error.None? <==> forall file :: file in files ==> FileBinds(file, SourceOf(file, sources))
  {
    hide FirstUnbound, IsRustTarget;
    assert files[0..] == files;
    for k := 0 to |files|
      invariant FirstFileUnbound(files, sources) == FirstFileUnbound(files[k..], sources)
      invariant forall j :: 0 <= j < k ==> FileBinds(files[j], SourceOf(files[j], sources))
    {
      var file := files[k];
      assert files[k..][1..] == files[k + 1..];
      if !IsRustTarget(file) {
        continue;
      }
      RustTargetHasPath(file);
      var path := file.newPath.value;
      var source := sources(path);
      assert !FileBinds(file, source) ==> !FileBinds(files[k], SourceOf(files[k], sources));
      if source.Outside? { return Some(EscapesRepository(path)); }
      if source.Missing? { return Some(NoSource(path)); }
      if file.bound == [] {
        continue;
      }
      if source.Unreadable? { return Some(UnreadableSource(path)); }
      error := CheckBindings(path, source.lines, file.bound);
      if error.Some? {
        return;
      }
    }
    assert files[|files|..] == [];
    error := None;
  }

  lemma RustTargetHasPath(file: ChangedFile)
    requires IsRustTarget(file)
    ensures file.newPath.Some?
  {
  }

  // ----- two versions of a file and the regions between them -----

  /** Unchanged lines the diff does not show, then a body of context, removals and additions. */
  datatype Region = Region(skipped: seq<string>, body: seq<Piece>, section: Option<string>)

  /** How a line of the new file takes part in the diff. */
  datatype Role = Unshown | Shown | Inserted

  datatype NewLine = NewLine(text: string, role: Role)

  function Unchanged(lines: seq<string>): seq<NewLine> {
    if lines == [] then [] else [NewLine(lines[0], Unshown)] + Unchanged(lines[1..])
  }

  function BodyOfNew(body: seq<Piece>): seq<NewLine> {
    if body == [] then []
    else match body[0].edit
      case Keep(text) => [NewLine(text, Shown)] + BodyOfNew(body[1..])
      case Remove(_) => BodyOfNew(body[1..])
      case Add(text) => [NewLine(text, Inserted)] + BodyOfNew(body[1..])
  }

  /** The new file, line by line. */
  function NewFile(regions: seq<Region>, tail: seq<string>): seq<NewLine> {
    if regions == [] then Unchanged(tail)
    else Unchanged(regions[0].skipped) + (BodyOfNew(regions[0].body) + NewFile(regions[1..], tail))
  }

  function Texts(lines: seq<NewLine>): seq<string> {
    if lines == [] then [] else [lines[0].text] + Texts(lines[1..])
  }

  /** The lines of the given roles with their numbers, counting from `n`. */
  function Numbered(lines: seq<NewLine>, roles: set<Role>, n: nat): seq<ChangedLine> {
    if lines == [] then []
    else (if lines[0].role in roles then [ChangedLine(n, lines[0].text)] else []) + Numbered(lines[1..], roles, n + 1)
  }

  // ----- the hunks of a unified diff -----

  /** A range starts at its first line, or at the line before it when it is empty. */
  function RangeStart(before: nat, count: nat): nat {
    if count == 0 then before else before + 1
  }

  function CountText(count: nat): Option<string> {
    if count == 1 then None else Some(Dec(count))
  }

  function UnifiedHunk(region: Region, oldBefore: nat, newBefore: nat): Hunk {
    var oldCount, newCount := OldCount(region.body), NewCount(region.body);
    Hunk(HeaderText(Dec(RangeStart(oldBefore, oldCount)), CountText(oldCount),
                    Dec(RangeStart(newBefore, newCount)), CountText(newCount), region.section), region.body)
  }

  function UnifiedHunks(regions: seq<Region>, oldBefore: nat, newBefore: nat): seq<Hunk> {
    if regions == [] then []
    else
      var oldStart, newStart := oldBefore + |regions[0].skipped|, newBefore + |regions[0].skipped|;
      [UnifiedHunk(regions[0], oldStart, newStart)] +
      UnifiedHunks(regions[1..], oldStart + OldCount(regions[0].body), newStart + NewCount(regions[0].body))
  }

  function UnifiedDiff(regions: seq<Region>): seq<string> {
    ScriptLines(UnifiedHunks(regions, 0, 0))
  }

  // ----- the diffs the reader accepts -----

  /**
   A hunk that takes no old (or new) lines must not touch a previous hunk that took some.
   `oldTaken` and `newTaken` say what the previous hunk took.
   */
  predicate SeparatedFrom(regions: seq<Region>, oldTaken: bool, newTaken: bool) {
    regions == [] ||
    (var oldCount, newCount := OldCount(regions[0].body), NewCount(regions[0].body);
     && (regions[0].skipped != [] || ((oldTaken ==> oldCount > 0) && (newTaken ==> newCount > 0)))
     && SeparatedFrom(regions[1..], oldCount > 0, newCount > 0))
  }

  predicate Printable(n: nat) {
    n < Pow10(MAX_DIGITS)
  }

  /** Every printed start and count fits the reader's twenty digits. */
  predicate PrintableFrom(regions: seq<Region>, oldBefore: nat, newBefore: nat) {
    regions == [] ||
    (var oldStart, newStart := oldBefore + |regions[0].skipped|, newBefore + |regions[0].skipped|;
     var oldCount, newCount := OldCount(regions[0].body), NewCount(regions[0].body);
     && Printable(RangeStart(oldStart, oldCount)) && Printable(oldCount)
     && Printable(RangeStart(newStart, newCount)) && Printable(newCount)
     && PrintableFrom(regions[1..], oldStart + oldCount, newStart + newCount))
  }

  predicate OneLineSections(regions: seq<Region>) {
    forall k :: 0 <= k < |regions| && regions[k].section.Some? ==> '\n' !in regions[k].section.value
  }

  // ----- headers of printed hunks -----

  lemma NumberOfDec(n: nat)
    ensures Number(Dec(n)) == if Printable(n) then Some(n) else None
  {
    ParseDec(n);
    DecLength(n, MAX_DIGITS);
  }

  lemma UnifiedHunkNumbers(region: Region, oldBefore: nat, newBefore: nat)
    ensures var hunk := UnifiedHunk(region, oldBefore, newBefore);
            var (oldCount, newCount) := (OldCount(region.body), NewCount(region.body));
            NumbersOf(hunk.header) ==
              if Printable(RangeStart(oldBefore, oldCount)) && Printable(oldCount) &&
                 Printable(RangeStart(newBefore, newCount)) && Printable(newCount)
              then Some(Header(RangeStart(oldBefore, oldCount), oldCount, RangeStart(newBefore, newCount), newCount))
              else None
  {
    hide Number, OldCount, NewCount, Dec;
    var oldCount, newCount := OldCount(region.body), NewCount(region.body);
    NumberOfDec(RangeStart(oldBefore, oldCount));
    NumberOfDec(RangeStart(newBefore, newCount));
    NumberOfDec(oldCount);
    NumberOfDec(newCount);
    OneIsPrintable();
  }

  lemma OneIsPrintable()
    ensures Printable(1)
  {
    assert Pow10(MAX_DIGITS) == 10 * Pow10(MAX_DIGITS - 1);
  }

  lemma UnifiedHunkIsProper(region: Region, oldBefore: nat, newBefore: nat)
    requires region.section.Some? ==> '\n' !in region.section.value
    ensures ProperHeader(UnifiedHunk(region, oldBefore, newBefore).header)
  {
  }

  /** A printed hunk is refused exactly when a number is too long or it comes too early. */
  lemma UnifiedHunkIsValid(region: Region, oldBefore: nat, newBefore: nat, previousOldEnd: int, previousNewEnd: int)
    requires region.section.Some? ==> '\n' !in region.section.value
    ensures var (oldCount, newCount) := (OldCount(region.body), NewCount(region.body));
            ValidHunk(UnifiedHunk(region, oldBefore, newBefore), previousOldEnd, previousNewEnd) <==>
              && Printable(RangeStart(oldBefore, oldCount)) && Printable(oldCount)
              && Printable(RangeStart(newBefore, newCount)) && Printable(newCount)
              && previousOldEnd <= RangeStart(oldBefore, oldCount) && previousNewEnd <= RangeStart(newBefore, newCount)
  {
    hide Printable, OldCount, NewCount, NumbersOf, ProperHeader;
    UnifiedHunkNumbers(region, oldBefore, newBefore);
    UnifiedHunkIsProper(region, oldBefore, newBefore);
  }

  /** Validity of the printed script, in terms a caller can read off the two files. */
  lemma {:induction false} PrintedValidity(regions: seq<Region>, oldBefore: nat, newBefore: nat,
                                           previousOldEnd: int, previousNewEnd: int, oldTaken: bool, newTaken: bool)
    requires OneLineSections(regions)
    requires if oldTaken then previousOldEnd == oldBefore + 1 else previousOldEnd <= oldBefore
    requires if newTaken then previousNewEnd == newBefore + 1 else previousNewEnd <= newBefore
    ensures ValidFrom(UnifiedHunks(regions, oldBefore, newBefore), previousOldEnd, previousNewEnd) <==>
            PrintableFrom(regions, oldBefore, newBefore) && SeparatedFrom(regions, oldTaken, newTaken)
    decreases |regions|
  {
    hide Printable, OldCount, NewCount, ValidHunk, UnifiedHunk, NumbersOf;
    if regions != [] {
      var region, rest := regions[0], regions[1..];
      var oldStart, newStart := oldBefore + |region.skipped|, newBefore + |region.skipped|;
      var oldCount, newCount := OldCount(region.body), NewCount(region.body);
      var hunks := UnifiedHunks(regions, oldBefore, newBefore);
      assert hunks[0] == UnifiedHunk(region, oldStart, newStart);
      assert hunks[1..] == UnifiedHunks(rest, oldStart + oldCount, newStart + newCount);
      UnifiedHunkIsValid(region, oldStart, newStart, previousOldEnd, previousNewEnd);
      if ValidHunk(hunks[0], previousOldEnd, previousNewEnd) {
        UnifiedHunkNumbers(region, oldStart, newStart);
        assert OldEnd(hunks[0]) == RangeStart(oldStart, oldCount) + oldCount;
        assert NewEnd(hunks[0]) == RangeStart(newStart, newCount) + newCount;
        PrintedValidity(rest, oldStart + oldCount, newStart + newCount, OldEnd(hunks[0]), NewEnd(hunks[0]),
                        oldCount > 0, newCount > 0);
      }
    }
  }
}
