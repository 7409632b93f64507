/**
 A whole Git diff: split at its file headers, and each file's segment read as paths, metadata and hunks that
 must all agree with one another.
 */
module DiffFiles {
  import opened CriticalPolicy
  import opened GitPaths
  import opened Hunks
  import opened Text
  import opened Wrappers

  datatype FileError =
    | MissingHeader
    | BadPath(error: PathError)
    | NotRepositoryPath(path: string)
    | UnpairedLabels
    | LabelsApart
    | LabelDisagrees
    | IncompleteRename
    | RenameDisagrees
    | CopyUnsupported
    | CreatedAndDeleted
    | NotDevNull
    | TwoNames
    | SilentRename
    | BinaryRust
    | HunksWithoutLabels
    | UnsupportedMetadata
    | BadHunk(hunk: HunkError)
    | NulByte
    | NotGitDiff
    | LeadingContent
    | NoPath
    | DuplicateTarget(path: string)

  // ----- lines by what they start with -----

  datatype Tag =
    | OldMode | NewMode | NewFileMode | DeletedFileMode | Similarity | Dissimilarity | RenameFrom | RenameTo | Index
    | OldLabel | NewLabel | CopyFrom | CopyTo | BinaryFiles | HunkStart | FileStart

  function TagText(t: Tag): string {
    match t
    case OldMode => "old mode "
    case NewMode => "new mode "
    case NewFileMode => "new file mode "
    case DeletedFileMode => "deleted file mode "
    case Similarity => "similarity index "
    case Dissimilarity => "dissimilarity index "
    case RenameFrom => "rename from "
    case RenameTo => "rename to "
    case Index => "index "
    case OldLabel => "--- "
    case NewLabel => "+++ "
    case CopyFrom => "copy from "
    case CopyTo => "copy to "
    case BinaryFiles => "Binary files "
    case HunkStart => "@@ "
    case FileStart => "diff --git "
  }

  const BINARY_PATCH := "GIT binary patch"

  predicate Is(line: string, t: Tag) {
    StartsWith(line, TagText(t))
  }

  /** What follows the tag. */
  function Rest(line: string, t: Tag): string
    requires Is(line, t)
  {
    line[|TagText(t)|..]
  }

  /** The lines with one tag. */
  function Select(lines: seq<string>, t: Tag): (selected: seq<string>)
    ensures forall line :: line in selected ==> Is(line, t) && line in lines
  {
    if lines == [] then []
    else (if Is(lines[0], t) then [lines[0]] else []) + Select(lines[1..], t)
  }

  /** The index of the first line with the tag from `i` on, or the number of lines. */
  function FirstIndex(lines: seq<string>, t: Tag, i: nat): (j: nat)
    requires i <= |lines|
    ensures i <= j <= |lines|
    ensures j < |lines| ==> Is(lines[j], t)
    ensures forall k :: i <= k < j ==> !Is(lines[k], t)
    decreases |lines| - i
  {
    if i == |lines| || Is(lines[i], t) then i else FirstIndex(lines, t, i + 1)
  }

  predicate Has(lines: seq<string>, t: Tag) {
    FirstIndex(lines, t, 0) < |lines|
  }

  // ----- repository paths -----

  function Components(path: string): (parts: seq<string>)
    ensures parts != []
    decreases |path|
  {
    var end := IndexOrEnd(path, 0, '/');
    if end == |path| then [path] else [path[..end]] + Components(path[end + 1..])
  }

  /** Relative, and written the one way that names each directory once. */
  predicate IsNormal(path: string) {
    forall part :: part in Components(path) ==> part !in {"", ".", ".."}
  }

  function RepositoryPath(raw: string, prefix: string, space: CharClass): Result<string, FileError> {
    if raw == "" || space(raw[0]) || space(raw[|raw| - 1]) || '\0' in raw || '\\' in raw then Err(NotRepositoryPath(raw))
    else if !StartsWith(raw, prefix) || !IsNormal(raw[|prefix|..]) then Err(NotRepositoryPath(raw))
    else Ok(raw[|prefix|..])
  }

  function Decoded(value: string): Result<string, FileError> {
    match DecodePath(value)
    case Ok(path) => Ok(path)
    case Err(error) => Err(BadPath(error))
  }

  const DEV_NULL := "/dev/null"

  /** A content label; nothing for the null device. */
  function LabelPath(line: string, t: Tag, prefix: string, space: CharClass): Result<Option<string>, FileError>
    requires Is(line, t)
  {
    var value :- Decoded(Rest(line, t));
    if value == DEV_NULL then Ok(None)
    else
      var path :- RepositoryPath(value, prefix, space);
      Ok(Some(path))
  }

  function RenamePath(line: string, t: Tag, space: CharClass): Result<string, FileError>
    requires Is(line, t)
  {
    var value :- Decoded(Rest(line, t));
    RepositoryPath(value, "", space)
  }

  // ----- one file -----

  datatype Names = Names(oldName: string, newName: string)

  function HeaderNames(line: string, space: CharClass): Result<Names, FileError>
    requires Is(line, FileStart)
  {
    match SplitHeader(Rest(line, FileStart))
    case Err(error) => Err(BadPath(error))
    case Ok((oldRaw, newRaw)) =>
      var oldName :- RepositoryPath(oldRaw, "a/", space);
      var newName :- RepositoryPath(newRaw, "b/", space);
      Ok(Names(oldName, newName))
  }

  /** The paths a segment settles on; nothing stands for a file that is not there. */
  datatype Sides = Sides(labelled: bool, oldPath: Option<string>, newPath: Option<string>)

  function LabelSides(preamble: seq<string>, names: Names, space: CharClass): Result<Sides, FileError> {
    var olds, news := Select(preamble, OldLabel), Select(preamble, NewLabel);
    var _ :- Need(|olds| == |news| && |olds| <= 1, UnpairedLabels);
    if olds == [] then Ok(Sides(false, Some(names.oldName), Some(names.newName)))
    else
      var oldPath :- LabelPath(olds[0], OldLabel, "a/", space);
      var newPath :- LabelPath(news[0], NewLabel, "b/", space);
      var _ :- Need(FirstIndex(preamble, NewLabel, 0) == FirstIndex(preamble, OldLabel, 0) + 1, LabelsApart);
      var _ :- Need(oldPath in {None, Some(names.oldName)} && newPath in {None, Some(names.newName)}, LabelDisagrees);
      Ok(Sides(true, oldPath, newPath))
  }

  /** Whether the metadata declares a rename, which must then say what the header says. */
  function Rename(preamble: seq<string>, names: Names, sides: Sides, space: CharClass): Result<bool, FileError> {
    var froms, tos := Select(preamble, RenameFrom), Select(preamble, RenameTo);
    var _ :- Need(|froms| == |tos| && |froms| <= 1, IncompleteRename);
    if froms == [] then Ok(false)
    else
      var from :- RenamePath(froms[0], RenameFrom, space);
      var to :- RenamePath(tos[0], RenameTo, space);
      var _ :- Need(Names(from, to) == names, RenameDisagrees);
      var _ :- Need(sides.oldPath == Some(from) && sides.newPath == Some(to), RenameDisagrees);
      Ok(true)
  }

  /** The paths after the created and deleted marks had their say. */
  function FinalSides(preamble: seq<string>, names: Names, sides: Sides, renamed: bool): Result<Sides, FileError> {
    var created, deleted := Has(preamble, NewFileMode), Has(preamble, DeletedFileMode);
    var _ :- Need(!(created && deleted), CreatedAndDeleted);
    var _ :- Need(!(created && sides.labelled && sides.oldPath.Some?), NotDevNull);
    var _ :- Need(!(deleted && sides.labelled && sides.newPath.Some?), NotDevNull);
    var _ :- Need(!((created || deleted) && names.oldName != names.newName), TwoNames);
    var _ :- Need(created || deleted || renamed || names.oldName == names.newName, SilentRename);
    Ok(Sides(sides.labelled,
             if created && !sides.labelled then None else sides.oldPath,
             if deleted && !sides.labelled then None else sides.newPath))
  }

  const PLAIN_TAGS: set<Tag> :=
    {OldMode, NewMode, NewFileMode, DeletedFileMode, Similarity, Dissimilarity, RenameFrom, RenameTo, Index}

  predicate Supported(line: string, tags: set<Tag>) {
    exists t :: t in tags && Is(line, t)
  }

  predicate IsRust(path: Option<string>) {
    path.Some? && EndsWith(path.value, ".rs")
  }

  predicate IsBinaryMark(line: string) {
    line == BINARY_PATCH || Is(line, BinaryFiles)
  }

  function KindOf(preamble: seq<string>, sides: Sides, renamed: bool): ChangeKind {
    if sides.newPath.None? then DeletedFile
    else if sides.oldPath.None? || Has(preamble, NewFileMode) then AddedFile
    else if renamed then RenamedFile
    else ModifiedFile
  }

  /** The added and bound lines of the hunks, if the segment has any. */
  function Content(lines: seq<string>, first: nat, labelled: bool): Result<(seq<ChangedLine>, seq<ChangedLine>), FileError>
    requires 1 <= first <= |lines|
  {
    var preamble := lines[1..first];
    if first < |lines| then
      var _ :- Need(labelled, HunksWithoutLabels);
      var _ :- Need(forall line :: line in preamble ==> Supported(line, PLAIN_TAGS + {OldLabel, NewLabel}), UnsupportedMetadata);
      match Parse(lines[first..])
      case Err(error) => Err(BadHunk(error))
      case Ok(parsed) => Ok(parsed)
    else
      var _ :- Need(forall line :: line in preamble ==> Supported(line, PLAIN_TAGS), UnsupportedMetadata);
      Ok(([], []))
  }

  lemma HeaderIsNoHunk(lines: seq<string>)
    requires lines != [] && Is(lines[0], FileStart)
    ensures FirstIndex(lines, HunkStart, 0) >= 1
  {
    assert lines[0][0] == TagText(FileStart)[0] != TagText(HunkStart)[0];
  }

  /** The lines of one file after its header line gave these names. */
  function Named(lines: seq<string>, names: Names, space: CharClass): Result<ChangedFile, FileError>
    requires lines != [] && Is(lines[0], FileStart)
  {
    var first := FirstIndex(lines, HunkStart, 0);
    HeaderIsNoHunk(lines);
    var preamble := lines[1..first];
    var labels :- LabelSides(preamble, names, space);
    var renamed :- Rename(preamble, names, labels, space);
    var _ :- Need(!Has(preamble, CopyFrom) && !Has(preamble, CopyTo), CopyUnsupported);
    var sides :- FinalSides(preamble, names, labels, renamed);
    if exists line :: line in preamble && IsBinaryMark(line) then
      var _ :- Need(!IsRust(sides.newPath), BinaryRust);
      Ok(ChangedFile(sides.oldPath, sides.newPath, BinaryFile, [], []))
    else
      var (added, bound) :- Content(lines, first, sides.labelled);
      Ok(ChangedFile(sides.oldPath, sides.newPath, KindOf(preamble, sides, renamed), added, bound))
  }

  /** One file's lines, from its header to the next one. */
  function Segment(lines: seq<string>, space: CharClass): Result<ChangedFile, FileError> {
    if lines == [] || !Is(lines[0], FileStart) then Err(MissingHeader)
    else
      var names :- HeaderNames(lines[0], space);
      Named(lines, names, space)
  }

  // ----- all files -----

  type Files = Result<seq<ChangedFile>, FileError>

  function Cons(file: ChangedFile, r: Files): Files {
    match r
    case Ok(files) => Ok([file] + files)
    case Err(_) => r
  }

  /** The files of a text that starts with a file header. */
  function Segments(lines: seq<string>, space: CharClass): Files
    decreases |lines|
  {
    if lines == [] then Ok([])
    else
      var end := FirstIndex(lines, FileStart, 1);
      var file :- Segment(lines[..end], space);
      Cons(file, Segments(lines[end..], space))
  }

  function Target(file: ChangedFile): Option<string> {
    if file.newPath.Some? && file.newPath.value != "" then file.newPath else file.oldPath
  }

  /** The first file whose target was seen before. */
  function Repeated(files: seq<ChangedFile>, seen: set<string>, platform: Platform): Option<FileError> {
    if files == [] then None
    else match Target(files[0])
      case None => Some(NoPath)
      case Some(path) =>
        if PathKey(path, platform) in seen then Some(DuplicateTarget(path))
        else Repeated(files[1..], seen + {PathKey(path, platform)}, platform)
  }

  function Distinct(r: Files, platform: Platform): Files {
    var files :- r;
    match Repeated(files, {}, platform)
    case Some(error) => Err(error)
    case None => r
  }

  predicate ForeignStart(line: string) {
    Is(line, OldLabel) || Is(line, HunkStart) || StartsWith(line, "Index: ")
  }

  function Diff(lines: seq<string>, space: CharClass, platform: Platform): Files {
    if exists line :: line in lines && '\0' in line then Err(NulByte)
    else if lines == [] then Ok([])
    else if ForeignStart(lines[0]) then Err(NotGitDiff)
    else if !Is(lines[0], FileStart) then Err(LeadingContent)
    else Distinct(Segments(lines, space), platform)
  }

  /** The indices of all file headers among the first `upto` lines, in order. */
  ghost predicate AreStarts(lines: seq<string>, starts: seq<nat>, upto: nat)
    requires upto <= |lines|
  {
    && (forall i :: 0 <= i < |starts| ==> starts[i] < upto && Is(lines[starts[i]], FileStart))
    && (forall i, j :: 0 <= i < j < |starts| ==> starts[i] < starts[j])
    && (forall k :: 0 <= k < upto && Is(lines[k], FileStart) ==> k in starts)
  }

  method FindStarts(lines: seq<string>) returns (starts: seq<nat>)
    ensures AreStarts(lines, starts, |lines|)
  {
    hide Is;
    starts := [];
    for index := 0 to |lines|
      invariant AreStarts(lines, starts, index)
    {
      if Is(lines[index], FileStart) {
        starts := starts + [index];
      }
    }
  }

  lemma SegmentEnd(lines: seq<string>, starts: seq<nat>, i: nat)
    requires AreStarts(lines, starts, |lines|) && i < |starts|
    ensures starts[i] + FirstIndex(lines[starts[i]..], FileStart, 1) == if i + 1 < |starts| then starts[i + 1] else |lines|
  {
    hide Is;
    var rest := lines[starts[i]..];
    var end := FirstIndex(rest, FileStart, 1);
    if end < |rest| {
      assert Is(lines[starts[i] + end], FileStart);
      var j :| 0 <= j < |starts| && starts[j] == starts[i] + end;
      assert i < j;
    }
    if i + 1 < |starts| {
      assert starts[i] < starts[i + 1] && Is(rest[starts[i + 1] - starts[i]], FileStart);
    }
  }

  /** One turn of the loop: the file that starts at `start` and those after it. */
  lemma SegmentsTurn(lines: seq<string>, starts: seq<nat>, i: nat, end: nat, space: CharClass)
    requires AreStarts(lines, starts, |lines|) && i < |starts|
    requires end == if i + 1 < |starts| then starts[i + 1] else |lines|
    ensures starts[i] < end <= |lines|
    ensures var file := Segment(lines[starts[i]..end], space);
            Segments(lines[starts[i]..], space) == if file.Err? then Err(file.error) else Cons(file.value, Segments(lines[end..], space))
  {
    hide Segment, Is;
    SegmentEnd(lines, starts, i);
    var rest := lines[starts[i]..];
    assert rest[..end - starts[i]] == lines[starts[i]..end] && rest[end - starts[i]..] == lines[end..];
  }

  method ParseSegments(lines: seq<string>, starts: seq<nat>, space: CharClass) returns (r: Files)
    requires AreStarts(lines, starts, |lines|) && starts != [] && starts[0] == 0
    ensures r == Segments(lines, space)
  {
    hide Segment, Segments, Cons, AreStarts;
    var files: seq<ChangedFile> := [];
    ghost var whole := Segments(lines, space);
    assert lines[starts[0]..] == lines;
    assert whole.Ok? ==> [] + whole.value == whole.value;
    ghost var at := 0;
    for i := 0 to |starts|
      invariant at == if i < |starts| then starts[i] else |lines|
      invariant at <= |lines| && whole == Joined(files, Segments(lines[at..], space))
    {
      var end := if i + 1 < |starts| then starts[i + 1] else |lines|;
      SegmentsTurn(lines, starts, i, end, space);
      var file := Segment(lines[starts[i]..end], space);
      if file.Err? { return Err(file.error); }
      JoinedStep(files, file.value, Segments(lines[end..], space));
      files := files + [file.value];
      at := end;
    }
    NoSegments(lines, space);
    assert files + [] == files;
    r := Ok(files);
  }

  lemma NoSegments(lines: seq<string>, space: CharClass)
    ensures Segments(lines[|lines|..], space) == Ok([])
  {
  }

  function Joined(front: seq<ChangedFile>, r: Files): Files {
    match r
    case Ok(rest) => Ok(front + rest)
    case Err(_) => r
  }

  lemma JoinedStep(front: seq<ChangedFile>, file: ChangedFile, r: Files)
    ensures Joined(front, Cons(file, r)) == Joined(front + [file], r)
  {
    if r.Ok? {
      assert front + ([file] + r.value) == (front + [file]) + r.value;
    }
  }

  method CheckTargets(files: seq<ChangedFile>, platform: Platform) returns (error: Option<FileError>)
    ensures error == Repeated(files, {}, platform)
  {
    hide PathKey;
    var seen: set<string> := {};
    assert files[0..] == files;
    for i := 0 to |files|
      invariant Repeated(files, {}, platform) == Repeated(files[i..], seen, platform)
    {
      ghost var rest := files[i..];
      assert rest[1..] == files[i + 1..];
      var identity := Target(files[i]);
      if identity.None? { return Some(NoPath); }
      var key := PathKey(identity.value, platform);
      if key in seen { return Some(DuplicateTarget(identity.value)); }
      seen := seen + {key};
    }
    error := None;
  }

  method ParseUnifiedDiff(lines: seq<string>, space: CharClass, platform: Platform) returns (r: Files)
    ensures r == Diff(lines, space, platform)
  {
    hide Segments, Repeated, ForeignStart, Is;
    if exists line :: line in lines && '\0' in line { return Err(NulByte); }
    if lines == [] { return Ok([]); }
    if ForeignStart(lines[0]) { return Err(NotGitDiff); }
    var starts := FindStarts(lines);
    assert Is(lines[0], FileStart) ==> 0 in starts;
    if starts == [] || starts[0] != 0 { return Err(LeadingContent); }
    var files := ParseSegments(lines, starts, space);
    if files.Err? { return Err(files.error); }
    var error := CheckTargets(files.value, platform);
    r := if error.Some? then Err(error.value) else files;
  }
}
