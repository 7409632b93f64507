/** Changed files printed in Git's form, and what each part of the segment reader makes of the print. */
module DiffRendering {
  import opened DiffFiles
  import opened DiffMeaning
  import opened GitPathTheorems
  import opened GitPaths
  import opened Hunks
  import opened Text
  import opened Wrappers

  // ----- tagged lines -----

  datatype Tagged = Tagged(tag: Tag, text: string)

  /** How Git begins each kind of line. */
  function PrintedTag(t: Tag): string {
    match t
    case OldMode => "old mode "
    case NewMode => "new mode "
    case NewFileMode => "new file mode "
    case DeletedFileMode => "deleted file mode "
    case Similarity => "similarity index "
    case Dissimilarity => "dissimilarity index "
    case RenameFrom => "rename from "
    case RenameTo => "rename to "
    case Index => "index "
    case OldLabel => "--- "
    case NewLabel => "+++ "
    case CopyFrom => "copy from "
    case CopyTo => "copy to "
    case BinaryFiles => "Binary files "
    case HunkStart => "@@ "
    case FileStart => "diff --git "
  }

  /** The reader looks for the very beginnings that Git prints. */
  lemma TagIsPrinted(t: Tag)
    ensures TagText(t) == PrintedTag(t)
  {
  }

  function TaggedLine(x: Tagged): string {
    PrintedTag(x.tag) + x.text
  }

  function TaggedLines(xs: seq<Tagged>): (lines: seq<string>)
    ensures |lines| == |xs| && forall k :: 0 <= k < |xs| ==> lines[k] == TaggedLine(xs[k])
  {
    seq(|xs|, k requires 0 <= k < |xs| => TaggedLine(xs[k]))
  }

  /** A position at which the two tags differ. */
  function Apart(a: Tag, b: Tag): nat {
    if {a, b} == {NewMode, NewFileMode} then 4
    else if {a, b} == {RenameFrom, RenameTo} then 7
    else if {a, b} == {CopyFrom, CopyTo} then 5
    else if {a, b} == {Dissimilarity, FileStart} then 2
    else if a in {DeletedFileMode, Dissimilarity, FileStart} && b in {DeletedFileMode, Dissimilarity, FileStart} then 1
    else 0
  }

  function Head(t: Tag): char {
    match t
    case OldMode => 'o'
    case NewMode => 'n'
    case NewFileMode => 'n'
    case DeletedFileMode => 'd'
    case Similarity => 's'
    case Dissimilarity => 'd'
    case RenameFrom => 'r'
    case RenameTo => 'r'
    case Index => 'i'
    case OldLabel => '-'
    case NewLabel => '+'
    case CopyFrom => 'c'
    case CopyTo => 'c'
    case BinaryFiles => 'B'
    case HunkStart => '@'
    case FileStart => 'd'
  }

  lemma HeadIs(t: Tag)
    ensures TagText(t) != "" && TagText(t)[0] == Head(t)
  {
  }

  predicate DifferAt(a: Tag, b: Tag, k: nat) {
    k < |TagText(a)| && k < |TagText(b)| && TagText(a)[k] != TagText(b)[k]
  }

  lemma SharedHeads()
    ensures DifferAt(NewMode, NewFileMode, 4) && DifferAt(RenameFrom, RenameTo, 7) && DifferAt(CopyFrom, CopyTo, 5)
    ensures DifferAt(DeletedFileMode, Dissimilarity, 1) && DifferAt(DeletedFileMode, FileStart, 1)
    ensures DifferAt(Dissimilarity, FileStart, 2)
  {
  }

  lemma TagsDiffer(a: Tag, b: Tag)
    requires a != b
    ensures DifferAt(a, b, Apart(a, b))
  {
    hide TagText;
    HeadIs(a);
    HeadIs(b);
    SharedHeads();
  }

  /** No tag is a prefix of a line with another tag. */
  lemma OneTag(x: Tagged, t: Tag)
    ensures Is(TaggedLine(x), t) <==> x.tag == t
    ensures x.tag == t ==> Rest(TaggedLine(x), t) == x.text
  {
    hide TagText, PrintedTag;
    TagIsPrinted(x.tag);
    if x.tag != t {
      TagsDiffer(x.tag, t);
      PrefixAt(TaggedLine(x), TagText(t), Apart(x.tag, t));
    }
  }

  lemma PrefixAt(line: string, prefix: string, k: nat)
    requires k < |line| && k < |prefix| && line[k] != prefix[k]
    ensures !StartsWith(line, prefix)
  {
  }

  function Only(xs: seq<Tagged>, t: Tag): seq<Tagged> {
    if xs == [] then [] else (if xs[0].tag == t then [xs[0]] else []) + Only(xs[1..], t)
  }

  lemma {:induction false} OnlyJoin(a: seq<Tagged>, b: seq<Tagged>, t: Tag)
    ensures Only(a + b, t) == Only(a, t) + Only(b, t)
  {
    if a == [] {
      assert a + b == b;
    } else {
      OnlyJoin(a[1..], b, t);
      assert (a + b)[1..] == a[1..] + b && (a + b)[0] == a[0];
      var first := if a[0].tag == t then [a[0]] else [];
      assert first + (Only(a[1..], t) + Only(b, t)) == (first + Only(a[1..], t)) + Only(b, t);
    }
  }

  lemma {:induction false} NoneOnly(xs: seq<Tagged>, tags: set<Tag>, t: Tag)
    requires forall x :: x in xs ==> x.tag in tags
    requires t !in tags
    ensures Only(xs, t) == []
  {
    if xs != [] {
      NoneOnly(xs[1..], tags, t);
      assert xs[0] in xs;
    }
  }

  lemma {:induction false} SelectTagged(xs: seq<Tagged>, t: Tag)
    ensures Select(TaggedLines(xs), t) == TaggedLines(Only(xs, t))
  {
    hide Is, TagText, TaggedLine;
    if xs != [] {
      assert TaggedLines(xs)[1..] == TaggedLines(xs[1..]);
      SelectTagged(xs[1..], t);
      OneTag(xs[0], t);
      assert TaggedLines([xs[0]]) == [TaggedLine(xs[0])];
      assert TaggedLines([xs[0]] + Only(xs[1..], t)) == TaggedLines([xs[0]]) + TaggedLines(Only(xs[1..], t));
    }
  }

  lemma HasTagged(xs: seq<Tagged>, t: Tag)
    ensures Has(TaggedLines(xs), t) <==> exists x :: x in xs && x.tag == t
  {
    hide Is, TagText, TaggedLine;
    var j := FirstIndex(TaggedLines(xs), t, 0);
    if j < |xs| {
      OneTag(xs[j], t);
      assert xs[j] in xs;
    }
    if exists x :: x in xs && x.tag == t {
      var k :| 0 <= k < |xs| && xs[k].tag == t;
      OneTag(xs[k], t);
      assert Is(TaggedLines(xs)[k], t);
    }
  }

  // ----- a changed file and its print -----

  /** What happened to the file. */
  datatype Change =
    | Edit(path: string)
    | Create(path: string, mode: string)
    | Delete(path: string, mode: string)
    | Move(from: string, to: string)

  /** What the diff shows of the content; a script is given by the regions between both texts. */
  datatype Payload = Silent | Note(text: string) | Script(regions: seq<Region>, tail: seq<string>)

  /** `before` and `after` are further metadata around the mark of the change: modes, similarity, object names. */
  datatype GitFile = GitFile(change: Change, before: seq<Tagged>, after: seq<Tagged>, payload: Payload)

  const DETAILS: set<Tag> := {OldMode, NewMode, Similarity, Dissimilarity, Index}

  predicate WellFormed(f: GitFile) {
    && (forall x :: x in f.before ==> x.tag in DETAILS)
    && (forall x :: x in f.after ==> x.tag in DETAILS)
    && (f.payload.Script? ==> f.payload.regions != [] && OneLineSections(f.payload.regions))
  }

  function OldName(c: Change): string {
    if c.Move? then c.from else c.path
  }

  function NewName(c: Change): string {
    if c.Move? then c.to else c.path
  }

  function Marks(c: Change): seq<Tagged> {
    match c
    case Edit(_) => []
    case Create(_, mode) => [Tagged(NewFileMode, mode)]
    case Delete(_, mode) => [Tagged(DeletedFileMode, mode)]
    case Move(from, to) => [Tagged(RenameFrom, GitToken(from)), Tagged(RenameTo, GitToken(to))]
  }

  /** A content label: Git ends it with a tab when it contains a space. */
  function Label(path: string): string {
    GitToken(path) + (if ' ' in path then "\t" else "")
  }

  function OldLabelText(c: Change): string {
    if c.Create? then "/dev/null" else Label("a/" + OldName(c))
  }

  function NewLabelText(c: Change): string {
    if c.Delete? then "/dev/null" else Label("b/" + NewName(c))
  }

  function Labels(f: GitFile): seq<Tagged> {
    match f.payload
    case Silent => []
    case Note(text) => [Tagged(BinaryFiles, text)]
    case Script(_, _) => [Tagged(OldLabel, OldLabelText(f.change)), Tagged(NewLabel, NewLabelText(f.change))]
  }

  function Metadata(f: GitFile): seq<Tagged> {
    f.before + Marks(f.change) + f.after
  }

  function Preamble(f: GitFile): seq<Tagged> {
    Metadata(f) + Labels(f)
  }

  function NameTokens(c: Change): string {
    GitToken("a/" + OldName(c)) + " " + GitToken("b/" + NewName(c))
  }

  function HunkText(f: GitFile): seq<string> {
    if f.payload.Script? then UnifiedDiff(f.payload.regions) else []
  }

  function Print(f: GitFile): seq<string> {
    [TaggedLine(Tagged(FileStart, NameTokens(f.change)))] + (TaggedLines(Preamble(f)) + HunkText(f))
  }

  // ----- what the print should be read as -----

  function OldSide(c: Change): Option<string> {
    if c.Create? then None else Some(OldName(c))
  }

  function NewSide(c: Change): Option<string> {
    if c.Delete? then None else Some(NewName(c))
  }

  function ChangeOf(c: Change): ChangeKind {
    match c
    case Edit(_) => ModifiedFile
    case Create(_, _) => AddedFile
    case Delete(_, _) => DeletedFile
    case Move(_, _) => RenamedFile
  }

  function LinesWith(f: GitFile, roles: set<Role>): seq<ChangedLine> {
    if f.payload.Script? then Numbered(NewFile(f.payload.regions, f.payload.tail), roles, 1) else []
  }

  function Meaning(f: GitFile): ChangedFile {
    ChangedFile(
      OldSide(f.change), NewSide(f.change), if f.payload.Note? then BinaryFile else ChangeOf(f.change),
      LinesWith(f, {Inserted}), LinesWith(f, {Shown, Inserted}))
  }

  // ----- which prints are read -----

  predicate Trimmed(s: string, space: CharClass) {
    s == "" || (!space(s[0]) && !space(s[|s| - 1]))
  }

  /** Behind its prefix the path is trimmed, holds no NUL and no backslash, and has only normal components. */
  predicate PathFits(path: string, prefix: string, space: CharClass) {
    Trimmed(prefix + path, space) && '\0' !in path && '\\' !in path && IsNormal(path)
  }

  predicate HeaderReadable(c: Change, space: CharClass) {
    && SafeInHeader("a/" + OldName(c)) && SafeInHeader("b/" + NewName(c))
    && PathFits(OldName(c), "a/", space) && PathFits(NewName(c), "b/", space)
    && (c.Move? ==> PathFits(OldName(c), "", space) && PathFits(NewName(c), "", space))
  }

  /** A printed content label must not contain a space, for then it ends with a tab. */
  predicate LabelsReadable(c: Change) {
    (c.Create? || ' ' !in OldName(c)) && (c.Delete? || ' ' !in NewName(c))
  }

  predicate PayloadReadable(f: GitFile) {
    match f.payload
    case Silent => true
    case Note(_) => !IsRust(NewSide(f.change))
    case Script(regions, _) =>
      LabelsReadable(f.change) && PrintableFrom(regions, 0, 0) && SeparatedFrom(regions, false, false)
  }

  predicate Readable(f: GitFile, space: CharClass) {
    HeaderReadable(f.change, space) && PayloadReadable(f)
  }

  // ----- paths -----

  /** The reader accepts exactly the fitting paths. */
  lemma FitsMeansAccepted(path: string, prefix: string, space: CharClass)
    requires prefix in {"", "a/", "b/"}
    ensures RepositoryPath(prefix + path, prefix, space) == Ok(path) <==> PathFits(path, prefix, space)
    ensures !PathFits(path, prefix, space) ==> RepositoryPath(prefix + path, prefix, space).Err?
  {
    hide Components;
    var raw := prefix + path;
    assert raw[..|prefix|] == prefix && raw[|prefix|..] == path;
    assert forall c :: c in raw <==> c in prefix || c in path;
    EmptyIsNotNormal(path);
  }

  lemma EmptyIsNotNormal(path: string)
    ensures path == "" ==> !IsNormal(path)
  {
    if path == "" {
      assert "" in Components(path);
    }
  }

  lemma PrefixedPath(raw: string, prefix: string, path: string, space: CharClass)
    requires prefix in {"", "a/", "b/"} && RepositoryPath(raw, prefix, space) == Ok(path)
    ensures raw == prefix + path && PathFits(path, prefix, space)
  {
    hide PathFits, IsNormal;
    assert raw == raw[..|prefix|] + raw[|prefix|..];
    FitsMeansAccepted(path, prefix, space);
  }

  lemma FittingPath(path: string, prefix: string, space: CharClass)
    requires prefix in {"", "a/", "b/"} && PathFits(path, prefix, space)
    ensures RepositoryPath(prefix + path, prefix, space) == Ok(path)
  {
    hide PathFits, RepositoryPath;
    FitsMeansAccepted(path, prefix, space);
  }

  lemma NamesAreRead(c: Change, space: CharClass)
    ensures HeaderNames(TaggedLine(Tagged(FileStart, NameTokens(c))), space) == Ok(Names(OldName(c), NewName(c))) <==>
            SafeInHeader("a/" + OldName(c)) && SafeInHeader("b/" + NewName(c)) &&
            PathFits(OldName(c), "a/", space) && PathFits(NewName(c), "b/", space)
  {
    hide RepositoryPath, SplitHeader, GitToken, TagText, SafeInHeader, TaggedLine;
    var x := Tagged(FileStart, NameTokens(c));
    OneTag(x, FileStart);
    var a, b := "a/" + OldName(c), "b/" + NewName(c);
    GitPathTheorems.HeaderRoundTrip(a, b);
    if PathFits(OldName(c), "a/", space) && PathFits(NewName(c), "b/", space) {
      FittingPath(OldName(c), "a/", space);
      FittingPath(NewName(c), "b/", space);
    }
    if HeaderNames(TaggedLine(x), space) == Ok(Names(OldName(c), NewName(c))) {
      var (oldRaw, newRaw) := SplitHeader(NameTokens(c)).value;
      PrefixedPath(oldRaw, "a/", OldName(c), space);
      PrefixedPath(newRaw, "b/", NewName(c), space);
    }
  }

  /** A label that ends with a tab is refused, quoted or not. */
  lemma TabbedLabelIsRefused(token: string)
    ensures DecodePath(token + "\t").Err?
  {
    var value := token + "\t";
    assert value[|value| - 1] == '\t';
  }

  lemma LabelIsDecoded(path: string)
    ensures ' ' in path ==> Decoded(Label(path)).Err?
    ensures ' ' !in path ==> Decoded(Label(path)) == Ok(path)
  {
    hide DecodePath, GitToken;
    if ' ' in path {
      TabbedLabelIsRefused(GitToken(path));
    } else {
      assert GitToken(path) + "" == GitToken(path);
      GitTokenDecodes(path);
    }
  }

  lemma LabelPathIs(path: string, t: Tag, prefix: string, space: CharClass)
    requires prefix in {"a/", "b/"} && PathFits(path, prefix, space)
    ensures Is(TaggedLine(Tagged(t, Label(prefix + path))), t)
    ensures ' ' in path ==> LabelPath(TaggedLine(Tagged(t, Label(prefix + path))), t, prefix, space).Err?
    ensures ' ' !in path ==> LabelPath(TaggedLine(Tagged(t, Label(prefix + path))), t, prefix, space) == Ok(Some(path))
  {
    hide Decoded, Label, RepositoryPath, TagText, TaggedLine;
    OneTag(Tagged(t, Label(prefix + path)), t);
    LabelIsDecoded(prefix + path);
    FittingPath(path, prefix, space);
    assert (prefix + path)[0] != DEV_NULL[0];
    assert ' ' in prefix + path <==> ' ' in path;
  }

  lemma DevNullLabel(t: Tag, prefix: string, space: CharClass)
    ensures Is(TaggedLine(Tagged(t, DEV_NULL)), t) && LabelPath(TaggedLine(Tagged(t, DEV_NULL)), t, prefix, space) == Ok(None)
  {
    hide TagText, TaggedLine;
    OneTag(Tagged(t, DEV_NULL), t);
  }

  lemma RenamePathIs(path: string, t: Tag, space: CharClass)
    ensures Is(TaggedLine(Tagged(t, GitToken(path))), t)
    ensures PathFits(path, "", space) ==> RenamePath(TaggedLine(Tagged(t, GitToken(path))), t, space) == Ok(path)
    ensures !PathFits(path, "", space) ==> RenamePath(TaggedLine(Tagged(t, GitToken(path))), t, space).Err?
  {
    hide DecodePath, GitToken, RepositoryPath, TagText, TaggedLine;
    OneTag(Tagged(t, GitToken(path)), t);
    GitTokenDecodes(path);
    assert "" + path == path;
    FitsMeansAccepted(path, "", space);
  }
}
