/**
 Which diffs are accepted at all, and as what: every condition on the lines of a file's segment spelled out, and the
 reader proved to accept exactly the segments that meet them.
 */
module DiffAcceptance {
  import opened CriticalPolicy
  import opened DiffFiles
  import opened DiffFileTheorems
  import opened DiffRendering
  import opened GitPaths
  import opened Hunks
  import opened QuotedPaths
  import opened Text
  import opened Wrappers

  // ----- lines by their beginnings -----

  predicate Begins(line: string, tag: string) {
    |tag| <= |line| && line[..|tag|] == tag
  }

  predicate NoneBegins(lines: seq<string>, tag: string) {
    forall k :: 0 <= k < |lines| ==> !Begins(lines[k], tag)
  }

  /** The `k`-th line begins so, and no other line does. */
  predicate OnlyAt(lines: seq<string>, k: nat, tag: string) {
    k < |lines| && Begins(lines[k], tag) && forall j :: 0 <= j < |lines| && j != k ==> !Begins(lines[j], tag)
  }

  lemma IsMeansBegins(line: string, t: Tag)
    ensures Is(line, t) <==> Begins(line, PrintedTag(t))
    ensures Is(line, t) ==> Rest(line, t) == line[|PrintedTag(t)|..]
  {
    hide TagText, PrintedTag;
    TagIsPrinted(t);
  }

  lemma {:induction false} NoneSelected(lines: seq<string>, t: Tag)
    ensures Select(lines, t) == [] <==> NoneBegins(lines, PrintedTag(t))
  {
    hide Is, Begins;
    if lines != [] {
      NoneSelected(lines[1..], t);
      IsMeansBegins(lines[0], t);
      assert forall k :: 0 < k < |lines| ==> lines[k] == lines[1..][k - 1];
    }
  }

  lemma {:induction false} OneSelected(lines: seq<string>, t: Tag)
    ensures |Select(lines, t)| == 1 <==> exists k: nat :: OnlyAt(lines, k, PrintedTag(t))
    decreases |lines|
  {
    hide Is, Begins, OnlyAt;
    if lines != [] {
      OneSelected(lines[1..], t);
      NoneSelected(lines[1..], t);
      IsMeansBegins(lines[0], t);
      OnlyShifts(lines, PrintedTag(t));
    } else {
      NothingOnly(PrintedTag(t));
    }
  }

  lemma NothingOnly(tag: string)
    ensures forall k: nat :: !OnlyAt([], k, tag)
  {
  }

  lemma OnlyShifts(lines: seq<string>, tag: string)
    requires lines != []
    ensures (exists k: nat :: OnlyAt(lines, k, tag)) <==>
            if Begins(lines[0], tag) then NoneBegins(lines[1..], tag) else exists k: nat :: OnlyAt(lines[1..], k, tag)
  {
    hide Begins;
    var rest := lines[1..];
    if k: nat :| OnlyAt(lines, k, tag) {
      if k > 0 {
        OnlyLater(lines, k - 1, tag);
      } else {
        forall j | 0 <= j < |rest|
          ensures !Begins(rest[j], tag)
        {
          assert rest[j] == lines[j + 1];
        }
      }
    }
    if Begins(lines[0], tag) && NoneBegins(rest, tag) {
      forall j | 0 < j < |lines|
        ensures !Begins(lines[j], tag)
      {
        assert lines[j] == rest[j - 1];
      }
      assert OnlyAt(lines, 0, tag);
    }
    if !Begins(lines[0], tag) {
      if k: nat :| OnlyAt(rest, k, tag) {
        OnlyLater(lines, k, tag);
      }
    }
  }

  lemma OnlyLater(lines: seq<string>, k: nat, tag: string)
    requires lines != []
    ensures OnlyAt(lines, k + 1, tag) <==> !Begins(lines[0], tag) && OnlyAt(lines[1..], k, tag)
  {
    hide Begins;
    var rest := lines[1..];
    if OnlyAt(lines, k + 1, tag) {
      forall j | 0 <= j < |rest| && j != k
        ensures !Begins(rest[j], tag)
      {
        assert rest[j] == lines[j + 1];
      }
    }
    if !Begins(lines[0], tag) && OnlyAt(rest, k, tag) {
      forall j | 0 <= j < |lines| && j != k + 1
        ensures !Begins(lines[j], tag)
      {
        assert j > 0 ==> lines[j] == rest[j - 1];
      }
    }
  }

  lemma {:induction false} SelectedIs(lines: seq<string>, t: Tag, k: nat)
    requires OnlyAt(lines, k, PrintedTag(t))
    ensures Select(lines, t) == [lines[k]] && FirstIndex(lines, t, 0) == k && Is(lines[k], t)
    decreases |lines|
  {
    hide Is, Begins;
    IsMeansBegins(lines[0], t);
    IsMeansBegins(lines[k], t);
    if k == 0 {
      var rest := lines[1..];
      forall j | 0 <= j < |rest|
        ensures !Begins(rest[j], PrintedTag(t))
      {
        assert rest[j] == lines[j + 1];
      }
      NoneSelected(rest, t);
    } else {
      OnlyLater(lines, k - 1, PrintedTag(t));
      SelectedIs(lines[1..], t, k - 1);
    }
    var first := FirstIndex(lines, t, 0);
    if first < |lines| {
      IsMeansBegins(lines[first], t);
    }
  }

  lemma HasMeansBegins(lines: seq<string>, t: Tag)
    ensures Has(lines, t) <==> !NoneBegins(lines, PrintedTag(t))
  {
    hide Is, Begins;
    forall k | 0 <= k < |lines|
      ensures Is(lines[k], t) <==> Begins(lines[k], PrintedTag(t))
    {
      IsMeansBegins(lines[k], t);
    }
  }

  // ----- paths -----

  /** What stands between two slashes, or a slash and an end. */
  predicate IsComponent(path: string, i: nat, j: nat) {
    i <= j <= |path| && (i == 0 || path[i - 1] == '/') && (j == |path| || path[j] == '/') && '/' !in path[i..j]
  }

  /** The components of a path are neither empty nor dots. */
  predicate IsPlainPath(path: string) {
    forall i: nat, j: nat :: i <= j <= |path| && IsComponent(path, i, j) ==> path[i..j] !in {"", ".", ".."}
  }

  ghost predicate HasComponent(path: string, part: string) {
    exists i: nat, j: nat :: i <= j <= |path| && IsComponent(path, i, j) && path[i..j] == part
  }

  lemma SlashInside(path: string, i: nat, j: nat, k: nat)
    requires i <= k < j <= |path| && path[k] == '/'
    ensures !IsComponent(path, i, j)
  {
    assert path[i..j][k - i] == '/';
  }

  /** The component at the front, and those behind it. */
  lemma ComponentsSplit(path: string, end: nat, part: string)
    requires end == IndexOrEnd(path, 0, '/') < |path|
    ensures HasComponent(path, part) <==> part == path[..end] || HasComponent(path[end + 1..], part)
  {
    hide HasComponent, IndexOrEnd;
    if HasComponent(path, part) {
      ComponentIsThere(path, end, part);
    }
    if part == path[..end] {
      FirstComponent(path, end);
      IsAComponent(path, 0, end, part);
    }
    if HasComponent(path[end + 1..], part) {
      LaterIsThere(path, end, part);
    }
  }

  lemma IsAComponent(path: string, i: nat, j: nat, part: string)
    requires i <= j <= |path| && IsComponent(path, i, j) && path[i..j] == part
    ensures HasComponent(path, part)
  {
  }

  lemma ComponentIsThere(path: string, end: nat, part: string)
    requires end == IndexOrEnd(path, 0, '/') < |path| && HasComponent(path, part)
    ensures part == path[..end] || HasComponent(path[end + 1..], part)
  {
    hide IsComponent, IndexOrEnd;
    var i: nat, j: nat :| i <= j <= |path| && IsComponent(path, i, j) && path[i..j] == part;
    if i <= end {
      FrontComponent(path, i, j, end);
      FirstComponent(path, end);
    } else {
      LaterComponent(path, end, i - end - 1, j - end - 1);
      IsAComponent(path[end + 1..], i - end - 1, j - end - 1, part);
    }
  }

  lemma LaterIsThere(path: string, end: nat, part: string)
    requires end == IndexOrEnd(path, 0, '/') < |path| && HasComponent(path[end + 1..], part)
    ensures HasComponent(path, part)
  {
    hide IsComponent, IndexOrEnd;
    var rest := path[end + 1..];
    var i: nat, j: nat :| i <= j <= |rest| && IsComponent(rest, i, j) && rest[i..j] == part;
    LaterComponent(path, end, i, j);
    IsAComponent(path, end + 1 + i, end + 1 + j, part);
  }

  lemma FirstComponent(path: string, end: nat)
    requires end == IndexOrEnd(path, 0, '/')
    ensures IsComponent(path, 0, end) && path[0..end] == path[..end]
  {
  }

  lemma FrontComponent(path: string, i: nat, j: nat, end: nat)
    requires end == IndexOrEnd(path, 0, '/') < |path| && i <= end && IsComponent(path, i, j)
    ensures i == 0 && j == end
  {
    if j > end {
      SlashInside(path, i, j, end);
    }
  }

  lemma LaterComponent(path: string, end: nat, i: nat, j: nat)
    requires end < |path| && path[end] == '/'
    ensures IsComponent(path, end + 1 + i, end + 1 + j) <==> IsComponent(path[end + 1..], i, j)
    ensures i <= j <= |path| - end - 1 ==> path[end + 1 + i..end + 1 + j] == path[end + 1..][i..j]
  {
    var rest := path[end + 1..];
    if i <= j <= |rest| {
      assert path[end + 1 + i..end + 1 + j] == rest[i..j];
    }
  }

  lemma {:induction false} ComponentsAre(path: string, part: string)
    ensures part in Components(path) <==> HasComponent(path, part)
    decreases |path|
  {
    hide HasComponent;
    var end := IndexOrEnd(path, 0, '/');
    if end < |path| {
      ComponentsAre(path[end + 1..], part);
      ComponentsSplit(path, end, part);
    } else {
      OnlyComponent(path, part);
    }
  }

  lemma OnlyComponent(path: string, part: string)
    requires IndexOrEnd(path, 0, '/') == |path|
    ensures HasComponent(path, part) <==> part == path
  {
    hide IsComponent;
    FirstComponent(path, |path|);
    assert path[..|path|] == path;
    forall i: nat, j: nat | i <= j <= |path| && IsComponent(path, i, j)
      ensures i == 0 && j == |path|
    {
      WholeComponent(path, i, j);
    }
  }

  lemma WholeComponent(path: string, i: nat, j: nat)
    requires IndexOrEnd(path, 0, '/') == |path| && IsComponent(path, i, j)
    ensures i == 0 && j == |path|
  {
  }

  lemma NormalIsPlain(path: string)
    ensures IsNormal(path) <==> IsPlainPath(path)
  {
    hide Components, IsComponent;
    if IsNormal(path) {
      forall i: nat, j: nat | i <= j <= |path| && IsComponent(path, i, j)
        ensures path[i..j] !in {"", ".", ".."}
      {
        ComponentsAre(path, path[i..j]);
      }
    }
    if IsPlainPath(path) {
      forall part | part in Components(path)
        ensures part !in {"", ".", ".."}
      {
        ComponentsAre(path, part);
        var i: nat, j: nat :| i <= j <= |path| && IsComponent(path, i, j) && path[i..j] == part;
      }
    }
  }

  /** Behind its prefix the path is trimmed, without NUL and backslash, and plain. */
  predicate IsPathIn(path: string, prefix: string, space: CharClass) {
    var raw := prefix + path;
    && raw != "" && !space(raw[0]) && !space(raw[|raw| - 1]) && '\0' !in path && '\\' !in path && IsPlainPath(path)
  }

  lemma PathIsAccepted(raw: string, prefix: string, path: string, space: CharClass)
    requires prefix in {"", "a/", "b/"}
    ensures RepositoryPath(raw, prefix, space) == Ok(path) <==> raw == prefix + path && IsPathIn(path, prefix, space)
  {
    hide IsPlainPath, IsNormal, RepositoryPath;
    NormalIsPlain(path);
    EmptyIsNotNormal(path);
    if raw == prefix + path {
      FitsMeansAccepted(path, prefix, space);
    }
    if RepositoryPath(raw, prefix, space) == Ok(path) {
      PrefixedPath(raw, prefix, path, space);
    }
  }

  // ----- what a segment says -----

  /** The header line names both paths. */
  ghost predicate HeaderSays(line: string, names: Names, space: CharClass) {
    && Begins(line, "diff --git ")
    && (exists x, y :: SplitsInto(line[|"diff --git "|..], [x, y]) && Denotes(x, "a/" + names.oldName) && Denotes(y, "b/" + names.newName))
    && IsPathIn(names.oldName, "a/", space) && IsPathIn(names.newName, "b/", space)
  }

  /** A content label says the null device, or the path behind its prefix. */
  ghost predicate LabelSays(line: string, tag: string, prefix: string, name: string, side: Option<string>, space: CharClass) {
    Begins(line, tag) &&
    if side.None? then Denotes(line[|tag|..], "/dev/null")
    else side == Some(name) && Denotes(line[|tag|..], prefix + name) && IsPathIn(name, prefix, space)
  }

  ghost predicate LabelsSay(preamble: seq<string>, names: Names, sides: Sides, space: CharClass) {
    if sides.labelled then
      exists k: nat ::
        && OnlyAt(preamble, k, "--- ") && OnlyAt(preamble, k + 1, "+++ ")
        && LabelSays(preamble[k], "--- ", "a/", names.oldName, sides.oldPath, space)
        && LabelSays(preamble[k + 1], "+++ ", "b/", names.newName, sides.newPath, space)
    else
      && NoneBegins(preamble, "--- ") && NoneBegins(preamble, "+++ ")
      && sides.oldPath == Some(names.oldName) && sides.newPath == Some(names.newName)
  }

  ghost predicate RenameLine(preamble: seq<string>, tag: string, name: string, space: CharClass) {
    exists k: nat :: OnlyAt(preamble, k, tag) && Denotes(preamble[k][|tag|..], name) && IsPathIn(name, "", space)
  }

  /** A rename is declared by both of its lines, which then name the paths of the header and of the labels. */
  ghost predicate RenameSays(preamble: seq<string>, names: Names, sides: Sides, renamed: bool, space: CharClass) {
    if renamed then
      && RenameLine(preamble, "rename from ", names.oldName, space) && RenameLine(preamble, "rename to ", names.newName, space)
      && sides.oldPath == Some(names.oldName) && sides.newPath == Some(names.newName)
    else NoneBegins(preamble, "rename from ") && NoneBegins(preamble, "rename to ")
  }

  /** A decoded name that is no path is refused, and so is the null device where it is not allowed. */
  lemma LabelIs(line: string, t: Tag, prefix: string, name: string, side: Option<string>, space: CharClass)
    requires prefix in {"a/", "b/"} && Is(line, t)
    ensures LabelPath(line, t, prefix, space) == Ok(side) && side in {None, Some(name)} <==>
            LabelSays(line, PrintedTag(t), prefix, name, side, space)
  {
    hide Is, TagText, PrintedTag, Denotes, DecodePath, IsPathIn, RepositoryPath;
    IsMeansBegins(line, t);
    var value := Rest(line, t);
    DecodesExactly(value, "/dev/null");
    DecodesExactly(value, prefix + name);
    PrefixIsNoDevice(prefix, name);
    if DecodePath(value).Ok? {
      PathIsAccepted(DecodePath(value).value, prefix, name, space);
    }
  }

  lemma PrefixIsNoDevice(prefix: string, name: string)
    requires prefix in {"a/", "b/"}
    ensures prefix + name != "/dev/null" && DEV_NULL == "/dev/null"
  {
    assert (prefix + name)[0] == prefix[0];
  }

  lemma LabelsAre(preamble: seq<string>, names: Names, sides: Sides, space: CharClass)
    ensures LabelSides(preamble, names, space) == Ok(sides) <==> LabelsSay(preamble, names, sides, space)
  {
    hide Is, TagText, Select, FirstIndex, OnlyAt, NoneBegins, LabelPath, LabelSays;
    NoneSelected(preamble, OldLabel);
    NoneSelected(preamble, NewLabel);
    OneSelected(preamble, OldLabel);
    OneSelected(preamble, NewLabel);
    var olds, news := Select(preamble, OldLabel), Select(preamble, NewLabel);
    NotBoth(preamble);
    if |olds| == 1 && |news| == 1 {
      var i: nat :| OnlyAt(preamble, i, "--- ");
      var j: nat :| OnlyAt(preamble, j, "+++ ");
      SelectedIs(preamble, OldLabel, i);
      SelectedIs(preamble, NewLabel, j);
      OnlyOnce(preamble, i, "--- ");
      OnlyOnce(preamble, j, "+++ ");
      LabelIs(preamble[i], OldLabel, "a/", names.oldName, sides.oldPath, space);
      LabelIs(preamble[j], NewLabel, "b/", names.newName, sides.newPath, space);
      assert sides.labelled ==> (LabelSides(preamble, names, space) == Ok(sides) <==>
        && LabelPath(olds[0], OldLabel, "a/", space) == Ok(sides.oldPath) && LabelPath(news[0], NewLabel, "b/", space) == Ok(sides.newPath)
        && j == i + 1 && sides.oldPath in {None, Some(names.oldName)} && sides.newPath in {None, Some(names.newName)});
    }
  }

  lemma OnlyOnce(lines: seq<string>, k: nat, tag: string)
    requires OnlyAt(lines, k, tag)
    ensures k < |lines| && forall j: nat :: OnlyAt(lines, j, tag) ==> j == k
  {
  }

  lemma NotBoth(lines: seq<string>)
    ensures forall tag, k: nat :: OnlyAt(lines, k, tag) ==> !NoneBegins(lines, tag)
  {
  }

  lemma RenameLineIs(preamble: seq<string>, t: Tag, k: nat, name: string, space: CharClass)
    requires OnlyAt(preamble, k, PrintedTag(t))
    ensures Is(preamble[k], t)
    ensures RenamePath(preamble[k], t, space) == Ok(name) <==> RenameLine(preamble, PrintedTag(t), name, space)
  {
    hide Is, TagText, PrintedTag, Denotes, DecodePath, IsPathIn, RepositoryPath, OnlyAt;
    SelectedIs(preamble, t, k);
    OnlyOnce(preamble, k, PrintedTag(t));
    IsMeansBegins(preamble[k], t);
    var value := Rest(preamble[k], t);
    DecodesExactly(value, name);
    assert "" + name == name;
    if DecodePath(value).Ok? {
      PathIsAccepted(DecodePath(value).value, "", name, space);
    }
  }

  lemma RenamesAre(preamble: seq<string>, names: Names, sides: Sides, renamed: bool, space: CharClass)
    ensures Rename(preamble, names, sides, space) == Ok(renamed) <==> RenameSays(preamble, names, sides, renamed, space)
  {
    hide Is, TagText, Select, OnlyAt, NoneBegins, RenamePath, RenameLine;
    NoneSelected(preamble, RenameFrom);
    NoneSelected(preamble, RenameTo);
    OneSelected(preamble, RenameFrom);
    OneSelected(preamble, RenameTo);
    var froms, tos := Select(preamble, RenameFrom), Select(preamble, RenameTo);
    NotBoth(preamble);
    RenameNeedsLine(preamble, names, space);
    if |froms| == 1 && |tos| == 1 {
      var i: nat :| OnlyAt(preamble, i, "rename from ");
      var j: nat :| OnlyAt(preamble, j, "rename to ");
      SelectedIs(preamble, RenameFrom, i);
      SelectedIs(preamble, RenameTo, j);
      RenameLineIs(preamble, RenameFrom, i, names.oldName, space);
      RenameLineIs(preamble, RenameTo, j, names.newName, space);
    }
  }

  lemma RenameNeedsLine(preamble: seq<string>, names: Names, space: CharClass)
    ensures RenameLine(preamble, "rename from ", names.oldName, space) ==> exists k: nat :: OnlyAt(preamble, k, "rename from ")
    ensures RenameLine(preamble, "rename to ", names.newName, space) ==> exists k: nat :: OnlyAt(preamble, k, "rename to ")
  {
    hide OnlyAt, Denotes, IsPathIn;
  }

  // ----- created and deleted files, and the kind of change -----

  /** The marks of creation and deletion agree with the labels and the names, and settle the paths. */
  predicate MarksSay(preamble: seq<string>, names: Names, labels: Sides, renamed: bool, sides: Sides) {
    var created, deleted := !NoneBegins(preamble, "new file mode "), !NoneBegins(preamble, "deleted file mode ");
    && !(created && deleted)
    && (labels.labelled && created ==> labels.oldPath.None?) && (labels.labelled && deleted ==> labels.newPath.None?)
    && (names.oldName == names.newName || (renamed && !created && !deleted))
    && sides.labelled == labels.labelled
    && sides.oldPath == (if created && !labels.labelled then None else labels.oldPath)
    && sides.newPath == (if deleted && !labels.labelled then None else labels.newPath)
  }

  lemma MarksAre(preamble: seq<string>, names: Names, labels: Sides, renamed: bool, sides: Sides)
    ensures FinalSides(preamble, names, labels, renamed) == Ok(sides) <==> MarksSay(preamble, names, labels, renamed, sides)
  {
    hide Has, NoneBegins, TagText;
    HasMeansBegins(preamble, NewFileMode);
    HasMeansBegins(preamble, DeletedFileMode);
  }

  predicate KindSays(preamble: seq<string>, sides: Sides, renamed: bool, kind: ChangeKind) {
    match kind
    case DeletedFile => sides.newPath.None?
    case AddedFile => sides.newPath.Some? && (sides.oldPath.None? || !NoneBegins(preamble, "new file mode "))
    case RenamedFile => sides.newPath.Some? && sides.oldPath.Some? && NoneBegins(preamble, "new file mode ") && renamed
    case ModifiedFile => sides.newPath.Some? && sides.oldPath.Some? && NoneBegins(preamble, "new file mode ") && !renamed
    case BinaryFile => false
  }

  lemma KindIs(preamble: seq<string>, sides: Sides, renamed: bool, kind: ChangeKind)
    ensures KindOf(preamble, sides, renamed) == kind <==> KindSays(preamble, sides, renamed, kind)
  {
    hide Has, NoneBegins, TagText;
    HasMeansBegins(preamble, NewFileMode);
  }

  // ----- content -----

  const PLAIN: set<string> := {"old mode ", "new mode ", "new file mode ", "deleted file mode ", "similarity index ",
    "dissimilarity index ", "rename from ", "rename to ", "index "}

  const LABELS: set<string> := {"--- ", "+++ "}

  predicate IsKnown(line: string, tags: set<string>) {
    exists tag :: tag in tags && Begins(line, tag)
  }

  lemma SupportedIs(line: string)
    ensures Supported(line, PLAIN_TAGS) <==> IsKnown(line, PLAIN)
    ensures Supported(line, PLAIN_TAGS + {OldLabel, NewLabel}) <==> IsKnown(line, PLAIN + LABELS)
  {
    hide Is, Begins;
    forall t: Tag
      ensures Is(line, t) <==> Begins(line, PrintedTag(t))
    {
      IsMeansBegins(line, t);
    }
    PlainAreTags();
    if tag :| tag in PLAIN && Begins(line, tag) {
      var t :| t in PLAIN_TAGS && PrintedTag(t) == tag;
      assert Is(line, t);
    }
    if tag :| tag in PLAIN + LABELS && Begins(line, tag) {
      var t :| t in PLAIN_TAGS + {OldLabel, NewLabel} && PrintedTag(t) == tag;
      assert Is(line, t);
    }
  }

  lemma PlainAreTags()
    ensures forall t :: t in PLAIN_TAGS ==> PrintedTag(t) in PLAIN
    ensures forall tag :: tag in PLAIN ==> exists t :: t in PLAIN_TAGS && PrintedTag(t) == tag
    ensures forall t :: t in PLAIN_TAGS + {OldLabel, NewLabel} ==> PrintedTag(t) in PLAIN + LABELS
    ensures forall tag :: tag in PLAIN + LABELS ==> exists t :: t in PLAIN_TAGS + {OldLabel, NewLabel} && PrintedTag(t) == tag
  {
    forall tag | tag in PLAIN
      ensures exists t :: t in PLAIN_TAGS && PrintedTag(t) == tag
    {
      var t := if tag == "old mode " then OldMode else if tag == "new mode " then NewMode
        else if tag == "new file mode " then NewFileMode else if tag == "deleted file mode " then DeletedFileMode
        else if tag == "similarity index " then Similarity else if tag == "dissimilarity index " then Dissimilarity
        else if tag == "rename from " then RenameFrom else if tag == "rename to " then RenameTo else Index;
      assert t in PLAIN_TAGS && PrintedTag(t) == tag;
    }
    forall tag | tag in PLAIN + LABELS
      ensures exists t :: t in PLAIN_TAGS + {OldLabel, NewLabel} && PrintedTag(t) == tag
    {
      if tag in LABELS {
        assert PrintedTag(if tag == "--- " then OldLabel else NewLabel) == tag;
      }
    }
  }

  /** Hunks stand only behind labels and known metadata; without hunks there are no labels. */
  predicate ContentSays(lines: seq<string>, first: nat, labelled: bool, added: seq<ChangedLine>, bound: seq<ChangedLine>)
    requires 1 <= first <= |lines|
  {
    if first < |lines| then
      && labelled && (forall k :: 1 <= k < first ==> IsKnown(lines[k], PLAIN + LABELS))
      && Parse(lines[first..]) == Ok((added, bound))
    else (forall k :: 1 <= k < first ==> IsKnown(lines[k], PLAIN)) && added == [] && bound == []
  }

  lemma ContentIs(lines: seq<string>, first: nat, labelled: bool, added: seq<ChangedLine>, bound: seq<ChangedLine>)
    requires 1 <= first <= |lines|
    ensures Content(lines, first, labelled) == Ok((added, bound)) <==> ContentSays(lines, first, labelled, added, bound)
  {
    hide Supported, IsKnown, Parse;
    var preamble := lines[1..first];
    forall line
      ensures Supported(line, PLAIN_TAGS) <==> IsKnown(line, PLAIN)
      ensures Supported(line, PLAIN_TAGS + {OldLabel, NewLabel}) <==> IsKnown(line, PLAIN + LABELS)
    {
      SupportedIs(line);
    }
    assert forall k :: 1 <= k < first ==> lines[k] == preamble[k - 1];
  }

  lemma HeaderIs(line: string, names: Names, space: CharClass)
    requires Is(line, FileStart)
    ensures HeaderNames(line, space) == Ok(names) <==> HeaderSays(line, names, space)
  {
    hide Is, TagText, SplitHeader, IsPathIn, RepositoryPath, SplitsInto, Denotes;
    IsMeansBegins(line, FileStart);
    var value := Rest(line, FileStart);
    HeaderIsExact(value, "a/" + names.oldName, "b/" + names.newName);
    if SplitHeader(value).Ok? {
      var (oldRaw, newRaw) := SplitHeader(value).value;
      PathIsAccepted(oldRaw, "a/", names.oldName, space);
      PathIsAccepted(newRaw, "b/", names.newName, space);
    }
  }

  // ----- a whole segment -----

  predicate SaysBinary(line: string) {
    line == "GIT binary patch" || Begins(line, "Binary files ")
  }

  /** The hunks of a segment begin at its first line that begins one, or there are none. */
  predicate HunksBeginAt(lines: seq<string>, first: nat) {
    && 1 <= first <= |lines| && (first < |lines| ==> Begins(lines[first], "@@ "))
    && forall k :: 1 <= k < first ==> !Begins(lines[k], "@@ ")
  }

  predicate NamesRust(path: Option<string>) {
    path.Some? && |path.value| >= 3 && path.value[|path.value| - 3..] == ".rs"
  }

  /** How the parts of a segment fit together, given what they settle on. */
  ghost predicate SegmentSays(
    lines: seq<string>, names: Names, labels: Sides, renamed: bool, sides: Sides, first: nat, file: ChangedFile, space: CharClass)
  {
    && lines != [] && HeaderSays(lines[0], names, space) && HunksBeginAt(lines, first)
    && var preamble := lines[1..first];
       && LabelsSay(preamble, names, labels, space) && RenameSays(preamble, names, labels, renamed, space)
       && NoneBegins(preamble, "copy from ") && NoneBegins(preamble, "copy to ")
       && MarksSay(preamble, names, labels, renamed, sides)
       && file.oldPath == sides.oldPath && file.newPath == sides.newPath
       && if exists k :: 0 <= k < |preamble| && SaysBinary(preamble[k])
          then !NamesRust(sides.newPath) && file.kind.BinaryFile? && file.added == file.bound == []
          else KindSays(preamble, sides, renamed, file.kind) && ContentSays(lines, first, labels.labelled, file.added, file.bound)
  }

  ghost predicate IsSegment(lines: seq<string>, file: ChangedFile, space: CharClass) {
    exists names, labels, renamed, sides, first: nat :: SegmentSays(lines, names, labels, renamed, sides, first, file, space)
  }

  lemma FirstHunkIs(lines: seq<string>, first: nat)
    requires lines != [] && Is(lines[0], FileStart)
    ensures FirstIndex(lines, HunkStart, 0) == first <==> HunksBeginAt(lines, first)
  {
    hide Is, TagText, Begins;
    forall k | 0 <= k < |lines|
      ensures Is(lines[k], HunkStart) <==> Begins(lines[k], "@@ ")
    {
      IsMeansBegins(lines[k], HunkStart);
    }
    HeaderIsNoHunk(lines);
  }

  lemma BinaryIs(preamble: seq<string>)
    ensures (exists line :: line in preamble && IsBinaryMark(line)) <==> exists k :: 0 <= k < |preamble| && SaysBinary(preamble[k])
  {
    hide Is, Begins;
    forall line
      ensures IsBinaryMark(line) <==> SaysBinary(line)
    {
      IsMeansBegins(line, BinaryFiles);
    }
    if k :| 0 <= k < |preamble| && SaysBinary(preamble[k]) {
      assert preamble[k] in preamble;
    }
  }

  /** Behind the labels, the rename and the marks, what is left to check. */
  lemma RestIs(lines: seq<string>, names: Names, labels: Sides, renamed: bool, sides: Sides, first: nat, file: ChangedFile,
    space: CharClass)
    requires lines != [] && Is(lines[0], FileStart) && HeaderNames(lines[0], space) == Ok(names)
    requires FirstIndex(lines, HunkStart, 0) == first >= 1
    requires LabelSides(lines[1..first], names, space) == Ok(labels)
    requires Rename(lines[1..first], names, labels, space) == Ok(renamed)
    requires FinalSides(lines[1..first], names, labels, renamed) == Ok(sides)
    ensures Segment(lines, space) == Ok(file) <==> SegmentSays(lines, names, labels, renamed, sides, first, file, space)
  {
    hide Is, TagText, HeaderNames, HeaderSays, LabelSides, LabelsSay, Rename, RenameSays, FinalSides, MarksSay, Content,
      ContentSays, KindOf,
      KindSays, IsBinaryMark, SaysBinary, Has, NoneBegins, HunksBeginAt, FirstIndex, Named, IsRust, NamesRust;
    var preamble := lines[1..first];
    NamedUnfolds(lines, names, labels, renamed, sides, first, space);
    HeaderIs(lines[0], names, space);
    FirstHunkIs(lines, first);
    LabelsAre(preamble, names, labels, space);
    RenamesAre(preamble, names, labels, renamed, space);
    MarksAre(preamble, names, labels, renamed, sides);
    HasMeansBegins(preamble, CopyFrom);
    HasMeansBegins(preamble, CopyTo);
    BinaryIs(preamble);
    RustIsNamed(sides.newPath);
    KindIs(preamble, sides, renamed, file.kind);
    ContentIs(lines, first, labels.labelled, file.added, file.bound);
    KindIsNoBinary(preamble, sides, renamed);
    LabelledStays(preamble, names, labels, renamed, sides);
  }

  lemma RustIsNamed(path: Option<string>)
    ensures IsRust(path) <==> NamesRust(path)
  {
  }

  lemma NamedUnfolds(lines: seq<string>, names: Names, labels: Sides, renamed: bool, sides: Sides, first: nat, space: CharClass)
    requires lines != [] && Is(lines[0], FileStart) && FirstIndex(lines, HunkStart, 0) == first >= 1
    requires LabelSides(lines[1..first], names, space) == Ok(labels)
    requires Rename(lines[1..first], names, labels, space) == Ok(renamed)
    requires FinalSides(lines[1..first], names, labels, renamed) == Ok(sides)
    ensures var preamble, content := lines[1..first], Content(lines, first, sides.labelled);
            Named(lines, names, space) ==
              if Has(preamble, CopyFrom) || Has(preamble, CopyTo) then Err(CopyUnsupported)
              else if exists line :: line in preamble && IsBinaryMark(line) then
                if IsRust(sides.newPath) then Err(BinaryRust) else Ok(ChangedFile(sides.oldPath, sides.newPath, BinaryFile, [], []))
              else if content.Err? then Err(content.error)
              else Ok(ChangedFile(sides.oldPath, sides.newPath, KindOf(preamble, sides, renamed), content.value.0, content.value.1))
  {
    hide Is, TagText, LabelSides, Rename, FinalSides, Content, KindOf, IsBinaryMark, Has, FirstIndex, IsRust;
  }

  lemma KindIsNoBinary(preamble: seq<string>, sides: Sides, renamed: bool)
    ensures !KindOf(preamble, sides, renamed).BinaryFile?
  {
  }

  lemma LabelledStays(preamble: seq<string>, names: Names, labels: Sides, renamed: bool, sides: Sides)
    requires FinalSides(preamble, names, labels, renamed) == Ok(sides)
    ensures sides.labelled == labels.labelled
  {
    hide FinalSides, NoneBegins;
    MarksAre(preamble, names, labels, renamed, sides);
  }

  /** The reader makes this file of a segment exactly when the segment says so. */
  lemma SegmentIsExact(lines: seq<string>, file: ChangedFile, space: CharClass)
    ensures Segment(lines, space) == Ok(file) <==> IsSegment(lines, file, space)
  {
    hide SegmentSays, Is, TagText, FirstIndex, HeaderNames, LabelSides, Rename, FinalSides, Content, KindOf, IsBinaryMark, Has;
    if Segment(lines, space) == Ok(file) {
      var names := HeaderNames(lines[0], space).value;
      var first := FirstIndex(lines, HunkStart, 0);
      HeaderIsNoHunk(lines);
      var preamble := lines[1..first];
      var labels := LabelSides(preamble, names, space).value;
      var renamed := Rename(preamble, names, labels, space).value;
      var sides := FinalSides(preamble, names, labels, renamed).value;
      RestIs(lines, names, labels, renamed, sides, first, file, space);
    }
    if IsSegment(lines, file, space) {
      var names, labels, renamed, sides, first: nat :| SegmentSays(lines, names, labels, renamed, sides, first, file, space);
      SaidIsRead(lines, names, labels, renamed, sides, first, file, space);
      RestIs(lines, names, labels, renamed, sides, first, file, space);
    }
  }

  lemma SaidIsRead(lines: seq<string>, names: Names, labels: Sides, renamed: bool, sides: Sides, first: nat,
    file: ChangedFile, space: CharClass)
    requires SegmentSays(lines, names, labels, renamed, sides, first, file, space)
    ensures lines != [] && Is(lines[0], FileStart) && HeaderNames(lines[0], space) == Ok(names)
    ensures FirstIndex(lines, HunkStart, 0) == first && 1 <= first <= |lines|
    ensures LabelSides(lines[1..first], names, space) == Ok(labels)
    ensures Rename(lines[1..first], names, labels, space) == Ok(renamed)
    ensures FinalSides(lines[1..first], names, labels, renamed) == Ok(sides)
  {
    hide Is, TagText, HeaderNames, LabelSides, LabelsSay, Rename, RenameSays, FinalSides, MarksSay, ContentSays, KindSays, SaysBinary,
      NoneBegins, FirstIndex, SplitsInto, Denotes, IsPathIn;
    IsMeansBegins(lines[0], FileStart);
    HeaderIs(lines[0], names, space);
    FirstHunkIs(lines, first);
    var preamble := lines[1..first];
    LabelsAre(preamble, names, labels, space);
    RenamesAre(preamble, names, labels, renamed, space);
    MarksAre(preamble, names, labels, renamed, sides);
  }

  // ----- whole diffs -----

  function Joined(parts: seq<seq<string>>): seq<string> {
    if parts == [] then [] else parts[0] + Joined(parts[1..])
  }

  /** A header line and, behind it, no other one. */
  predicate IsPart(part: seq<string>) {
    part != [] && Begins(part[0], "diff --git ") && forall k :: 1 <= k < |part| ==> !Begins(part[k], "diff --git ")
  }

  ghost predicate AreFiles(parts: seq<seq<string>>, files: seq<ChangedFile>, space: CharClass) {
    |parts| == |files| && forall k :: 0 <= k < |parts| ==> IsPart(parts[k]) && IsSegment(parts[k], files[k], space)
  }

  /** The path a file is known by: its new one, or the old one of a deleted file. */
  function TargetOf(file: ChangedFile): Option<string> {
    if file.newPath.Some? then file.newPath else file.oldPath
  }

  /** Two targets are told apart as the platform compares paths. */
  predicate AreApart(a: string, b: string, platform: Platform) {
    if platform.foldsPaths then Folded(a, platform.fold) != Folded(b, platform.fold) else a != b
  }

  /** Every file has a target, and no two have the same. */
  ghost predicate TargetsDiffer(files: seq<ChangedFile>, platform: Platform) {
    && (forall i :: 0 <= i < |files| ==> TargetOf(files[i]).Some?)
    && forall i, j :: 0 <= i < j < |files| ==> AreApart(TargetOf(files[i]).value, TargetOf(files[j]).value, platform)
  }

  lemma {:induction false} PartsAreRead(parts: seq<seq<string>>, files: seq<ChangedFile>, space: CharClass)
    requires AreFiles(parts, files, space)
    ensures Segments(Joined(parts), space) == Ok(files)
    decreases |parts|
  {
    hide Is, Begins, Segment, IsSegment;
    if parts != [] {
      var lines, n := Joined(parts), |parts[0]|;
      PartEnds(parts);
      SegmentIsExact(parts[0], files[0], space);
      PartsAreRead(parts[1..], files[1..], space);
      assert lines[..n] == parts[0] && lines[n..] == Joined(parts[1..]);
      assert files == [files[0]] + files[1..];
    }
  }

  lemma PartEnds(parts: seq<seq<string>>)
    requires parts != [] && forall k :: 0 <= k < |parts| ==> IsPart(parts[k])
    ensures Joined(parts) != [] && FirstIndex(Joined(parts), FileStart, 1) == |parts[0]|
  {
    hide Is, Begins;
    var lines, n := Joined(parts), |parts[0]|;
    forall k | 0 <= k < |lines|
      ensures Is(lines[k], FileStart) <==> Begins(lines[k], "diff --git ")
    {
      IsMeansBegins(lines[k], FileStart);
    }
    assert forall k :: 0 <= k < n ==> lines[k] == parts[0][k];
    if |parts| > 1 {
      assert lines[n] == parts[1][0];
    }
  }

  lemma {:induction false} ReadArePartsOf(lines: seq<string>, space: CharClass) returns (parts: seq<seq<string>>)
    requires Segments(lines, space).Ok? && (lines != [] ==> Is(lines[0], FileStart))
    ensures Joined(parts) == lines && AreFiles(parts, Segments(lines, space).value, space)
    decreases |lines|
  {
    hide Is, Segment, IsSegment, IsPart;
    if lines == [] {
      parts := [];
    } else {
      var end := FirstIndex(lines, FileStart, 1);
      var rest := ReadArePartsOf(lines[end..], space);
      parts := [lines[..end]] + rest;
      assert parts[1..] == rest && lines == lines[..end] + lines[end..];
      FrontIsPart(lines, end);
      SegmentIsExact(lines[..end], Segment(lines[..end], space).value, space);
    }
  }

  lemma FrontIsPart(lines: seq<string>, end: nat)
    requires lines != [] && Is(lines[0], FileStart) && end == FirstIndex(lines, FileStart, 1)
    ensures IsPart(lines[..end])
  {
    hide Is, Begins;
    forall k | 0 <= k < end
      ensures Is(lines[k], FileStart) <==> Begins(lines[k], "diff --git ")
    {
      IsMeansBegins(lines[k], FileStart);
    }
  }

  lemma TargetIs(file: ChangedFile, lines: seq<string>, space: CharClass)
    requires IsSegment(lines, file, space)
    ensures Target(file) == TargetOf(file)
  {
    hide HeaderSays, RenameSays, Begins, ContentSays, KindSays, SaysBinary, NoneBegins, OnlyAt, Denotes;
    var names, labels, renamed, sides, first: nat :| SegmentSays(lines, names, labels, renamed, sides, first, file, space);
    var preamble := lines[1..first];
    NamesAreThere(lines[0], names, space);
  }

  lemma NamesAreThere(line: string, names: Names, space: CharClass)
    requires HeaderSays(line, names, space)
    ensures names.oldName != "" && names.newName != ""
  {
    hide SplitsInto, Denotes;
    EmptyIsNoPath(names.oldName, "a/", space);
    EmptyIsNoPath(names.newName, "b/", space);
  }

  lemma EmptyIsNoPath(path: string, prefix: string, space: CharClass)
    requires IsPathIn(path, prefix, space)
    ensures path != ""
  {
    assert path == "" ==> IsComponent(path, 0, 0);
  }

  lemma KeysAreApart(a: string, b: string, platform: Platform)
    ensures PathKey(a, platform) != PathKey(b, platform) <==> AreApart(a, b, platform)
  {
  }

  lemma TargetsAre(parts: seq<seq<string>>, files: seq<ChangedFile>, space: CharClass, platform: Platform)
    requires AreFiles(parts, files, space)
    ensures Repeated(files, {}, platform).None? <==> TargetsDiffer(files, platform)
  {
    hide IsSegment, IsPart, Target, TargetOf, PathKey, AreApart;
    NothingRepeated(files, {}, platform);
    forall k | 0 <= k < |files|
      ensures Target(files[k]) == TargetOf(files[k])
    {
      TargetIs(files[k], parts[k], space);
    }
    forall i, j | 0 <= i < j < |files| && TargetOf(files[i]).Some? && TargetOf(files[j]).Some?
      ensures PathKey(TargetOf(files[i]).value, platform) != PathKey(TargetOf(files[j]).value, platform) <==>
              AreApart(TargetOf(files[i]).value, TargetOf(files[j]).value, platform)
    {
      KeysAreApart(TargetOf(files[i]).value, TargetOf(files[j]).value, platform);
    }
  }

  lemma StartsPart(lines: seq<string>)
    requires lines != []
    ensures Is(lines[0], FileStart) ==> !ForeignStart(lines[0])
  {
    if Is(lines[0], FileStart) {
      NoForeignStart(lines[0]);
    }
  }

  lemma JoinedStarts(parts: seq<seq<string>>)
    requires parts != [] && IsPart(parts[0])
    ensures Joined(parts) != [] && Is(Joined(parts)[0], FileStart)
  {
    hide Begins;
    IsMeansBegins(parts[0][0], FileStart);
    assert Joined(parts)[0] == parts[0][0];
  }

  /**
   The reader accepts a diff exactly when no line holds a NUL, its lines are the segments of the files, each beginning
   at the only file header in it and saying just that file, and all files have different targets.
   */
  lemma DiffIsExact(lines: seq<string>, files: seq<ChangedFile>, space: CharClass, platform: Platform)
    ensures Diff(lines, space, platform) == Ok(files) <==>
            && (forall line :: line in lines ==> '\0' !in line)
            && TargetsDiffer(files, platform)
            && exists parts :: Joined(parts) == lines && AreFiles(parts, files, space)
  {
    hide Is, Segments, Repeated, ForeignStart, TargetsDiffer, AreFiles, IsPart;
    NothingRepeats(platform);
    if lines != [] {
      StartsPart(lines);
    }
    if Diff(lines, space, platform) == Ok(files) {
      NoSegments(lines, space);
      assert lines == [] ==> lines[|lines|..] == lines;
      var parts := ReadArePartsOf(lines, space);
      TargetsAre(parts, files, space, platform);
    }
    if parts :| Joined(parts) == lines && AreFiles(parts, files, space) {
      PartsAreRead(parts, files, space);
      TargetsAre(parts, files, space, platform);
      if lines != [] {
        FirstIsPart(parts, files, space);
        JoinedStarts(parts);
      } else {
        NoSegments(lines, space);
        assert lines[|lines|..] == lines;
      }
    }
  }

  lemma NothingRepeats(platform: Platform)
    ensures Repeated([], {}, platform).None?
  {
  }

  lemma FirstIsPart(parts: seq<seq<string>>, files: seq<ChangedFile>, space: CharClass)
    requires AreFiles(parts, files, space) && Joined(parts) != []
    ensures parts != [] && IsPart(parts[0])
  {
    hide IsPart, IsSegment;
  }
}
