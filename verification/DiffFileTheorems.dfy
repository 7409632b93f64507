/** Printed diffs against the reader: which segments, and which whole diffs, are read back as what they mean. */
module DiffFileTheorems {
  import opened CriticalPolicy
  import opened DiffFiles
  import opened DiffMeaning
  import opened DiffMeaningTheorems
  import opened DiffRendering
  import opened GitPathTheorems
  import opened HunkScripts
  import opened HunkTheorems
  import opened Hunks
  import opened Text
  import opened Wrappers

  // ----- the preamble -----

  /** Outside the free metadata, the preamble holds only the marks of the change and the labels. */
  lemma OnlyInPreamble(f: GitFile, t: Tag)
    requires WellFormed(f) && t !in DETAILS
    ensures Only(Preamble(f), t) == Only(Marks(f.change), t) + Only(Labels(f), t)
  {
    hide Only;
    OnlyJoin(f.before + Marks(f.change) + f.after, Labels(f), t);
    OnlyJoin(f.before + Marks(f.change), f.after, t);
    OnlyJoin(f.before, Marks(f.change), t);
    NoneOnly(f.before, DETAILS, t);
    NoneOnly(f.after, DETAILS, t);
  }

  lemma OnlyOne(x: Tagged, t: Tag)
    ensures Only([x], t) == if x.tag == t then [x] else []
  {
    assert [x][1..] == [];
  }

  lemma OnlyTwo(x: Tagged, y: Tagged, t: Tag)
    ensures Only([x, y], t) == (if x.tag == t then [x] else []) + (if y.tag == t then [y] else [])
  {
    OnlyOne(y, t);
    assert [x, y][1..] == [y];
  }

  lemma OnlyOfMarks(c: Change, t: Tag)
    requires t !in {NewFileMode, DeletedFileMode}
    ensures t == RenameFrom ==> Only(Marks(c), t) == if c.Move? then [Tagged(RenameFrom, GitToken(c.from))] else []
    ensures t == RenameTo ==> Only(Marks(c), t) == if c.Move? then [Tagged(RenameTo, GitToken(c.to))] else []
    ensures t !in {RenameFrom, RenameTo} ==> Only(Marks(c), t) == []
  {
    if c.Move? {
      OnlyTwo(Tagged(RenameFrom, GitToken(c.from)), Tagged(RenameTo, GitToken(c.to)), t);
    } else if c.Create? {
      OnlyOne(Tagged(NewFileMode, c.mode), t);
    } else if c.Delete? {
      OnlyOne(Tagged(DeletedFileMode, c.mode), t);
    }
  }

  lemma OnlyOfLabels(f: GitFile, t: Tag)
    requires t != BinaryFiles
    ensures t == OldLabel ==>
              Only(Labels(f), t) == if f.payload.Script? then [Tagged(OldLabel, OldLabelText(f.change))] else []
    ensures t == NewLabel ==>
              Only(Labels(f), t) == if f.payload.Script? then [Tagged(NewLabel, NewLabelText(f.change))] else []
    ensures t !in {OldLabel, NewLabel} ==> Only(Labels(f), t) == []
  {
    if f.payload.Script? {
      OnlyTwo(Tagged(OldLabel, OldLabelText(f.change)), Tagged(NewLabel, NewLabelText(f.change)), t);
    } else if f.payload.Note? {
      OnlyOne(Tagged(BinaryFiles, f.payload.text), t);
    }
  }

  predicate IsMark(c: Change, t: Tag) {
    (c.Create? && t == NewFileMode) || (c.Delete? && t == DeletedFileMode) || (c.Move? && t in {RenameFrom, RenameTo})
  }

  predicate IsLabel(p: Payload, t: Tag) {
    (p.Note? && t == BinaryFiles) || (p.Script? && t in {OldLabel, NewLabel})
  }

  lemma TagInPreamble(f: GitFile, x: Tagged)
    requires WellFormed(f) && x in Preamble(f)
    ensures x.tag in DETAILS || IsMark(f.change, x.tag) || IsLabel(f.payload, x.tag)
  {
    hide TagText, OldLabelText, NewLabelText;
    var (m, l) := (Marks(f.change), Labels(f));
    assert x in f.before || x in m || x in f.after || x in l;
  }

  lemma MarkInPreamble(f: GitFile, t: Tag) returns (x: Tagged)
    requires IsMark(f.change, t) || IsLabel(f.payload, t)
    ensures x in Preamble(f) && x.tag == t
  {
    hide TagText, OldLabelText, NewLabelText;
    var (m, l) := (Marks(f.change), Labels(f));
    if IsMark(f.change, t) {
      x := if f.change.Move? && t == RenameTo then m[1] else m[0];
      assert x in m;
    } else {
      x := if t == NewLabel then l[1] else l[0];
      assert x in l;
    }
  }

  lemma PreambleTags(f: GitFile, t: Tag)
    requires WellFormed(f) && t !in DETAILS
    ensures Has(TaggedLines(Preamble(f)), t) <==> IsMark(f.change, t) || IsLabel(f.payload, t)
  {
    hide Has, TagText, TaggedLine, TaggedLines, Preamble, IsMark, IsLabel;
    HasTagged(Preamble(f), t);
    if IsMark(f.change, t) || IsLabel(f.payload, t) {
      var x := MarkInPreamble(f, t);
    }
    if exists x :: x in Preamble(f) && x.tag == t {
      var x :| x in Preamble(f) && x.tag == t;
      TagInPreamble(f, x);
    }
  }

  lemma SelectInPreamble(f: GitFile, t: Tag)
    requires WellFormed(f) && t !in DETAILS
    ensures Select(TaggedLines(Preamble(f)), t) == TaggedLines(Only(Marks(f.change), t) + Only(Labels(f), t))
  {
    SelectTagged(Preamble(f), t);
    OnlyInPreamble(f, t);
  }

  // ----- where the hunks start -----

  lemma {:induction false} UnifiedDiffStarts(regions: seq<Region>)
    requires regions != []
    ensures UnifiedDiff(regions) != [] && StartsHunk(UnifiedDiff(regions)[0])
  {
    var hunks := UnifiedHunks(regions, 0, 0);
    ScriptStartsHunk(hunks);
    HunkIsNotEmpty(hunks[0]);
  }

  lemma NoStartInPreamble(f: GitFile, x: Tagged, t: Tag)
    requires WellFormed(f) && x in Preamble(f) && t in {FileStart, HunkStart}
    ensures !Is(TaggedLine(x), t)
  {
    hide Is, TaggedLine, Preamble;
    TagInPreamble(f, x);
    OneTag(x, t);
  }

  lemma HunkTextStarts(f: GitFile)
    requires WellFormed(f)
    ensures if f.payload.Script? then HunkText(f) != [] && Is(HunkText(f)[0], HunkStart) else HunkText(f) == []
  {
    hide UnifiedDiff, TagText, StartsHunk;
    if f.payload.Script? {
      UnifiedDiffStarts(f.payload.regions);
      HunkTag(HunkText(f)[0]);
    }
  }

  lemma HunksStartAfterPreamble(f: GitFile)
    requires WellFormed(f)
    ensures var lines, first := Print(f), 1 + |Preamble(f)|;
            && Is(lines[0], FileStart) && FirstIndex(lines, HunkStart, 0) == first
            && lines[1..first] == TaggedLines(Preamble(f)) && lines[first..] == HunkText(f)
            && (first < |lines| <==> f.payload.Script?)
  {
    hide Is, TaggedLine, HunkText, Preamble, WellFormed, NameTokens;
    var lines, xs := Print(f), Preamble(f);
    var header := Tagged(FileStart, NameTokens(f.change));
    OneTag(header, FileStart);
    OneTag(header, HunkStart);
    forall k | 0 <= k < 1 + |xs|
      ensures !Is(lines[k], HunkStart)
    {
      if k > 0 {
        assert lines[k] == TaggedLine(xs[k - 1]) && xs[k - 1] in xs;
        NoStartInPreamble(f, xs[k - 1], HunkStart);
      }
    }
    HunkTextStarts(f);
    assert lines[1 + |xs|..] == HunkText(f);
    assert f.payload.Script? ==> lines[1 + |xs|] == HunkText(f)[0];
  }

  lemma HunkTag(line: string)
    ensures StartsHunk(line) <==> Is(line, HunkStart)
  {
  }

  // ----- the stages -----

  lemma LabelsAreAdjacent(f: GitFile)
    requires WellFormed(f) && f.payload.Script?
    ensures FirstIndex(TaggedLines(Preamble(f)), OldLabel, 0) == |Metadata(f)|
    ensures FirstIndex(TaggedLines(Preamble(f)), NewLabel, 0) == |Metadata(f)| + 1
  {
    hide TagText, TaggedLine, Metadata, NewLabelText, OldLabelText;
    var xs, n := Preamble(f), |Metadata(f)|;
    forall k | 0 <= k < n
      ensures xs[k].tag != OldLabel && xs[k].tag != NewLabel
    {
      assert xs[k] == Metadata(f)[k];
      MetadataTags(f, k);
    }
    assert xs[n] == Labels(f)[0] && xs[n + 1] == Labels(f)[1];
    forall k | 0 <= k < n + 2
      ensures Is(TaggedLines(xs)[k], OldLabel) <==> k == n
      ensures Is(TaggedLines(xs)[k], NewLabel) <==> k == n + 1
    {
      OneTag(xs[k], OldLabel);
      OneTag(xs[k], NewLabel);
    }
  }

  lemma MetadataTags(f: GitFile, k: nat)
    requires WellFormed(f) && k < |Metadata(f)|
    ensures Metadata(f)[k].tag !in {OldLabel, NewLabel}
  {
    var m := Marks(f.change);
    var x := Metadata(f)[k];
    assert x in f.before || x in m || x in f.after;
  }

  ghost predicate NamesFit(c: Change, space: CharClass) {
    PathFits(OldName(c), "a/", space) && PathFits(NewName(c), "b/", space)
  }

  lemma LabelsSelected(f: GitFile)
    requires WellFormed(f)
    ensures Select(TaggedLines(Preamble(f)), OldLabel)
         == if f.payload.Script? then [TaggedLine(Tagged(OldLabel, OldLabelText(f.change)))] else []
    ensures Select(TaggedLines(Preamble(f)), NewLabel)
         == if f.payload.Script? then [TaggedLine(Tagged(NewLabel, NewLabelText(f.change)))] else []
  {
    hide TagText, TaggedLine, Preamble, Marks, Labels, OldLabelText, NewLabelText, Only, Select;
    SelectInPreamble(f, OldLabel);
    SelectInPreamble(f, NewLabel);
    OnlyOfMarks(f.change, OldLabel);
    OnlyOfMarks(f.change, NewLabel);
    OnlyOfLabels(f, OldLabel);
    OnlyOfLabels(f, NewLabel);
  }

  lemma LabelSidesAre(f: GitFile, space: CharClass)
    requires WellFormed(f) && NamesFit(f.change, space)
    ensures var read := LabelSides(TaggedLines(Preamble(f)), Names(OldName(f.change), NewName(f.change)), space);
            if f.payload.Script? then
              (LabelsReadable(f.change) ==> read == Ok(Sides(true, OldSide(f.change), NewSide(f.change))))
              && (!LabelsReadable(f.change) ==> read.Err?)
            else read == Ok(Sides(false, Some(OldName(f.change)), Some(NewName(f.change))))
  {
    hide TagText, TaggedLine, TaggedLines, LabelPath, Label, Preamble, PathFits, Is, Select, FirstIndex;
    var c := f.change;
    LabelsSelected(f);
    if f.payload.Script? {
      LabelsAreAdjacent(f);
      DevNullLabel(OldLabel, "a/", space);
      DevNullLabel(NewLabel, "b/", space);
      LabelPathIs(OldName(c), OldLabel, "a/", space);
      LabelPathIs(NewName(c), NewLabel, "b/", space);
    }
  }

  lemma MarksSelected(f: GitFile)
    requires WellFormed(f)
    ensures Select(TaggedLines(Preamble(f)), RenameFrom)
         == if f.change.Move? then [TaggedLine(Tagged(RenameFrom, GitToken(f.change.from)))] else []
    ensures Select(TaggedLines(Preamble(f)), RenameTo)
         == if f.change.Move? then [TaggedLine(Tagged(RenameTo, GitToken(f.change.to)))] else []
  {
    hide TagText, TaggedLine, Preamble, Marks, Labels, Only, Select, GitPathTheorems.GitToken;
    SelectInPreamble(f, RenameFrom);
    SelectInPreamble(f, RenameTo);
    OnlyOfMarks(f.change, RenameFrom);
    OnlyOfMarks(f.change, RenameTo);
    OnlyOfLabels(f, RenameFrom);
    OnlyOfLabels(f, RenameTo);
  }

  lemma RenameIs(f: GitFile, sides: Sides, space: CharClass)
    requires WellFormed(f)
    requires f.change.Move? ==> sides.oldPath == OldSide(f.change) && sides.newPath == NewSide(f.change)
    ensures var read := Rename(TaggedLines(Preamble(f)), Names(OldName(f.change), NewName(f.change)), sides, space);
            var fits := PathFits(OldName(f.change), "", space) && PathFits(NewName(f.change), "", space);
            (f.change.Move? ==> if fits then read == Ok(true) else read.Err?) && (!f.change.Move? ==> read == Ok(false))
  {
    hide TagText, TaggedLine, TaggedLines, RenamePath, Preamble, PathFits, Is, Select, GitPathTheorems.GitToken;
    var c := f.change;
    MarksSelected(f);
    if c.Move? {
      RenamePathIs(c.from, RenameFrom, space);
      RenamePathIs(c.to, RenameTo, space);
    }
  }

  /** With any names, a segment that is read has names that its paths agree with. */
  lemma SidesNameTheHeader(preamble: seq<string>, names: Names, labels: Sides, renamed: bool, space: CharClass)
    requires LabelSides(preamble, names, space) == Ok(labels)
    requires FinalSides(preamble, names, labels, renamed).Ok?
    ensures var sides := FinalSides(preamble, names, labels, renamed).value;
            && sides.oldPath in {None, Some(names.oldName)} && sides.newPath in {None, Some(names.newName)}
            && (Has(preamble, NewFileMode) || Has(preamble, DeletedFileMode) ==> names.oldName == names.newName)
  {
    hide LabelPath, Has;
  }

  lemma FinalSidesAre(f: GitFile, labels: Sides)
    requires WellFormed(f)
    requires labels == if f.payload.Script? then Sides(true, OldSide(f.change), NewSide(f.change))
                       else Sides(false, Some(OldName(f.change)), Some(NewName(f.change)))
    ensures FinalSides(TaggedLines(Preamble(f)), Names(OldName(f.change), NewName(f.change)), labels, f.change.Move?)
         == Ok(Sides(f.payload.Script?, OldSide(f.change), NewSide(f.change)))
  {
    hide Has, TaggedLines, Preamble;
    PreambleTags(f, NewFileMode);
    PreambleTags(f, DeletedFileMode);
  }

  lemma BinaryMarks(f: GitFile)
    requires WellFormed(f)
    ensures (exists line :: line in TaggedLines(Preamble(f)) && IsBinaryMark(line)) <==> f.payload.Note?
  {
    hide TagText, TaggedLine, Preamble;
    var xs := Preamble(f);
    forall k | 0 <= k < |xs|
      ensures TaggedLines(xs)[k] != BINARY_PATCH
    {
      HeadOfLine(xs[k]);
    }
    PreambleTags(f, BinaryFiles);
    var j := FirstIndex(TaggedLines(xs), BinaryFiles, 0);
    if f.payload.Note? {
      assert TaggedLines(xs)[j] in TaggedLines(xs) && IsBinaryMark(TaggedLines(xs)[j]);
    }
  }

  lemma HeadOfLine(x: Tagged)
    ensures TaggedLine(x) != BINARY_PATCH
  {
    HeadIs(x.tag);
    assert TaggedLine(x)[0] == TagText(x.tag)[0];
  }

  lemma AllSupported(f: GitFile)
    requires WellFormed(f) && !f.payload.Note?
    ensures var tags := if f.payload.Script? then PLAIN_TAGS + {OldLabel, NewLabel} else PLAIN_TAGS;
            forall line :: line in TaggedLines(Preamble(f)) ==> Supported(line, tags)
  {
    hide TagText, TaggedLine, Preamble;
    var xs := Preamble(f);
    var tags := if f.payload.Script? then PLAIN_TAGS + {OldLabel, NewLabel} else PLAIN_TAGS;
    forall line | line in TaggedLines(xs)
      ensures Supported(line, tags)
    {
      var k :| 0 <= k < |xs| && TaggedLines(xs)[k] == line;
      assert xs[k] in xs;
      TagInPreamble(f, xs[k]);
      OneTag(xs[k], xs[k].tag);
      assert xs[k].tag in tags && Is(line, xs[k].tag);
    }
  }

  lemma ContentIs(f: GitFile)
    requires WellFormed(f) && !f.payload.Note?
    ensures var read := Content(Print(f), 1 + |Preamble(f)|, f.payload.Script?);
            var shown := f.payload.Script? ==> PrintableFrom(f.payload.regions, 0, 0) && SeparatedFrom(f.payload.regions, false, false);
            if shown then read == Ok((LinesWith(f, {Inserted}), LinesWith(f, {Shown, Inserted}))) else read.Err?
  {
    hide Parse, UnifiedDiff, PrintableFrom, SeparatedFrom, Supported, Preamble, TaggedLines, Print, Numbered, NewFile;
    HunksStartAfterPreamble(f);
    AllSupported(f);
    if f.payload.Script? {
      UnifiedDiffIsRead(f.payload.regions, f.payload.tail);
      var parsed := Parse(Print(f)[1 + |Preamble(f)|..]);
      assert parsed == Parse(UnifiedDiff(f.payload.regions));
      assert parsed.Ok? ==> parsed.value == (parsed.value.0, parsed.value.1);
    }
  }

  lemma KindIs(f: GitFile)
    requires WellFormed(f)
    ensures KindOf(TaggedLines(Preamble(f)), Sides(f.payload.Script?, OldSide(f.change), NewSide(f.change)), f.change.Move?)
         == ChangeOf(f.change)
  {
    hide Has, TaggedLines, Preamble;
    PreambleTags(f, NewFileMode);
  }

  lemma NoCopies(f: GitFile)
    requires WellFormed(f)
    ensures !Has(TaggedLines(Preamble(f)), CopyFrom) && !Has(TaggedLines(Preamble(f)), CopyTo)
  {
    PreambleTags(f, CopyFrom);
    PreambleTags(f, CopyTo);
  }

  // ----- one file -----

  lemma NamedIs(f: GitFile, space: CharClass)
    requires WellFormed(f) && NamesFit(f.change, space)
    ensures Is(Print(f)[0], FileStart)
    ensures Named(Print(f), Names(OldName(f.change), NewName(f.change)), space) == Ok(Meaning(f)) <==>
            (f.change.Move? ==> PathFits(OldName(f.change), "", space) && PathFits(NewName(f.change), "", space)) && PayloadReadable(f)
  {
    hide LabelSides, Rename, FinalSides, Content, Is, KindOf, IsBinaryMark, TaggedLines, Preamble, Print, PathFits, Has, PrintableFrom,
      SeparatedFrom, LinesWith, LabelsReadable, IsRust;
    HunksStartAfterPreamble(f);
    LabelSidesAre(f, space);
    var preamble, names := TaggedLines(Preamble(f)), Names(OldName(f.change), NewName(f.change));
    var labels := LabelSides(preamble, names, space);
    if labels.Ok? {
      RenameIs(f, labels.value, space);
      NoCopies(f);
      FinalSidesAre(f, labels.value);
      BinaryMarks(f);
      KindIs(f);
      if !f.payload.Note? {
        ContentIs(f);
      } else {
        NothingShown(f);
      }
    }
  }

  lemma NothingShown(f: GitFile)
    requires !f.payload.Script?
    ensures forall roles :: LinesWith(f, roles) == []
  {
  }

  /** A segment read as what it means was read with the right names. */
  lemma NamesAreForced(f: GitFile, names: Names, space: CharClass)
    requires WellFormed(f)
    ensures Is(Print(f)[0], FileStart)
    ensures Named(Print(f), names, space) == Ok(Meaning(f)) ==> names == Names(OldName(f.change), NewName(f.change))
  {
    hide LabelSides, Rename, FinalSides, Content, Is, KindOf, IsBinaryMark, TaggedLines, Preamble, Print, Has, LinesWith, IsRust;
    HunksStartAfterPreamble(f);
    var preamble := TaggedLines(Preamble(f));
    if Named(Print(f), names, space) == Ok(Meaning(f)) {
      var labels := LabelSides(preamble, names, space).value;
      var renamed := Rename(preamble, names, labels, space).value;
      SidesNameTheHeader(preamble, names, labels, renamed, space);
      PreambleTags(f, NewFileMode);
      PreambleTags(f, DeletedFileMode);
    }
  }

  /**
   A printed file is read back as exactly what it means if and only if its names survive the header line and
   are normal repository paths, a printed content label has no space, a binary note is not about Rust source,
   and its hunks print short enough numbers and are separated.
   */
  lemma PrintedFileIsRead(f: GitFile, space: CharClass)
    requires WellFormed(f)
    ensures Segment(Print(f), space) == Ok(Meaning(f)) <==> Readable(f, space)
  {
    hide Named, HeaderNames, Meaning, PayloadReadable, Is, PathFits, SafeInHeader, TaggedLines, Preamble;
    HunksStartAfterPreamble(f);
    var lines, names := Print(f), Names(OldName(f.change), NewName(f.change));
    assert lines[0] == TaggedLine(Tagged(FileStart, NameTokens(f.change)));
    NamesAreRead(f.change, space);
    if HeaderNames(lines[0], space).Ok? {
      NamesAreForced(f, HeaderNames(lines[0], space).value, space);
      if HeaderNames(lines[0], space).value == names {
        NamedIs(f, space);
      }
    }
  }

  /** What a readable file's hunks show of the new text is in the new text, at those line numbers. */
  lemma MeaningBinds(f: GitFile)
    requires f.payload.Script?
    ensures forall line :: line in Meaning(f).bound ==> Binds(Texts(NewFile(f.payload.regions, f.payload.tail)), line)
  {
    var lines := NewFile(f.payload.regions, f.payload.tail);
    NumberedBinds(lines, {Shown, Inserted}, []);
    assert [] + Texts(lines) == Texts(lines);
  }

  // ----- splitting at the file headers -----

  lemma HeadDecides(line: string)
    requires line == "" || line[0] != 'd'
    ensures !Is(line, FileStart)
  {
    HeadIs(FileStart);
    if line != "" {
      PrefixAt(line, TagText(FileStart), 0);
    }
  }

  lemma {:induction false} BodyHasNoHeader(body: seq<Piece>)
    ensures forall line :: line in BodyLines(body) ==> !Is(line, FileStart)
  {
    hide Is;
    if body != [] {
      BodyHasNoHeader(body[1..]);
      EditLineIsPlain(body[0].edit);
      HeadDecides(EditLine(body[0].edit));
      HeadDecides(NO_NEWLINE);
      assert PieceLines(body[0]) + BodyLines(body[1..]) == BodyLines(body);
    }
  }

  /** No line of a hunk can look like the header of a file: each has its own first character. */
  lemma {:induction false} ScriptHasNoHeader(hunks: seq<Hunk>)
    ensures forall line :: line in ScriptLines(hunks) ==> !Is(line, FileStart)
  {
    hide Is, BodyLines;
    if hunks != [] {
      ScriptHasNoHeader(hunks[1..]);
      BodyHasNoHeader(hunks[0].body);
      HeaderBeginsWithAt(hunks[0].header);
      HeadDecides(HeaderLine(hunks[0].header));
      assert HunkLines(hunks[0]) + ScriptLines(hunks[1..]) == ScriptLines(hunks);
    }
  }

  lemma HeaderBeginsWithAt(h: Hunks.HeaderText)
    ensures HeaderLine(h)[0] == '@'
  {
  }

  lemma HunkTextHasNoHeader(f: GitFile)
    ensures forall line :: line in HunkText(f) ==> !Is(line, FileStart)
  {
    hide Is, UnifiedHunks, ScriptLines;
    if f.payload.Script? {
      ScriptHasNoHeader(UnifiedHunks(f.payload.regions, 0, 0));
    }
  }

  lemma OneHeaderInPrint(f: GitFile)
    requires WellFormed(f)
    ensures Print(f) != [] && Is(Print(f)[0], FileStart)
    ensures forall k :: 1 <= k < |Print(f)| ==> !Is(Print(f)[k], FileStart)
  {
    hide Is, TaggedLine, Preamble, HunkText, IsMark, IsLabel, NameTokens;
    OneTag(Tagged(FileStart, NameTokens(f.change)), FileStart);
    HunkTextHasNoHeader(f);
    var xs, lines := Preamble(f), Print(f);
    forall k | 1 <= k < |lines|
      ensures !Is(lines[k], FileStart)
    {
      if k < 1 + |xs| {
        assert lines[k] == TaggedLine(xs[k - 1]) && xs[k - 1] in xs;
        NoStartInPreamble(f, xs[k - 1], FileStart);
      } else {
        assert lines[k] == HunkText(f)[k - 1 - |xs|];
      }
    }
  }

  function PrintAll(files: seq<GitFile>): seq<string> {
    if files == [] then [] else Print(files[0]) + PrintAll(files[1..])
  }

  function Meanings(files: seq<GitFile>): (changed: seq<ChangedFile>)
    ensures |changed| == |files| && forall k :: 0 <= k < |files| ==> changed[k] == Meaning(files[k])
  {
    seq(|files|, k requires 0 <= k < |files| => Meaning(files[k]))
  }

  ghost predicate AllWellFormed(files: seq<GitFile>) {
    forall f :: f in files ==> WellFormed(f)
  }

  lemma FirstFileEnds(files: seq<GitFile>)
    requires AllWellFormed(files) && files != []
    ensures FirstIndex(PrintAll(files), FileStart, 1) == |Print(files[0])|
    ensures Is(PrintAll(files)[0], FileStart)
  {
    hide Is, Print, WellFormed;
    var lines, n := PrintAll(files), |Print(files[0])|;
    OneHeaderInPrint(files[0]);
    assert lines == Print(files[0]) + PrintAll(files[1..]);
    assert forall k :: 0 <= k < n ==> lines[k] == Print(files[0])[k];
    if files[1..] != [] {
      assert files[1] in files && files[1..][0] == files[1];
      OneHeaderInPrint(files[1]);
      assert lines[n] == Print(files[1])[0];
    }
  }

  lemma ConsIs(file: ChangedFile, r: Files, first: ChangedFile, rest: seq<ChangedFile>)
    ensures Cons(file, r) == Ok([first] + rest) <==> file == first && r == Ok(rest)
  {
    if r.Ok? && [file] + r.value == [first] + rest {
      assert ([file] + r.value)[0] == first && ([file] + r.value)[1..] == ([first] + rest)[1..];
      assert ([file] + r.value)[1..] == r.value && ([first] + rest)[1..] == rest;
    }
  }

  /** The files of a printed diff are found again, each read on its own. */
  lemma {:induction false} PrintedFilesAreRead(files: seq<GitFile>, space: CharClass)
    requires AllWellFormed(files)
    ensures Segments(PrintAll(files), space) == Ok(Meanings(files)) <==> forall f :: f in files ==> Readable(f, space)
  {
    hide Segment, Is, Print, Readable, WellFormed, Meaning;
    if files != [] {
      var lines, n := PrintAll(files), |Print(files[0])|;
      FirstFileEnds(files);
      assert files[0] in files && AllWellFormed(files[1..]);
      OneHeaderInPrint(files[0]);
      assert lines[..n] == Print(files[0]) && lines[n..] == PrintAll(files[1..]);
      PrintedFileIsRead(files[0], space);
      PrintedFilesAreRead(files[1..], space);
      assert Meanings(files) == [Meaning(files[0])] + Meanings(files[1..]);
      if Segment(lines[..n], space).Ok? {
        ConsIs(Segment(lines[..n], space).value, Segments(lines[n..], space), Meaning(files[0]), Meanings(files[1..]));
      }
      assert (forall f :: f in files ==> Readable(f, space)) <==>
             Readable(files[0], space) && forall f :: f in files[1..] ==> Readable(f, space);
    }
  }

  // ----- whole diffs -----

  ghost predicate TargetsApart(files: seq<ChangedFile>, platform: Platform) {
    && (forall i :: 0 <= i < |files| ==> Target(files[i]).Some?)
    && (forall i, j :: 0 <= i < j < |files| ==>
          PathKey(Target(files[i]).value, platform) != PathKey(Target(files[j]).value, platform))
  }

  ghost predicate TargetsNew(files: seq<ChangedFile>, seen: set<string>, platform: Platform) {
    forall i :: 0 <= i < |files| && Target(files[i]).Some? ==> PathKey(Target(files[i]).value, platform) !in seen
  }

  lemma {:induction false} NothingRepeated(files: seq<ChangedFile>, seen: set<string>, platform: Platform)
    ensures Repeated(files, seen, platform).None? <==> TargetsApart(files, platform) && TargetsNew(files, seen, platform)
    decreases |files|
  {
    hide PathKey, Target;
    if files != [] && Target(files[0]).Some? {
      var key := PathKey(Target(files[0]).value, platform);
      var rest := files[1..];
      NothingRepeated(rest, seen + {key}, platform);
      assert forall i :: 0 <= i < |rest| ==> rest[i] == files[i + 1];
      assert TargetsApart(files, platform) && TargetsNew(files, seen, platform) ==>
               TargetsApart(rest, platform) && TargetsNew(rest, seen + {key}, platform);
      if key !in seen && TargetsApart(rest, platform) && TargetsNew(rest, seen + {key}, platform) {
        forall i | 0 <= i < |files|
          ensures Target(files[i]).Some? && PathKey(Target(files[i]).value, platform) !in seen
          ensures i > 0 ==> PathKey(Target(files[i]).value, platform) != key
        {
          if i > 0 {
            assert files[i] == rest[i - 1];
          }
        }
        forall i, j | 0 <= i < j < |files|
          ensures PathKey(Target(files[i]).value, platform) != PathKey(Target(files[j]).value, platform)
        {
          if i > 0 {
            assert files[i] == rest[i - 1] && files[j] == rest[j - 1];
          }
        }
      }
    }
  }

  /**
   A whole printed diff is read back as exactly the list of its files' meanings if and only if every file is
   readable, no printed line holds a NUL, and no two files have the same target path.
   */
  lemma PrintedDiffIsRead(files: seq<GitFile>, space: CharClass, platform: Platform)
    requires AllWellFormed(files)
    ensures Diff(PrintAll(files), space, platform) == Ok(Meanings(files)) <==>
            && (forall f :: f in files ==> Readable(f, space))
            && (forall line :: line in PrintAll(files) ==> '\0' !in line)
            && TargetsApart(Meanings(files), platform)
  {
    hide Segments, Is, Print, Readable, WellFormed, Meaning, Repeated, ForeignStart, Target, PathKey;
    PrintedFilesAreRead(files, space);
    NothingRepeated(Meanings(files), {}, platform);
    if files != [] {
      FirstFileEnds(files);
      NoForeignStart(PrintAll(files)[0]);
    }
  }

  lemma NoForeignStart(line: string)
    requires Is(line, FileStart)
    ensures !ForeignStart(line)
  {
    HeadIs(FileStart);
    HeadIs(OldLabel);
    HeadIs(HunkStart);
    assert line[0] == 'd';
    PrefixAt(line, TagText(OldLabel), 0);
    PrefixAt(line, TagText(HunkStart), 0);
    PrefixAt(line, "Index: ", 0);
  }
}
