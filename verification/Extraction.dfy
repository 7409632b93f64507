/**
 Extraction of a candidate archive: every member is validated before any is written, and the writes that
 follow can then never collide, whatever the order of the members and whether the disk folds case.
 */
module Extraction {
  import opened CriticalPolicy
  import opened Wrappers

  /** A path as its components. */
  type Path = seq<string>

  /** An archive member: its name's components, what it is, and whether the name and mode are ordinary. */
  datatype Member = Member(parts: Path, directory: bool, ordinary: bool, size: nat, content: seq<int>)

  datatype ExtractError = Bounds | UnsafePath | Colliding | Overwrites | Overlapping | WriteFailed

  const MAX_MEMBERS: nat := 10000
  const MAX_SIZE: nat := 4 * 1024 * 1024 * 1024

  // ----- the disk -----

  datatype Entry = DirEntry | FileEntry(content: seq<int>)

  type Entries = map<Path, Entry>

  /** The path or one of its ancestors is a file. */
  ghost predicate Blocked(entries: Entries, path: Path) {
    exists k :: 0 < k <= |path| && path[..k] in entries && entries[path[..k]].FileEntry?
  }

  function WithDirectories(entries: Entries, path: Path): Entries {
    if path == [] then entries
    else
      var above := WithDirectories(entries, path[..|path| - 1]);
      if path in above then above else above[path := DirEntry]
  }

  class Disk {
    var entries: Entries

    constructor (entries: Entries)
      ensures this.entries == entries
    {
      this.entries := entries;
    }

    /** Creates the missing directories down to `path`; a file in the way makes it fail. */
    method MakeDirectories(path: Path) returns (ok: bool)
      modifies this
      ensures ok <==> !Blocked(old(entries), path)
      ensures ok ==> entries == WithDirectories(old(entries), path)
    {
      ok := true;
      var k := 0;
      assert path[..0] == [];
      while k < |path|
        invariant 0 <= k <= |path|
        invariant ok && entries == WithDirectories(old(entries), path[..k])
        invariant forall p :: p in old(entries) ==> p in entries && entries[p] == old(entries)[p]
        invariant forall p :: p in entries && p !in old(entries) ==> entries[p] == DirEntry
        invariant forall j :: 0 < j <= k ==> !(path[..j] in old(entries) && old(entries)[path[..j]].FileEntry?)
      {
        var here := path[..k + 1];
        assert here[..|here| - 1] == path[..k];
        if here !in entries {
          entries := entries[here := DirEntry];
        } else if entries[here].FileEntry? {
          assert Blocked(old(entries), path);
          return false;
        }
        k := k + 1;
      }
      assert path[..|path|] == path;
    }

    /** Creates a new file in an existing directory; fails if anything is there already. */
    method CreateFile(path: Path, content: seq<int>) returns (ok: bool)
      requires path != []
      modifies this
      ensures ok <==> path !in old(entries) &&
                      (|path| == 1 || (path[..|path| - 1] in old(entries) && old(entries)[path[..|path| - 1]].DirEntry?))
      ensures entries == if ok then old(entries)[path := FileEntry(content)] else old(entries)
    {
      var parent := path[..|path| - 1];
      ok := path !in entries && (|path| == 1 || (parent in entries && entries[parent].DirEntry?));
      if ok {
        entries := entries[path := FileEntry(content)];
      }
    }
  }

  /** `p` is `path` or a directory above it. */
  predicate Leads(p: Path, path: Path) {
    p != [] && p <= path
  }

  lemma {:induction false} WithDirectoriesAdds(entries: Entries, path: Path)
    ensures forall p :: p in WithDirectories(entries, path) <==> p in entries || Leads(p, path)
    ensures forall p :: p in WithDirectories(entries, path) ==>
              WithDirectories(entries, path)[p] == if p in entries then entries[p] else DirEntry
  {
    if path != [] {
      WithDirectoriesAdds(entries, path[..|path| - 1]);
      forall p ensures Leads(p, path) <==> p == path || Leads(p, path[..|path| - 1]) {
        PrefixOfFront(p, path);
      }
    }
  }

  lemma PrefixOfFront(p: Path, path: Path)
    requires path != []
    ensures p <= path <==> p == path || p <= path[..|path| - 1]
  {
    if p <= path && p != path {
      assert p == path[..|path| - 1][..|p|];
    }
  }

  // ----- validation -----

  function FoldPath(path: Path, fold: char -> string): (r: Path)
    ensures |r| == |path| && forall k :: 0 <= k < |path| ==> r[k] == Folded(path[k], fold)
  {
    seq(|path|, k requires 0 <= k < |path| => Folded(path[k], fold))
  }

  function Key(path: Path, platform: Platform): (key: Path)
    ensures |key| == |path|
  {
    if platform.foldsPaths then FoldPath(path, platform.fold) else path
  }

  predicate SafePart(part: string) {
    part != "" && part[0] != '.'
  }

  predicate SafeMember(m: Member) {
    m.ordinary && m.parts != [] && forall part :: part in m.parts ==> SafePart(part)
  }

  function TotalSize(members: seq<Member>): nat {
    if members == [] then 0 else TotalSize(members[..|members| - 1]) + members[|members| - 1].size
  }

  /** Some file's folded path is a proper ancestor of another file's. */
  predicate FileAboveFile(files: seq<Member>, fold: char -> string) {
    exists j, k, n :: 0 <= j < |files| && 0 <= k < |files| && 0 < n < |files[k].parts| &&
      FoldPath(files[j].parts, fold) == FoldPath(files[k].parts, fold)[..n]
  }

  function FilesOf(members: seq<Member>): seq<Member> {
    if members == [] then []
    else FilesOf(members[..|members| - 1]) + (if members[|members| - 1].directory then [] else [members[|members| - 1]])
  }

  /** An ordinary file or directory, each of whose parts begins with some character other than a dot. */
  ghost predicate IsOrdinary(m: Member) {
    m.ordinary && m.parts != [] && forall k :: 0 <= k < |m.parts| ==> |m.parts[k]| > 0 && m.parts[k][0] != '.'
  }

  lemma OrdinaryIsSafe(m: Member)
    ensures SafeMember(m) <==> IsOrdinary(m)
  {
    if SafeMember(m) {
      assert forall k :: 0 <= k < |m.parts| ==> m.parts[k] in m.parts;
    }
  }

  ghost predicate MembersPass(members: seq<Member>, entries: Entries, platform: Platform) {
    && (forall k :: 0 <= k < |members| ==> IsOrdinary(members[k]))
    && (forall j, k :: 0 <= j < k < |members| ==>
          FoldPath(members[j].parts, platform.fold) != FoldPath(members[k].parts, platform.fold))
    && (forall k :: 0 <= k < |members| ==>
          (if platform.foldsPaths then FoldPath(members[k].parts, platform.fold) else members[k].parts) !in entries)
  }

  /** Everything the archive must satisfy before the first write. */
  ghost predicate Acceptable(members: seq<Member>, entries: Entries, platform: Platform) {
    && 0 < |members| <= 10000 && TotalSize(members) <= 0x1_0000_0000
    && MembersPass(members, entries, platform) && !FileAboveFile(FilesOf(members), platform.fold)
  }

  method SumSizes(members: seq<Member>) returns (total: nat)
    ensures total == TotalSize(members)
  {
    total := 0;
    for k := 0 to |members|
      invariant total == TotalSize(members[..k])
    {
      assert members[..k + 1][..k] == members[..k];
      total := total + members[k].size;
    }
    assert members[..|members|] == members;
  }

  method CheckMembers(members: seq<Member>, disk: Disk, platform: Platform) returns (r: Result<seq<Member>, ExtractError>)
    ensures r.Ok? <==> MembersPass(members, disk.entries, platform)
    ensures r.Ok? ==> r.value == FilesOf(members)
  {
    hide FoldPath, SafeMember, IsOrdinary;
    var seen: set<Path>, files: seq<Member> := {}, [];
    for k := 0 to |members|
      invariant files == FilesOf(members[..k])
      invariant forall path :: path in seen <==> exists j :: 0 <= j < k && FoldPath(members[j].parts, platform.fold) == path
      invariant forall j :: 0 <= j < k ==> IsOrdinary(members[j]) && Key(members[j].parts, platform) !in disk.entries
      invariant forall i, j :: 0 <= i < j < k ==>
        FoldPath(members[i].parts, platform.fold) != FoldPath(members[j].parts, platform.fold)
    {
      assert members[..k + 1][..k] == members[..k];
      var item := members[k];
      OrdinaryIsSafe(item);
      if !SafeMember(item) { return Err(UnsafePath); }
      var folded := FoldPath(item.parts, platform.fold);
      if folded in seen { return Err(Colliding); }
      seen := seen + {folded};
      if Key(item.parts, platform) in disk.entries { return Err(Overwrites); }
      if !item.directory {
        files := files + [item];
      }
    }
    assert members[..|members|] == members;
    r := Ok(files);
  }

  /** The check by the set of file names: is some ancestor of a file among them? */
  method FindOverlapping(files: seq<Member>, fold: char -> string) returns (found: bool)
    ensures found == FileAboveFile(files, fold)
  {
    var names := set k | 0 <= k < |files| :: FoldPath(files[k].parts, fold);
    for k := 0 to |files|
      invariant forall i, n :: 0 <= i < k && 0 < n < |files[i].parts| ==> FoldPath(files[i].parts, fold)[..n] !in names
    {
      var folded := FoldPath(files[k].parts, fold);
      var n := 1;
      while n < |folded|
        invariant forall m :: 0 < m < n && m < |folded| ==> folded[..m] !in names
      {
        if folded[..n] in names {
          var j :| 0 <= j < |files| && FoldPath(files[j].parts, fold) == folded[..n];
          return true;
        }
        n := n + 1;
      }
    }
    found := false;
  }

  // ----- after validation, writing cannot fail -----

  /** Only names the archive may not use are there already: a fresh destination. */
  ghost predicate FreshDestination(entries: Entries) {
    forall path :: path in entries ==> path != [] && (path[0] == "" || path[0][0] == '.')
  }

  /** Case folding neither makes nor removes a leading dot, and never empties a character. */
  ghost predicate DotStable(fold: char -> string) {
    forall c :: fold(c) != "" && (fold(c)[0] == '.' <==> c == '.')
  }

  lemma SafeFirstPart(path: Path, platform: Platform)
    requires DotStable(platform.fold) && path != [] && SafePart(path[0])
    ensures SafePart(Key(path, platform)[0])
  {
    assert Folded(path[0], platform.fold)[0] == platform.fold(path[0][0])[0];
  }

  /** The destination once the given files have been written. */
  function Written(entries: Entries, files: seq<Member>, platform: Platform): Entries {
    if files == [] then entries
    else
      var last := files[|files| - 1];
      var path := Key(last.parts, platform);
      if path == [] then Written(entries, files[..|files| - 1], platform)
      else WithDirectories(Written(entries, files[..|files| - 1], platform), path[..|path| - 1])[path := FileEntry(last.content)]
  }

  /** Files that are safe, pairwise different and not above one another, in folded form. */
  ghost predicate Writable(files: seq<Member>, fold: char -> string) {
    && (forall k :: 0 <= k < |files| ==> SafeMember(files[k]))
    && (forall j, k :: 0 <= j < k < |files| ==> FoldPath(files[j].parts, fold) != FoldPath(files[k].parts, fold))
    && !FileAboveFile(files, fold)
  }

  /** A path on the disk is an old one, a written file, or a directory above a written file. */
  ghost predicate IsWritten(entries: Entries, files: seq<Member>, platform: Platform, path: Path, entry: Entry) {
    || (path in entries && entry == entries[path])
    || (exists k :: 0 <= k < |files| && path == Key(files[k].parts, platform) && entry == FileEntry(files[k].content))
    || (entry == DirEntry && exists k :: 0 <= k < |files| && path < Key(files[k].parts, platform))
  }

  /** Nothing else is on the disk. */
  ghost predicate OnlyWritten(entries: Entries, files: seq<Member>, platform: Platform, disk: Entries) {
    forall path :: path in disk ==> IsWritten(entries, files, platform, path, disk[path])
  }

  lemma KeyPrefix(path: Path, n: nat, platform: Platform)
    requires n <= |path|
    ensures Key(path, platform)[..n] == Key(path[..n], platform)
  {
  }

  lemma KeyDetermines(a: Path, b: Path, platform: Platform)
    requires Key(a, platform) == Key(b, platform)
    ensures FoldPath(a, platform.fold) == FoldPath(b, platform.fold)
  {
  }

  /** No written file blocks another file's way or takes its place. */
  lemma NextFileIsFree(entries: Entries, files: seq<Member>, k: nat, platform: Platform)
    requires FreshDestination(entries) && DotStable(platform.fold) && Writable(files, platform.fold) && k < |files|
    requires OnlyWritten(entries, files[..k], platform, Written(entries, files[..k], platform))
    ensures !Blocked(Written(entries, files[..k], platform), Key(files[k].parts, platform))
    ensures Key(files[k].parts, platform) !in Written(entries, files[..k], platform)
  {
    hide Written, Key;
    var disk, key := Written(entries, files[..k], platform), Key(files[k].parts, platform);
    SafeFirstPart(files[k].parts, platform);
    forall n | 0 < n <= |key| && key[..n] in disk
      ensures !disk[key[..n]].FileEntry? && n < |key|
    {
      FreePrefix(entries, files, k, n, platform, disk[key[..n]]);
    }
    assert key[..|key|] == key;
  }

  /** A key that is another key's front belongs to a path that is the other path's front, folded. */
  lemma FrontKeys(a: Path, b: Path, n: nat, platform: Platform)
    requires n <= |b| && Key(a, platform) == Key(b, platform)[..n]
    ensures FoldPath(a, platform.fold) == FoldPath(b, platform.fold)[..n]
    ensures n == |b| ==> FoldPath(a, platform.fold) == FoldPath(b, platform.fold)
  {
    KeyPrefix(b, n, platform);
    KeyDetermines(a, b[..n], platform);
    assert FoldPath(b, platform.fold)[..n] == FoldPath(b[..n], platform.fold);
  }

  lemma FreePrefix(entries: Entries, files: seq<Member>, k: nat, n: nat, platform: Platform, entry: Entry)
    requires FreshDestination(entries) && Writable(files, platform.fold) && k < |files|
    requires 0 < n <= |files[k].parts| && SafePart(Key(files[k].parts, platform)[0])
    requires IsWritten(entries, files[..k], platform, Key(files[k].parts, platform)[..n], entry)
    ensures !entry.FileEntry? && n < |files[k].parts|
  {
    hide Key, FoldPath;
    var key := Key(files[k].parts, platform);
    var path := key[..n];
    assert path[0] == key[0];
    if j :| 0 <= j < k && path == Key(files[..k][j].parts, platform) {
      FrontKeys(files[j].parts, files[k].parts, n, platform);
      assert false;
    } else if n == |files[k].parts| {
      assert path == key;
      var j :| 0 <= j < k && key < Key(files[..k][j].parts, platform);
      FrontKeys(files[k].parts, files[j].parts, n, platform);
      assert false;
    }
  }

  lemma WriteOne(entries: Entries, files: seq<Member>, k: nat, platform: Platform)
    requires k < |files| && files[k].parts != []
    requires OnlyWritten(entries, files[..k], platform, Written(entries, files[..k], platform))
    ensures var path := Key(files[k].parts, platform);
            Written(entries, files[..k + 1], platform)
            == WithDirectories(Written(entries, files[..k], platform), path[..|path| - 1])[path := FileEntry(files[k].content)]
    ensures OnlyWritten(entries, files[..k + 1], platform, Written(entries, files[..k + 1], platform))
  {
    hide Key;
    assert files[..k + 1][..k] == files[..k];
    var before, key := Written(entries, files[..k], platform), Key(files[k].parts, platform);
    var after := Written(entries, files[..k + 1], platform);
    WithDirectoriesAdds(before, key[..|key| - 1]);
    forall path | path in after ensures IsWritten(entries, files[..k + 1], platform, path, after[path]) {
      if path != key && path !in before {
        assert path < Key(files[..k + 1][k].parts, platform);
      } else if path == key {
        assert path == Key(files[..k + 1][k].parts, platform);
      } else {
        StillWritten(entries, files[..k + 1], k, platform, path, before[path]);
      }
    }
  }

  lemma StillWritten(entries: Entries, files: seq<Member>, k: nat, platform: Platform, path: Path, entry: Entry)
    requires k <= |files| && IsWritten(entries, files[..k], platform, path, entry)
    ensures IsWritten(entries, files, platform, path, entry)
  {
    hide Key;
    if j :| 0 <= j < k && path == Key(files[..k][j].parts, platform) && entry == FileEntry(files[..k][j].content) {
      assert path == Key(files[j].parts, platform);
    } else if path !in entries || entry != entries[path] {
      var j :| 0 <= j < k && path < Key(files[..k][j].parts, platform);
      assert path < Key(files[j].parts, platform);
    }
  }

  lemma {:induction false} FilesAreWritable(members: seq<Member>, entries: Entries, platform: Platform)
    requires MembersPass(members, entries, platform)
    ensures forall k :: 0 <= k < |FilesOf(members)| ==> FilesOf(members)[k] in members
    ensures forall k :: 0 <= k < |FilesOf(members)| ==> SafeMember(FilesOf(members)[k])
    ensures forall j, k :: 0 <= j < k < |FilesOf(members)| ==>
              FoldPath(FilesOf(members)[j].parts, platform.fold) != FoldPath(FilesOf(members)[k].parts, platform.fold)
  {
    hide SafeMember, IsOrdinary, FoldPath;
    if members != [] {
      OrdinaryIsSafe(members[|members| - 1]);
      var front, last := members[..|members| - 1], members[|members| - 1];
      FilesAreWritable(front, entries, platform);
      assert forall m :: m in front ==> m in members;
      forall m | m in front ensures FoldPath(m.parts, platform.fold) != FoldPath(last.parts, platform.fold) {
        var j :| 0 <= j < |front| && front[j] == m;
        assert members[j] == m;
      }
    }
  }

  /** The write loop; from a fresh destination and writable files no step can fail. */
  method WriteFiles(files: seq<Member>, disk: Disk, platform: Platform) returns (ok: bool)
    requires FreshDestination(disk.entries) && DotStable(platform.fold) && Writable(files, platform.fold)
    modifies disk
    ensures ok && disk.entries == Written(old(disk.entries), files, platform)
    ensures OnlyWritten(old(disk.entries), files, platform, disk.entries)
  {
    hide Writable, Key, Written, OnlyWritten, Blocked, WithDirectories, FreshDestination, DotStable;
    ghost var start := disk.entries;
    NothingWritten(start, files, platform);
    for k := 0 to |files|
      invariant disk.entries == Written(start, files[..k], platform)
      invariant OnlyWritten(start, files[..k], platform, disk.entries)
    {
      var item := files[k];
      var path := Key(item.parts, platform);
      WritableMember(files, k, platform.fold);
      NextFileIsFree(start, files, k, platform);
      WriteOne(start, files, k, platform);
      ghost var before := disk.entries;
      ParentIsFree(before, path);
      var made := disk.MakeDirectories(path[..|path| - 1]);
      var created := disk.CreateFile(path, item.content);
      if !made || !created { return false; }
    }
    assert files[..|files|] == files;
    ok := true;
  }

  lemma NothingWritten(entries: Entries, files: seq<Member>, platform: Platform)
    ensures Written(entries, files[..0], platform) == entries
    ensures OnlyWritten(entries, files[..0], platform, entries)
  {
  }

  lemma WritableMember(files: seq<Member>, k: nat, fold: char -> string)
    requires Writable(files, fold) && k < |files|
    ensures files[k].parts != []
  {
  }

  /** Every file is there with its content, and so is everything that was there before. */
  ghost predicate AllPresent(entries: Entries, files: seq<Member>, platform: Platform, disk: Entries) {
    && (forall path :: path in entries ==> path in disk && disk[path] == entries[path])
    && (forall k :: 0 <= k < |files| ==>
          Key(files[k].parts, platform) in disk && disk[Key(files[k].parts, platform)] == FileEntry(files[k].content))
  }

  lemma {:induction false} WrittenIsPresent(entries: Entries, files: seq<Member>, k: nat, platform: Platform)
    requires FreshDestination(entries) && DotStable(platform.fold) && Writable(files, platform.fold) && k <= |files|
    ensures AllPresent(entries, files[..k], platform, Written(entries, files[..k], platform))
  {
    hide Key, Written, FreshDestination, DotStable, IsWritten;
    if k == 0 {
      NothingWritten(entries, files, platform);
    } else {
      WrittenIsPresent(entries, files, k - 1, platform);
      WrittenIsTracked(entries, files, k - 1, platform);
      NextFileIsFree(entries, files, k - 1, platform);
      WritableMember(files, k - 1, platform.fold);
      WriteOne(entries, files, k - 1, platform);
      var path, before := Key(files[k - 1].parts, platform), Written(entries, files[..k - 1], platform);
      WithDirectoriesAdds(before, path[..|path| - 1]);
      forall j | 0 <= j < k - 1 ensures Key(files[j].parts, platform) in before {
        assert files[..k - 1][j] == files[j];
      }
    }
  }

  lemma {:induction false} WrittenIsTracked(entries: Entries, files: seq<Member>, k: nat, platform: Platform)
    requires Writable(files, platform.fold) && k <= |files|
    ensures OnlyWritten(entries, files[..k], platform, Written(entries, files[..k], platform))
  {
    hide Written, OnlyWritten;
    if k == 0 {
      NothingWritten(entries, files, platform);
    } else {
      WrittenIsTracked(entries, files, k - 1, platform);
      WritableMember(files, k - 1, platform.fold);
      WriteOne(entries, files, k - 1, platform);
    }
  }

  /** A free path has free ancestors, which become directories. */
  lemma ParentIsFree(entries: Entries, path: Path)
    requires path != [] && !Blocked(entries, path) && path !in entries
    ensures !Blocked(entries, path[..|path| - 1])
    ensures var parent := path[..|path| - 1];
            var after := WithDirectories(entries, parent);
            path !in after && (|path| > 1 ==> parent in after && after[parent].DirEntry?)
  {
    var parent := path[..|path| - 1];
    forall k | 0 < k <= |parent| ensures parent[..k] == path[..k] {
    }
    WithDirectoriesAdds(entries, parent);
    if |path| > 1 {
      assert parent[..|parent|] == parent;
    }
  }

  /**
   Extraction into a fresh destination: it succeeds exactly when the archive is acceptable, writes nothing
   otherwise, and on success leaves exactly the files, the directories above them and what was there.
   */
  method ExtractArtifact(members: seq<Member>, disk: Disk, platform: Platform) returns (r: Option<ExtractError>)
    requires FreshDestination(disk.entries) && DotStable(platform.fold)
    modifies disk
    ensures r.None? <==> Acceptable(members, old(disk.entries), platform)
    ensures r.Some? ==> disk.entries == old(disk.entries)
    ensures r.None? ==> AllPresent(old(disk.entries), FilesOf(members), platform, disk.entries)
    ensures r.None? ==> OnlyWritten(old(disk.entries), FilesOf(members), platform, disk.entries)
  {
    hide MembersPass, FileAboveFile, DotStable, FreshDestination, OnlyWritten, AllPresent, Written;
    var total := SumSizes(members);
    if members == [] || |members| > MAX_MEMBERS || total > MAX_SIZE { return Some(Bounds); }
    var files := CheckMembers(members, disk, platform);
    if files.Err? { return Some(files.error); }
    var overlapping := FindOverlapping(files.value, platform.fold);
    if overlapping { return Some(Overlapping); }
    AcceptedIsWritable(members, disk.entries, platform);
    WrittenIsPresent(disk.entries, files.value, |files.value|, platform);
    assert files.value[..|files.value|] == files.value;
    var ok := WriteFiles(files.value, disk, platform);
    r := if ok then None else Some(WriteFailed);
  }

  lemma AcceptedIsWritable(members: seq<Member>, entries: Entries, platform: Platform)
    requires MembersPass(members, entries, platform) && !FileAboveFile(FilesOf(members), platform.fold)
    ensures Writable(FilesOf(members), platform.fold)
  {
    hide MembersPass, FileAboveFile, SafeMember;
    FilesAreWritable(members, entries, platform);
  }
}
