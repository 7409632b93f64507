/**
 The boundary inventory: every production file below a boundary's roots must be claimed by a critical rule of
 the boundary's owner. Also the blanking of inline test modules before a file's declarations are read.
 */
module BoundaryCheck {
  import opened Boundaries
  import opened CriticalPolicy
  import opened PolicyMeaning
  import opened TestItems
  import opened TestItemTheorems
  import opened Wrappers

  datatype Boundary = Boundary(id: string, owner: string, contract: string, roots: seq<Path>)

  datatype CheckError =
    | InvalidBoundary(id: string)
    | InvalidRoots(id: string)
    | Search(error: BoundaryError)
    | NoModules(id: string)
    | LostCoverage(id: string, path: Path)
    | PolicyFailed(policy: PolicyError)

  /** How policy lookups and text checks are answered. */
  datatype Setting = Setting(
    rules: seq<Rule>, testOnly: string -> bool, platform: Platform, blank: string -> bool, usable: Path -> bool)

  /** One rule of this owner, and no other rule, protects the path. */
  ghost predicate Owned(setting: Setting, path: Path, owner: string) {
    && !IsProtectedTwice(setting.rules, Some(path), setting.testOnly, setting.platform)
    && exists rule :: rule in setting.rules && rule.owner == owner && IsProtectedBy(Some(path), rule, setting.testOnly, setting.platform)
  }

  lemma OwnedIsFound(setting: Setting, path: Path, owner: string)
    ensures var found := Match(setting.rules, Some(path), setting.testOnly, setting.platform);
            Owned(setting, path, owner) <==> found.Ok? && found.value.Some? && found.value.value.owner == owner
  {
    hide Match, IsProtectedBy;
    MatchSays(setting.rules, Some(path), setting.testOnly, setting.platform);
    var found := Match(setting.rules, Some(path), setting.testOnly, setting.platform);
    if Owned(setting, path, owner) {
      var rule :| rule in setting.rules && rule.owner == owner && IsProtectedBy(Some(path), rule, setting.testOnly, setting.platform);
      var k :| 0 <= k < |setting.rules| && setting.rules[k] == rule;
      assert IsProtected(setting.rules, Some(path), setting.testOnly, setting.platform);
      var j :| 0 <= j < |setting.rules| && setting.rules[j] == found.value.value;
      assert j == k;
    }
  }

  predicate Distinct(roots: seq<Path>) {
    forall j, k :: 0 <= j < k < |roots| ==> roots[j] != roots[k]
  }

  predicate WellFormed(setting: Setting, b: Boundary) {
    !setting.blank(b.id) && !setting.blank(b.owner) && !setting.blank(b.contract) &&
    b.roots != [] && Distinct(b.roots) && forall root :: root in b.roots ==> setting.usable(root)
  }

  /** A production file below one of the boundary's roots. */
  ghost predicate Below(world: World, roots: seq<Path>, file: Path) {
    exists root, path :: root in roots && Reachable(world, root, path) && IsProduction(world, path) && world.resolve(path) == file
  }

  ghost predicate Holds(world: World, setting: Setting, b: Boundary) {
    && WellFormed(setting, b)
    && (forall root :: root in b.roots ==> Faultless(world, root))
    && (exists file :: Below(world, b.roots, file))
    && (forall file :: Below(world, b.roots, file) ==> Owned(setting, file, b.owner))
  }

  ghost predicate IsInventory(world: World, roots: seq<Path>, files: set<Path>) {
    forall file :: file in files <==> Below(world, roots, file)
  }

  lemma OneMoreRoot(world: World, roots: seq<Path>, root: Path, files: set<Path>, more: set<Path>)
    requires IsInventory(world, roots, files) && IsClosure(world, root, more)
    ensures IsInventory(world, roots + [root], files + more)
  {
    hide Reachable, IsProduction;
    forall file ensures file in files + more <==> Below(world, roots + [root], file) {
      if file in more {
        var path :| Reachable(world, root, path) && IsProduction(world, path) && world.resolve(path) == file;
        assert root in roots + [root];
      }
      if Below(world, roots, file) {
        var r, path :| r in roots && Reachable(world, r, path) && IsProduction(world, path) && world.resolve(path) == file;
        assert r in roots + [root];
      }
      if Below(world, roots + [root], file) {
        var r, path :| r in roots + [root] && Reachable(world, r, path) && IsProduction(world, path) && world.resolve(path) == file;
      }
    }
  }

  method CheckRoots(roots: seq<Path>) returns (distinct: bool)
    ensures distinct == Distinct(roots)
  {
    var seen: set<Path> := {};
    for k := 0 to |roots|
      invariant forall j :: 0 <= j < k ==> roots[j] in seen
      invariant forall root :: root in seen ==> root in roots[..k]
      invariant Distinct(roots[..k])
    {
      if roots[k] in seen {
        var j :| 0 <= j < k && roots[..k][j] == roots[k];
        return false;
      }
      seen := seen + {roots[k]};
      assert roots[..k + 1] == roots[..k] + [roots[k]];
    }
    assert roots[..|roots|] == roots;
    distinct := true;
  }

  method FilesBelow(world: World, setting: Setting, b: Boundary, ghost files: set<Path>, ghost height: Path -> nat)
    returns (r: Result<set<Path>, CheckError>)
    requires Finite(world, files, height)
    ensures r.Ok? <==> forall root :: root in b.roots ==> setting.usable(root) && Faultless(world, root)
    ensures r.Ok? ==> IsInventory(world, b.roots, r.value)
  {
    hide Finite, Faultless, IsClosure, Below;
    var below: set<Path> := {};
    NothingBelow(world);
    for k := 0 to |b.roots|
      invariant IsInventory(world, b.roots[..k], below)
      invariant forall j :: 0 <= j < k ==> setting.usable(b.roots[j]) && Faultless(world, b.roots[j])
    {
      if !setting.usable(b.roots[k]) { return Err(InvalidRoots(b.id)); }
      var found := OwnedModules(world, b.roots[k], files, height);
      if found.Err? { return Err(Search(found.error)); }
      OneMoreRoot(world, b.roots[..k], b.roots[k], below, found.value);
      assert b.roots[..k] + [b.roots[k]] == b.roots[..k + 1];
      below := below + found.value;
    }
    assert b.roots[..|b.roots|] == b.roots;
    r := Ok(below);
  }

  lemma NothingBelow(world: World)
    ensures forall file :: !Below(world, [], file)
  {
  }

  method CheckOwners(setting: Setting, b: Boundary, files: set<Path>) returns (error: Option<CheckError>)
    ensures error.None? <==> forall file :: file in files ==> Owned(setting, file, b.owner)
  {
    var pending := files;
    while pending != {}
      invariant pending <= files
      invariant forall file :: file in files && file !in pending ==> Owned(setting, file, b.owner)
      decreases pending
    {
      var file :| file in pending;
      OwnedIsFound(setting, file, b.owner);
      var rule := Match(setting.rules, Some(file), setting.testOnly, setting.platform);
      if rule.Err? { assert !Owned(setting, file, b.owner); return Some(PolicyFailed(rule.error)); }
      if rule.value.None? || rule.value.value.owner != b.owner {
        assert !Owned(setting, file, b.owner);
        return Some(LostCoverage(b.id, file));
      }
      pending := pending - {file};
    }
    error := None;
  }

  method CheckBoundary(world: World, setting: Setting, b: Boundary, ghost files: set<Path>, ghost height: Path -> nat)
    returns (r: Result<set<Path>, CheckError>)
    requires Finite(world, files, height)
    ensures r.Ok? <==> Holds(world, setting, b)
    ensures r.Ok? ==> IsInventory(world, b.roots, r.value)
  {
    hide Finite, Faultless, Below, Owned;
    if setting.blank(b.id) || setting.blank(b.owner) || setting.blank(b.contract) {
      return Err(InvalidBoundary(b.id));
    }
    var distinct := CheckRoots(b.roots);
    if b.roots == [] || !distinct { return Err(InvalidRoots(b.id)); }
    var below := FilesBelow(world, setting, b, files, height);
    if below.Err? { return Err(below.error); }
    if below.value == {} { return Err(NoModules(b.id)); }
    var found :| found in below.value;
    var error := CheckOwners(setting, b, below.value);
    if error.Some? { return Err(error.value); }
    r := below;
  }

  /**
   The inventory succeeds exactly when every boundary is well formed, no two share an identifier, and
   every production file reachable from its roots is claimed by a critical rule of its owner.
   */
  method Validate(world: World, setting: Setting, boundaries: seq<Boundary>, ghost files: set<Path>, ghost height: Path -> nat)
    returns (r: Result<map<string, set<Path>>, CheckError>)
    requires Finite(world, files, height)
    ensures r.Ok? <==> (forall b :: b in boundaries ==> Holds(world, setting, b)) &&
                       (forall j, k :: 0 <= j < k < |boundaries| ==> boundaries[j].id != boundaries[k].id)
    ensures r.Ok? ==> forall b :: b in boundaries ==> b.id in r.value && IsInventory(world, b.roots, r.value[b.id])
  {
    hide Finite, Holds, IsInventory;
    var inventory: map<string, set<Path>> := map[];
    for k := 0 to |boundaries|
      invariant forall j :: 0 <= j < k ==> Holds(world, setting, boundaries[j])
      invariant forall i, j :: 0 <= i < j < k ==> boundaries[i].id != boundaries[j].id
      invariant forall id :: id in inventory <==> exists j :: 0 <= j < k && boundaries[j].id == id
      invariant forall j :: 0 <= j < k ==>
        boundaries[j].id in inventory && IsInventory(world, boundaries[j].roots, inventory[boundaries[j].id])
    {
      var b := boundaries[k];
      if b.id in inventory {
        return Err(InvalidBoundary(b.id));
      }
      var found := CheckBoundary(world, setting, b, files, height);
      if found.Err? { return Err(found.error); }
      inventory := inventory[b.id := found.value];
    }
    r := Ok(inventory);
  }

  // ----- test modules are blanked in place -----

  /** A test module's attribute position and the position after its opening brace. */
  datatype Opening = Opening(start: nat, body: nat)

  predicate InSome(spans: seq<Span>, i: nat) {
    exists k :: 0 <= k < |spans| && spans[k].start <= i < spans[k].end
  }

  function Blanked(text: string, begin: nat, end: nat): (r: string)
    requires begin <= end <= |text|
    ensures |r| == |text|
  {
    text[..begin] + seq(end - begin, k requires 0 <= k < end - begin => if text[begin + k] == '\n' then '\n' else ' ') + text[end..]
  }

  /** Spans are blanked from the last to the first; nested ones simply lie inside the larger one. */
  method BlankSpans(text: string, spans: seq<Span>) returns (r: string)
    requires forall k :: 0 <= k < |spans| ==> spans[k].start <= spans[k].end <= |text|
    ensures |r| == |text|
    ensures forall i :: 0 <= i < |text| ==> r[i] == if InSome(spans, i) && text[i] != '\n' then ' ' else text[i]
  {
    r := text;
    var k := |spans|;
    while k > 0
      invariant 0 <= k <= |spans| && |r| == |text|
      invariant forall i :: 0 <= i < |text| ==> r[i] == if InSome(spans[k..], i) && text[i] != '\n' then ' ' else text[i]
    {
      k := k - 1;
      var before := r;
      r := Blanked(r, spans[k].start, spans[k].end);
      assert forall j :: 0 < j < |spans[k..]| ==> spans[k..][j] == spans[k + 1..][j - 1];
      forall i | 0 <= i < |text|
        ensures r[i] == if InSome(spans[k..], i) && text[i] != '\n' then ' ' else text[i]
      {
        assert InSome(spans[k..], i) <==> (spans[k].start <= i < spans[k].end) || InSome(spans[k + 1..], i) by {
          OneMoreSpan(spans, k, i);
        }
        assert r[i] == if spans[k].start <= i < spans[k].end && before[i] != '\n' then ' ' else before[i];
      }
    }
    assert spans[0..] == spans;
  }

  lemma OneMoreSpan(spans: seq<Span>, k: nat, i: nat)
    requires k < |spans|
    ensures InSome(spans[k..], i) <==> (spans[k].start <= i < spans[k].end) || InSome(spans[k + 1..], i)
  {
    assert forall j :: 0 < j < |spans[k..]| ==> spans[k..][j] == spans[k + 1..][j - 1];
    if spans[k].start <= i < spans[k].end {
      assert spans[k..][0].start <= i < spans[k..][0].end;
    }
    if InSome(spans[k + 1..], i) {
      var j :| 0 <= j < |spans[k + 1..]| && spans[k + 1..][j].start <= i < spans[k + 1..][j].end;
      assert spans[k..][j + 1] == spans[k + 1..][j];
    }
  }

  /** The brace before `body` has a match. */
  ghost predicate HasMatch(masked: string, body: nat)
    requires body <= |masked|
  {
    exists end: nat :: Closes(masked, body, 1, end, '{', '}')
  }

  /** The text with every test module, from its attribute to its matching brace, replaced by spaces. */
  method WithoutTestModules(text: string, masked: string, openings: seq<Opening>) returns (r: Option<string>, ghost spans: seq<Span>)
    requires |masked| == |text|
    requires forall k :: 0 <= k < |openings| ==> openings[k].start <= openings[k].body <= |text|
    ensures r.Some? <==> forall k :: 0 <= k < |openings| ==> HasMatch(masked, openings[k].body)
    ensures r.Some? ==>
              && |spans| == |openings| && |r.value| == |text|
              && (forall k :: 0 <= k < |openings| ==>
                    spans[k].start == openings[k].start && Closes(masked, openings[k].body, 1, spans[k].end, '{', '}'))
              && (forall i :: 0 <= i < |text| ==>
                    r.value[i] == if InSome(spans, i) && text[i] != '\n' then ' ' else text[i])
  {
    hide Closes;
    var found: seq<Span> := [];
    for k := 0 to |openings|
      invariant |found| == k
      invariant forall j :: 0 <= j < k ==>
        && found[j].start == openings[j].start <= found[j].end <= |text|
        && Closes(masked, openings[j].body, 1, found[j].end, '{', '}')
    {
      var end := FindClose(masked, openings[k].body, '{', '}');
      forall e: nat
        ensures CloseAfter(masked, openings[k].body, 1, '{', '}') == Some(e) <==> Closes(masked, openings[k].body, 1, e, '{', '}')
      {
        CloseAfterIsLeast(masked, openings[k].body, 1, e, '{', '}');
      }
      if end.None? {
        assert !HasMatch(masked, openings[k].body);
        return None, [];
      }
      found := found + [Span(openings[k].start, end.value)];
    }
    forall k | 0 <= k < |openings| ensures HasMatch(masked, openings[k].body) {
      assert Closes(masked, openings[k].body, 1, found[k].end, '{', '}');
    }
    spans := found;
    var blanked := BlankSpans(text, found);
    r := Some(blanked);
  }
}
