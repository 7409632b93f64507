/**
 The closure of production modules below a responsibility root: a worklist over files, directories and
 module declarations.
 */
module Boundaries {
  import opened Wrappers

  type Path = string

  /** A module declaration: whether it is a test module, and where its file may be. */
  datatype Declaration = Declaration(test: bool, candidates: seq<Path>)

  /** What stands at a resolved path. */
  datatype Node =
    | Dir(sources: seq<Path>)
    | Source(production: bool, declarations: seq<Declaration>)
    | Absent

  /** The file system as the search sees it. */
  datatype World = World(isLink: Path -> bool, resolve: Path -> Path, inRoot: Path -> bool, node: Path -> Node)

  datatype BoundaryError = Link(path: Path) | Escapes(path: Path) | Missing(path: Path) | Unresolved(path: Path)

  function IsFile(world: World, path: Path): bool {
    world.node(world.resolve(path)).Source?
  }

  function Existing(world: World, candidates: seq<Path>): seq<Path> {
    if candidates == [] then []
    else (if IsFile(world, candidates[0]) then [candidates[0]] else []) + Existing(world, candidates[1..])
  }

  /** The files of the production modules, or nothing when one cannot be resolved to exactly one file. */
  function ModuleFiles(world: World, declarations: seq<Declaration>): Option<seq<Path>> {
    if declarations == [] then Some([])
    else match ModuleFiles(world, declarations[..|declarations| - 1])
      case None => None
      case Some(paths) =>
        var last := declarations[|declarations| - 1];
        var existing := Existing(world, last.candidates);
        if last.test then Some(paths)
        else if |existing| != 1 then None
        else Some(paths + existing)
  }

  /** The paths a path leads to. */
  function Successors(world: World, path: Path): seq<Path> {
    match world.node(world.resolve(path))
    case Dir(sources) => sources
    case Source(true, declarations) =>
      var paths := ModuleFiles(world, declarations);
      if paths.Some? then paths.value else []
    case Source(false, _) => []
    case Absent => []
  }

  /** Why the search must stop at a path, if it must. */
  function Fault(world: World, path: Path): Option<BoundaryError> {
    var resolved := world.resolve(path);
    if world.isLink(path) then Some(Link(path))
    else if !world.inRoot(resolved) then Some(Escapes(resolved))
    else match world.node(resolved)
      case Dir(_) => None
      case Absent => Some(Missing(resolved))
      case Source(production, declarations) =>
        if production && ModuleFiles(world, declarations).None? then Some(Unresolved(resolved)) else None
  }

  predicate IsProduction(world: World, path: Path) {
    world.node(world.resolve(path)).Source? && world.node(world.resolve(path)).production
  }

  // ----- reachability, told without the search -----

  /** Exactly one of the places where the module's file may be holds a file. */
  ghost predicate HasOneFile(world: World, declaration: Declaration) {
    exists k :: 0 <= k < |declaration.candidates| && IsFileAt(world, declaration, k) &&
      forall j :: 0 <= j < |declaration.candidates| && j != k ==> !IsFileAt(world, declaration, j)
  }

  ghost predicate IsFileAt(world: World, declaration: Declaration, k: nat)
    requires k < |declaration.candidates|
  {
    world.node(world.resolve(declaration.candidates[k])).Source?
  }

  /** Every module that is no test module has exactly one file. */
  ghost predicate IsResolvable(world: World, declarations: seq<Declaration>) {
    forall d :: d in declarations && !d.test ==> HasOneFile(world, d)
  }

  /** The path holds the next one, or it is a production source and the next one is the file of one of its modules. */
  ghost predicate Leads(world: World, path: Path, next: Path) {
    var node := world.node(world.resolve(path));
    || (node.Dir? && next in node.sources)
    || (node.Source? && node.production && IsResolvable(world, node.declarations)
        && world.node(world.resolve(next)).Source? && exists d :: d in node.declarations && !d.test && next in d.candidates)
  }

  /** Why a path cannot be in a closure: the first of these reasons that applies. */
  ghost predicate IsFaulty(world: World, path: Path, error: BoundaryError) {
    var resolved := world.resolve(path);
    if world.isLink(path) then error == Link(path)
    else if !world.inRoot(resolved) then error == Escapes(resolved)
    else if world.node(resolved).Absent? then error == Missing(resolved)
    else
      && world.node(resolved).Source? && world.node(resolved).production
      && !IsResolvable(world, world.node(resolved).declarations) && error == Unresolved(resolved)
  }

  ghost predicate Trace(world: World, trace: seq<Path>) {
    trace != [] && forall k :: 0 <= k < |trace| - 1 ==> Leads(world, trace[k], trace[k + 1])
  }

  lemma {:induction false} ExistingAre(world: World, candidates: seq<Path>)
    ensures forall path :: path in Existing(world, candidates) <==> path in candidates && world.node(world.resolve(path)).Source?
  {
    if candidates != [] {
      ExistingAre(world, candidates[1..]);
      assert forall path :: path in candidates <==> path == candidates[0] || path in candidates[1..];
    }
  }

  lemma {:induction false} ExistingCounts(world: World, d: Declaration)
    ensures |Existing(world, d.candidates)| == 0 <==> forall k :: 0 <= k < |d.candidates| ==> !IsFileAt(world, d, k)
    ensures |Existing(world, d.candidates)| == 1 <==> HasOneFile(world, d)
    decreases |d.candidates|
  {
    hide HasOneFile, IsFileAt;
    if d.candidates != [] {
      var rest := Declaration(d.test, d.candidates[1..]);
      ExistingCounts(world, rest);
      FilesShift(world, d, rest);
    } else {
      NoPlaces(world, d);
    }
  }

  lemma NoPlaces(world: World, d: Declaration)
    requires d.candidates == []
    ensures !HasOneFile(world, d)
  {
  }

  lemma FilesShift(world: World, d: Declaration, rest: Declaration)
    requires d.candidates != [] && rest.candidates == d.candidates[1..]
    ensures IsFile(world, d.candidates[0]) <==> IsFileAt(world, d, 0)
    ensures (forall k :: 0 <= k < |d.candidates| ==> !IsFileAt(world, d, k)) <==>
            !IsFileAt(world, d, 0) && forall k :: 0 <= k < |rest.candidates| ==> !IsFileAt(world, rest, k)
    ensures HasOneFile(world, d) <==>
            if IsFileAt(world, d, 0) then forall k :: 0 <= k < |rest.candidates| ==> !IsFileAt(world, rest, k) else HasOneFile(world, rest)
  {
    assert IsFile(world, d.candidates[0]) <==> IsFileAt(world, d, 0);
    assert forall k :: 0 <= k < |rest.candidates| ==> (IsFileAt(world, rest, k) <==> IsFileAt(world, d, k + 1));
    hide IsFileAt;
    NoneLater(world, d, rest);
    if IsFileAt(world, d, 0) {
      FirstIsFile(world, d, rest);
    } else {
      FirstIsNoFile(world, d, rest);
    }
  }

  /** Places but for the first one. */
  ghost predicate AreLater(world: World, d: Declaration, rest: Declaration) {
    && |d.candidates| == |rest.candidates| + 1
    && forall k :: 0 <= k < |rest.candidates| ==> (IsFileAt(world, rest, k) <==> IsFileAt(world, d, k + 1))
  }

  lemma LaterPlace(world: World, d: Declaration, rest: Declaration, k: nat)
    requires AreLater(world, d, rest) && k < |rest.candidates|
    ensures k + 1 < |d.candidates| && (IsFileAt(world, rest, k) <==> IsFileAt(world, d, k + 1))
  {
  }

  lemma FirstIsFile(world: World, d: Declaration, rest: Declaration)
    requires AreLater(world, d, rest) && IsFileAt(world, d, 0)
    ensures HasOneFile(world, d) <==> forall k :: 0 <= k < |rest.candidates| ==> !IsFileAt(world, rest, k)
  {
    hide IsFileAt, AreLater;
    LaterSize(world, d, rest);
    forall k | 0 <= k < |rest.candidates|
      ensures IsFileAt(world, rest, k) ==> !HasOneFile(world, d)
    {
      LaterPlace(world, d, rest, k);
    }
    if forall k :: 0 <= k < |rest.candidates| ==> !IsFileAt(world, rest, k) {
      forall j | 0 < j < |d.candidates|
        ensures !IsFileAt(world, d, j)
      {
        LaterPlace(world, d, rest, j - 1);
      }
    }
  }

  lemma NoneLater(world: World, d: Declaration, rest: Declaration)
    requires AreLater(world, d, rest)
    ensures (forall k :: 0 <= k < |d.candidates| ==> !IsFileAt(world, d, k)) <==>
            !IsFileAt(world, d, 0) && forall k :: 0 <= k < |rest.candidates| ==> !IsFileAt(world, rest, k)
  {
    hide IsFileAt, AreLater;
    LaterSize(world, d, rest);
    forall k | 0 <= k < |rest.candidates|
      ensures k + 1 < |d.candidates| && (IsFileAt(world, rest, k) <==> IsFileAt(world, d, k + 1))
    {
      LaterPlace(world, d, rest, k);
    }
    if !IsFileAt(world, d, 0) && forall k :: 0 <= k < |rest.candidates| ==> !IsFileAt(world, rest, k) {
      forall k | 0 <= k < |d.candidates|
        ensures !IsFileAt(world, d, k)
      {
        if k > 0 {
          LaterPlace(world, d, rest, k - 1);
        }
      }
    }
  }

  lemma LaterSize(world: World, d: Declaration, rest: Declaration)
    requires AreLater(world, d, rest)
    ensures |d.candidates| == |rest.candidates| + 1
  {
  }

  lemma FirstIsNoFile(world: World, d: Declaration, rest: Declaration)
    requires AreLater(world, d, rest) && !IsFileAt(world, d, 0)
    ensures HasOneFile(world, d) <==> HasOneFile(world, rest)
  {
    hide IsFileAt, AreLater;
    LaterSize(world, d, rest);
    if HasOneFile(world, rest) {
      var k :| 0 <= k < |rest.candidates| && IsFileAt(world, rest, k) &&
        forall j :: 0 <= j < |rest.candidates| && j != k ==> !IsFileAt(world, rest, j);
      LaterPlace(world, d, rest, k);
      forall j | 0 <= j < |d.candidates| && j != k + 1
        ensures !IsFileAt(world, d, j)
      {
        if j > 0 {
          LaterPlace(world, d, rest, j - 1);
        }
      }
    }
    if HasOneFile(world, d) {
      var k :| 0 <= k < |d.candidates| && IsFileAt(world, d, k) && forall j :: 0 <= j < |d.candidates| && j != k ==> !IsFileAt(world, d, j);
      LaterPlace(world, d, rest, k - 1);
      forall j | 0 <= j < |rest.candidates| && j != k - 1
        ensures !IsFileAt(world, rest, j)
      {
        LaterPlace(world, d, rest, j);
      }
    }
  }

  lemma {:induction false} ModuleFilesAre(world: World, declarations: seq<Declaration>)
    ensures ModuleFiles(world, declarations).Some? <==> IsResolvable(world, declarations)
    ensures ModuleFiles(world, declarations).Some? ==> forall path :: path in ModuleFiles(world, declarations).value <==>
              world.node(world.resolve(path)).Source? && exists d :: d in declarations && !d.test && path in d.candidates
  {
    hide HasOneFile, Existing;
    if declarations != [] {
      var front, last := declarations[..|declarations| - 1], declarations[|declarations| - 1];
      ModuleFilesAre(world, front);
      ExistingAre(world, last.candidates);
      ExistingCounts(world, last);
      assert declarations == front + [last];
      assert forall d :: d in declarations <==> d in front || d == last;
    }
  }

  /** The search goes exactly where a path leads, and stops exactly at what is faulty. */
  lemma SearchIsExact(world: World, path: Path, next: Path, error: BoundaryError)
    ensures next in Successors(world, path) <==> Leads(world, path, next)
    ensures Fault(world, path) == Some(error) <==> IsFaulty(world, path, error)
  {
    hide ModuleFiles, IsResolvable;
    var node := world.node(world.resolve(path));
    if node.Source? {
      ModuleFilesAre(world, node.declarations);
    }
  }

  ghost predicate Reachable(world: World, root: Path, path: Path) {
    exists trace :: Trace(world, trace) && trace[0] == root && trace[|trace| - 1] == path
  }

  /** Files are finitely many, and what a directory holds, other than links, is strictly below it. */
  ghost predicate Finite(world: World, files: set<Path>, height: Path -> nat) {
    && (forall path :: world.inRoot(path) && world.node(path).Source? ==> path in files)
    && (forall path :: world.node(path).Dir? ==>
          forall entry :: entry in world.node(path).sources && !world.isLink(entry) ==>
            height(world.resolve(entry)) < height(path))
  }

  // ----- termination -----

  /** How many pops a path can still cost if no new file is found. */
  ghost function Cost(world: World, files: set<Path>, height: Path -> nat, path: Path): (n: nat)
    requires Finite(world, files, height)
    ensures n > 0
    decreases height(world.resolve(path)), 1, 0
  {
    var resolved := world.resolve(path);
    if world.isLink(path) then 1
    else match world.node(resolved)
      case Dir(sources) =>
        assert forall entry :: entry in sources && !world.isLink(entry) ==> height(world.resolve(entry)) < height(resolved);
        1 + CostOf(world, files, height, sources, height(resolved))
      case _ => 1
  }

  ghost function CostOf(world: World, files: set<Path>, height: Path -> nat, paths: seq<Path>, bound: nat): nat
    requires Finite(world, files, height)
    requires forall path :: path in paths && !world.isLink(path) ==> height(world.resolve(path)) < bound
    decreases bound, 0, |paths|
  {
    if paths == [] then 0
    else
      var first := if world.isLink(paths[0]) then 1 else Cost(world, files, height, paths[0]);
      first + CostOf(world, files, height, paths[1..], bound)
  }

  ghost function Pending(world: World, files: set<Path>, height: Path -> nat, paths: seq<Path>): nat
    requires Finite(world, files, height)
    decreases |paths|
  {
    if paths == [] then 0
    else Pending(world, files, height, paths[..|paths| - 1]) + Cost(world, files, height, paths[|paths| - 1])
  }

  lemma {:induction false} PendingExtends(world: World, files: set<Path>, height: Path -> nat, paths: seq<Path>, more: seq<Path>)
    requires Finite(world, files, height)
    ensures Pending(world, files, height, paths + more)
         == Pending(world, files, height, paths) + Pending(world, files, height, more)
    decreases |more|
  {
    hide Finite;
    if more == [] {
      assert paths + more == paths;
    } else {
      PendingExtends(world, files, height, paths, more[..|more| - 1]);
      assert (paths + more)[..|paths + more| - 1] == paths + more[..|more| - 1];
    }
  }

  lemma {:induction false} CostIsPending(world: World, files: set<Path>, height: Path -> nat, paths: seq<Path>, bound: nat)
    requires Finite(world, files, height)
    requires forall path :: path in paths && !world.isLink(path) ==> height(world.resolve(path)) < bound
    ensures CostOf(world, files, height, paths, bound) == Pending(world, files, height, paths)
    decreases |paths|
  {
    hide Finite;
    if paths != [] {
      CostIsPending(world, files, height, paths[1..], bound);
      PendingExtends(world, files, height, [paths[0]], paths[1..]);
      assert [paths[0]] + paths[1..] == paths;
      assert [paths[0]][..0] == [];
      assert Pending(world, files, height, [paths[0]]) == Cost(world, files, height, paths[0]);
    }
  }

  // ----- the worklist -----

  method ResolveModules(world: World, declarations: seq<Declaration>) returns (paths: Option<seq<Path>>)
    ensures paths == ModuleFiles(world, declarations)
  {
    var pending: seq<Path> := [];
    for k := 0 to |declarations|
      invariant ModuleFiles(world, declarations[..k]) == Some(pending)
    {
      assert declarations[..k + 1][..k] == declarations[..k];
      if declarations[k].test {
        continue;
      }
      var existing := Existing(world, declarations[k].candidates);
      if |existing| != 1 {
        NoneStays(world, declarations, k + 1);
        return None;
      }
      pending := pending + existing;
    }
    assert declarations[..|declarations|] == declarations;
    paths := Some(pending);
  }

  lemma {:induction false} NoneStays(world: World, declarations: seq<Declaration>, k: nat)
    requires k <= |declarations| && ModuleFiles(world, declarations[..k]).None?
    ensures ModuleFiles(world, declarations).None?
    decreases |declarations|
  {
    if k == |declarations| {
      assert declarations[..k] == declarations;
    } else {
      assert declarations[..|declarations| - 1][..k] == declarations[..k];
      NoneStays(world, declarations[..|declarations| - 1], k);
    }
  }

  /** The paths taken off the worklist have led to nothing but themselves and the worklist. */
  ghost predicate Explored(world: World, taken: set<Path>, pending: seq<Path>, found: set<Path>) {
    && (forall path :: path in taken ==> Fault(world, path).None?)
    && (forall path, next :: path in taken && next in Successors(world, path) ==> next in taken || next in pending)
    && (forall path :: path in taken && IsProduction(world, path) ==> world.resolve(path) in found)
    && (forall file :: file in found ==>
          exists path :: path in taken && world.resolve(path) == file && IsProduction(world, path))
  }

  ghost predicate AllReachable(world: World, root: Path, paths: set<Path>, pending: seq<Path>) {
    (forall path :: path in paths ==> Reachable(world, root, path)) &&
    (forall path :: path in pending ==> Reachable(world, root, path))
  }

  lemma RootIsReachable(world: World, root: Path)
    ensures Reachable(world, root, root)
  {
    assert Trace(world, [root]);
  }

  lemma SuccessorIsReachable(world: World, root: Path, path: Path, next: Path)
    requires Reachable(world, root, path) && next in Successors(world, path)
    ensures Reachable(world, root, next)
  {
    var trace :| Trace(world, trace) && trace[0] == root && trace[|trace| - 1] == path;
    var longer := trace + [next];
    SearchIsExact(world, path, next, Link(path));
    assert Trace(world, longer) && longer[0] == root && longer[|longer| - 1] == next;
  }

  /** The production files among the paths reachable from the root. */
  ghost predicate IsClosure(world: World, root: Path, found: set<Path>) {
    forall file :: file in found <==>
      exists path :: Reachable(world, root, path) && IsProduction(world, path) && world.resolve(path) == file
  }

  ghost predicate Faultless(world: World, root: Path) {
    forall path, error :: Reachable(world, root, path) ==> !IsFaulty(world, path, error)
  }

  lemma {:induction false} TraceIsTaken(world: World, taken: set<Path>, found: set<Path>, trace: seq<Path>)
    requires Explored(world, taken, [], found) && Trace(world, trace) && trace[0] in taken
    ensures trace[|trace| - 1] in taken
    decreases |trace|
  {
    if |trace| > 1 {
      var shorter := trace[..|trace| - 1];
      TraceIsTaken(world, taken, found, shorter);
      assert Leads(world, trace[|trace| - 2], trace[|trace| - 2 + 1]);
      SearchIsExact(world, trace[|trace| - 2], trace[|trace| - 1], Link(trace[0]));
    }
  }

  lemma ClosureIsComplete(world: World, root: Path, taken: set<Path>, found: set<Path>)
    requires Explored(world, taken, [], found) && root in taken && AllReachable(world, root, taken, [])
    ensures Faultless(world, root) && IsClosure(world, root, found)
  {
    forall path | Reachable(world, root, path) ensures path in taken {
      var trace :| Trace(world, trace) && trace[0] == root && trace[|trace| - 1] == path;
      TraceIsTaken(world, taken, found, trace);
    }
    forall path, error | path in taken
      ensures !IsFaulty(world, path, error)
    {
      SearchIsExact(world, path, path, error);
    }
  }

  /** Taking a path whose successors all join the worklist, or were explored before under another name. */
  lemma Take(world: World, root: Path, taken: set<Path>, pending: seq<Path>, found: set<Path>,
             path: Path, next: seq<Path>, nextFound: set<Path>)
    requires Explored(world, taken, pending + [path], found) && AllReachable(world, root, taken, pending + [path])
    requires Fault(world, path).None?
    requires if IsProduction(world, path) && world.resolve(path) in found then next == pending
             else next == pending + Successors(world, path)
    requires nextFound == if IsProduction(world, path) then found + {world.resolve(path)} else found
    ensures Explored(world, taken + {path}, next, nextFound) && AllReachable(world, root, taken + {path}, next)
  {
    hide Fault, Reachable;
    forall p | p in next ensures Reachable(world, root, p) {
      if p in Successors(world, path) {
        SuccessorIsReachable(world, root, path, p);
      }
    }
    forall p, s | p in taken + {path} && s in Successors(world, p)
      ensures s in taken + {path} || s in next
    {
      if p == path && IsProduction(world, path) && world.resolve(path) in found {
        var twin :| twin in taken && world.resolve(twin) == world.resolve(path) && IsProduction(world, twin);
        assert s in Successors(world, twin);
      }
    }
  }

  lemma TakeCost(world: World, files: set<Path>, height: Path -> nat, pending: seq<Path>, path: Path)
    requires Finite(world, files, height)
    ensures Pending(world, files, height, pending) < Pending(world, files, height, pending + [path])
    ensures !world.isLink(path) && world.node(world.resolve(path)).Dir? ==>
              Pending(world, files, height, pending + Successors(world, path))
              < Pending(world, files, height, pending + [path])
  {
    assert (pending + [path])[..|pending|] == pending;
    if !world.isLink(path) && world.node(world.resolve(path)).Dir? {
      var sources := world.node(world.resolve(path)).sources;
      PendingExtends(world, files, height, pending, sources);
      CostIsPending(world, files, height, sources, height(world.resolve(path)));
    }
  }

  /**
   The search: it always ends, stops with an error exactly when some reachable path is at fault, and
   otherwise returns exactly the reachable production files.
   */
  method OwnedModules(world: World, root: Path, ghost files: set<Path>, ghost height: Path -> nat)
    returns (r: Result<set<Path>, BoundaryError>)
    requires Finite(world, files, height)
    ensures r.Ok? <==> Faultless(world, root)
    ensures r.Ok? ==> IsClosure(world, root, r.value)
    ensures r.Err? ==> exists path :: Reachable(world, root, path) && IsFaulty(world, path, r.error)
  {
    hide Finite, Reachable, Faultless, Explored, AllReachable, IsClosure, Pending;
    var pending := [root];
    var found: set<Path> := {};
    ghost var taken: set<Path> := {};
    RootIsReachable(world, root);
    Start(world, root);
    while pending != []
      invariant Explored(world, taken, pending, found) && AllReachable(world, root, taken, pending)
      invariant root in taken || root in pending
      invariant found <= files
      decreases files - found, Pending(world, files, height, pending)
    {
      ghost var all := pending;
      var path := pending[|pending| - 1];
      pending := pending[..|pending| - 1];
      assert all == pending + [path];
      IsPending(world, root, taken, pending, path);
      TakeCost(world, files, height, pending, path);
      var resolved := world.resolve(path);
      if world.isLink(path) { FaultFound(world, root, path); return Err(Link(path)); }
      if !world.inRoot(resolved) { FaultFound(world, root, path); return Err(Escapes(resolved)); }
      match world.node(resolved) {
        case Absent =>
          FaultFound(world, root, path);
          return Err(Missing(resolved));
        case Dir(sources) =>
          Take(world, root, taken, pending, found, path, pending + sources, found);
          pending := pending + sources;
        case Source(production, declarations) =>
          IsKnownFile(world, files, height, path);
          if production && resolved !in found {
            var modules := ResolveModules(world, declarations);
            if modules.None? { FaultFound(world, root, path); return Err(Unresolved(resolved)); }
            Take(world, root, taken, pending, found, path, pending + modules.value, found + {resolved});
            found := found + {resolved};
            pending := pending + modules.value;
          } else {
            assert pending + [] == pending;
            KnownFileIsSound(world, taken, all, found, path);
            assert found == if production then found + {resolved} else found;
            Take(world, root, taken, pending, found, path, pending, found);
          }
      }
      taken := taken + {path};
    }
    ClosureIsComplete(world, root, taken, found);
    r := Ok(found);
  }

  lemma Start(world: World, root: Path)
    requires Reachable(world, root, root)
    ensures Explored(world, {}, [root], {}) && AllReachable(world, root, {}, [root])
  {
  }

  lemma IsPending(world: World, root: Path, taken: set<Path>, pending: seq<Path>, path: Path)
    requires AllReachable(world, root, taken, pending + [path])
    ensures Reachable(world, root, path)
  {
    assert path in pending + [path];
  }

  lemma FaultFound(world: World, root: Path, path: Path)
    requires Reachable(world, root, path) && Fault(world, path).Some?
    ensures !Faultless(world, root) && IsFaulty(world, path, Fault(world, path).value)
  {
    SearchIsExact(world, path, path, Fault(world, path).value);
  }

  lemma IsKnownFile(world: World, files: set<Path>, height: Path -> nat, path: Path)
    requires Finite(world, files, height)
    requires world.inRoot(world.resolve(path)) && world.node(world.resolve(path)).Source?
    ensures world.resolve(path) in files
  {
  }

  /** A file met again was already found without fault. */
  lemma KnownFileIsSound(world: World, taken: set<Path>, pending: seq<Path>, found: set<Path>, path: Path)
    requires Explored(world, taken, pending, found)
    requires !world.isLink(path) && world.inRoot(world.resolve(path)) && world.node(world.resolve(path)).Source?
    requires IsProduction(world, path) ==> world.resolve(path) in found
    ensures Fault(world, path).None?
  {
    if IsProduction(world, path) {
      var twin :| twin in taken && world.resolve(twin) == world.resolve(path) && IsProduction(world, twin);
      assert Fault(world, twin).None?;
    }
  }
}
