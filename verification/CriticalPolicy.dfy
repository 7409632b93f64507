/**
 The critical-path policy: rules that name a file or a directory, the overlap test the loader applies, and
 the union of the base and the head revision's rules.
 */
module CriticalPolicy {
  import opened Text
  import opened Wrappers

  datatype MatchKind = File | Directory

  datatype Origin = Base | Head

  datatype Rule = Rule(
    identifier: string, category: string, owner: string, kind: MatchKind, path: string, origins: seq<Origin>)

  /** Everything that makes two rules the same rule; the origins only record where it was seen. */
  datatype Identity = Identity(identifier: string, category: string, owner: string, kind: MatchKind, path: string)

  /** Case folding character by character, and whether the platform compares paths folded. */
  datatype Platform = Platform(foldsPaths: bool, fold: char -> string)

  function Folded(s: string, fold: char -> string): string {
    if s == "" then "" else fold(s[0]) + Folded(s[1..], fold)
  }

  function PathKey(path: string, platform: Platform): string {
    if platform.foldsPaths then Folded(path, platform.fold) else path
  }

  predicate Matches(rule: Rule, candidate: string, platform: Platform) {
    var path, configured := PathKey(candidate, platform), PathKey(rule.path, platform);
    if rule.kind == File then path == configured else StartsWith(path, configured)
  }

  /** Two rules could claim the same path on some platform. */
  predicate Overlap(first: Rule, second: Rule, fold: char -> string) {
    var a, b := Folded(first.path, fold), Folded(second.path, fold);
    if first.kind == File && second.kind == File then a == b
    else if first.kind == Directory && second.kind == Directory then StartsWith(a, b) || StartsWith(b, a)
    else if first.kind == Directory then StartsWith(b, a)
    else StartsWith(a, b)
  }

  function Matching(rules: seq<Rule>, candidate: string, platform: Platform): seq<Rule> {
    if rules == [] then []
    else (if Matches(rules[0], candidate, platform) then [rules[0]] else []) + Matching(rules[1..], candidate, platform)
  }

  datatype PolicyError = AmbiguousPath | AmbiguousUnion

  /** The rule that makes a production source path critical. Other paths never match. */
  function Match(rules: seq<Rule>, candidate: Option<string>, testOnly: string -> bool, platform: Platform)
    : Result<Option<Rule>, PolicyError>
  {
    if candidate.None? || !EndsWith(candidate.value, ".rs") || testOnly(candidate.value) then Ok(None)
    else
      var matches := Matching(rules, candidate.value, platform);
      if |matches| > 1 then Err(AmbiguousPath)
      else if |matches| == 1 then Ok(Some(matches[0]))
      else Ok(None)
  }

  ghost predicate PairwiseApart(rules: seq<Rule>, fold: char -> string) {
    forall i, j :: 0 <= i < j < |rules| ==> !Overlap(rules[i], rules[j], fold)
  }

  /** The loader's double loop: is any pair of rules in conflict? */
  method FindOverlap(rules: seq<Rule>, fold: char -> string) returns (found: bool)
    ensures !found <==> PairwiseApart(rules, fold)
  {
    for i := 0 to |rules|
      invariant forall k, j :: 0 <= k < i && k < j < |rules| ==> !Overlap(rules[k], rules[j], fold)
    {
      for j := i + 1 to |rules|
        invariant forall m :: i < m < j ==> !Overlap(rules[i], rules[m], fold)
      {
        if Overlap(rules[i], rules[j], fold) {
          return true;
        }
      }
    }
    found := false;
  }

  // ----- the base/head union -----

  function IdentityOf(rule: Rule): Identity {
    Identity(rule.identifier, rule.category, rule.owner, rule.kind, rule.path)
  }

  /** Origins in their fixed order, each at most once. */
  function JoinOrigins(a: seq<Origin>, b: seq<Origin>): seq<Origin> {
    (if Base in a || Base in b then [Base] else []) + (if Head in a || Head in b then [Head] else [])
  }

  function Join(existing: Rule, rule: Rule): Rule {
    existing.(origins := JoinOrigins(existing.origins, rule.origins))
  }

  type Merged = map<Identity, Rule>

  function Insert(merged: Merged, rule: Rule): Merged {
    var id := IdentityOf(rule);
    merged[id := if id in merged then Join(merged[id], rule) else rule]
  }

  function InsertAll(merged: Merged, rules: seq<Rule>): Merged
    decreases |rules|
  {
    if rules == [] then merged else InsertAll(Insert(merged, rules[0]), rules[1..])
  }

  // ----- sorting by folded path, kind, identifier, category and owner -----

  /** Lexicographic order on texts: strictly before, equal, or strictly after. */
  datatype Order = Less | Equal | Greater

  function CompareText(a: string, b: string): Order {
    if a == "" && b == "" then Equal
    else if a == "" then Less
    else if b == "" then Greater
    else if a[0] < b[0] then Less
    else if a[0] > b[0] then Greater
    else CompareText(a[1..], b[1..])
  }

  function KindText(kind: MatchKind): string {
    if kind == File then "file" else "directory"
  }

  function CompareKeys(a: seq<string>, b: seq<string>): Order {
    if a == [] && b == [] then Equal
    else if a == [] then Less
    else if b == [] then Greater
    else
      var first := CompareText(a[0], b[0]);
      if first.Equal? then CompareKeys(a[1..], b[1..]) else first
  }

  function SortKey(rule: Rule, fold: char -> string): seq<string> {
    [Folded(rule.path, fold), KindText(rule.kind), rule.identifier, rule.category, rule.owner]
  }

  function InsertSorted(rule: Rule, rules: seq<Rule>, fold: char -> string): seq<Rule> {
    if rules == [] || CompareKeys(SortKey(rule, fold), SortKey(rules[0], fold)).Less? then [rule] + rules
    else [rules[0]] + InsertSorted(rule, rules[1..], fold)
  }

  function Sorted(rules: seq<Rule>, fold: char -> string): seq<Rule> {
    if rules == [] then [] else InsertSorted(rules[|rules| - 1], Sorted(rules[..|rules| - 1], fold), fold)
  }

  function Values(order: seq<Identity>, merged: Merged): (rules: seq<Rule>)
    requires forall id :: id in order ==> id in merged
    ensures |rules| == |order|
    ensures forall k :: 0 <= k < |order| ==> rules[k] == merged[order[k]]
  {
    seq(|order|, k requires 0 <= k < |order| => merged[order[k]])
  }

  /** The insertion order of a dictionary's keys. */
  ghost predicate IsOrderOf(order: seq<Identity>, merged: Merged) {
    (forall id :: id in merged <==> id in order) &&
    (forall j, k :: 0 <= j < k < |order| ==> order[j] != order[k])
  }

  /** One turn of the merge loop: a new identity is appended, a known one only gains origins. */
  method Remember(merged: Merged, keys: seq<Identity>, rule: Rule) returns (next: Merged, nextKeys: seq<Identity>)
    requires IsOrderOf(keys, merged)
    ensures next == Insert(merged, rule) && IsOrderOf(nextKeys, next)
  {
    var id := IdentityOf(rule);
    if id !in merged {
      next := merged[id := rule];
      nextKeys := keys + [id];
    } else {
      var existing := merged[id];
      var origins := JoinOrigins(existing.origins, rule.origins);
      next := merged[id := existing.(origins := origins)];
      nextKeys := keys;
    }
  }

  method MergeCriticalPathPolicies(head: seq<Rule>, base: Option<seq<Rule>>, fold: char -> string)
    returns (r: Result<seq<Rule>, PolicyError>, ghost order: seq<Identity>)
    ensures var merged := InsertAll(map[], (if base.Some? then base.value else []) + head);
            IsOrderOf(order, merged) &&
            var rules := Sorted(Values(order, merged), fold);
            r == if PairwiseApart(rules, fold) then Ok(rules) else Err(AmbiguousUnion)
  {
    hide Sorted, Insert, PairwiseApart;
    var candidates := (if base.Some? then base.value else []) + head;
    var merged: Merged := map[];
    var keys: seq<Identity> := [];
    for k := 0 to |candidates|
      invariant InsertAll(map[], candidates) == InsertAll(merged, candidates[k..])
      invariant IsOrderOf(keys, merged)
    {
      assert candidates[k..][1..] == candidates[k + 1..];
      merged, keys := Remember(merged, keys, candidates[k]);
    }
    order := keys;
    var rules := Sorted(Values(keys, merged), fold);
    var ambiguous := FindOverlap(rules, fold);
    r := if ambiguous then Err(AmbiguousUnion) else Ok(rules);
  }
}
