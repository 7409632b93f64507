/**
 A loaded policy is single-valued and the base/head union neither loses nor weakens a rule.
 All results hold for every per-character case folding and for both path comparison modes.
 */
module CriticalPolicyTheorems {
  import opened CriticalPolicy
  import opened Text
  import opened Wrappers

  // ----- folding preserves prefixes -----

  lemma {:induction false} FoldedJoin(a: string, b: string, fold: char -> string)
    ensures Folded(a + b, fold) == Folded(a, fold) + Folded(b, fold)
    decreases |a|
  {
    if a == "" {
      assert a + b == b;
    } else {
      FoldedJoin(a[1..], b, fold);
      assert (a + b)[1..] == a[1..] + b;
    }
  }

  lemma FoldedPrefix(s: string, prefix: string, fold: char -> string)
    requires StartsWith(s, prefix)
    ensures StartsWith(Folded(s, fold), Folded(prefix, fold))
  {
    assert s == prefix + s[|prefix|..];
    FoldedJoin(prefix, s[|prefix|..], fold);
  }

  /** Whatever the platform, a matching rule matches in folded form too. */
  lemma MatchesFolded(rule: Rule, candidate: string, platform: Platform)
    requires Matches(rule, candidate, platform)
    ensures Matches(rule, candidate, Platform(true, platform.fold))
  {
    if !platform.foldsPaths && rule.kind == Directory {
      FoldedPrefix(candidate, rule.path, platform.fold);
    }
  }

  lemma CommonPrefixes(s: string, a: string, b: string)
    requires StartsWith(s, a) && StartsWith(s, b)
    ensures StartsWith(a, b) || StartsWith(b, a)
  {
    if |b| <= |a| {
      assert a[..|b|] == s[..|a|][..|b|] == s[..|b|];
    } else {
      assert b[..|a|] == s[..|b|][..|a|] == s[..|a|];
    }
  }

  // ----- at most one rule -----

  lemma BothMatchMeansOverlap(first: Rule, second: Rule, candidate: string, platform: Platform)
    requires Matches(first, candidate, platform) && Matches(second, candidate, platform)
    ensures Overlap(first, second, platform.fold)
  {
    MatchesFolded(first, candidate, platform);
    MatchesFolded(second, candidate, platform);
    if first.kind == Directory && second.kind == Directory {
      CommonPrefixes(Folded(candidate, platform.fold), Folded(first.path, platform.fold), Folded(second.path, platform.fold));
    }
  }

  /** Where paths are compared folded, two rules overlap exactly when some path is claimed by both. */
  lemma OverlapIsExact(first: Rule, second: Rule, fold: char -> string)
    ensures Overlap(first, second, fold) <==>
            exists candidate :: Matches(first, candidate, Platform(true, fold)) && Matches(second, candidate, Platform(true, fold))
  {
    var folding := Platform(true, fold);
    if Overlap(first, second, fold) {
      var a, b := Folded(first.path, fold), Folded(second.path, fold);
      var claimed := if first.kind == File || (second.kind == Directory && StartsWith(a, b)) then first.path else second.path;
      assert Matches(first, claimed, folding) && Matches(second, claimed, folding);
    }
    if exists candidate :: Matches(first, candidate, folding) && Matches(second, candidate, folding) {
      var candidate :| Matches(first, candidate, folding) && Matches(second, candidate, folding);
      BothMatchMeansOverlap(first, second, candidate, folding);
    }
  }

  lemma {:induction false} MatchingIsMatching(rules: seq<Rule>, candidate: string, platform: Platform)
    ensures forall rule :: rule in Matching(rules, candidate, platform) <==> rule in rules && Matches(rule, candidate, platform)
    decreases |rules|
  {
    if rules != [] {
      hide Matches;
      MatchingIsMatching(rules[1..], candidate, platform);
      assert rules == [rules[0]] + rules[1..];
    }
  }

  lemma {:induction false} AtMostOneMatches(rules: seq<Rule>, candidate: string, platform: Platform)
    requires PairwiseApart(rules, platform.fold)
    ensures |Matching(rules, candidate, platform)| <= 1
    decreases |rules|
  {
    hide Matches, Overlap;
    if rules != [] {
      AtMostOneMatches(rules[1..], candidate, platform);
      if Matches(rules[0], candidate, platform) && Matching(rules[1..], candidate, platform) != [] {
        MatchingIsMatching(rules[1..], candidate, platform);
        var other := Matching(rules[1..], candidate, platform)[0];
        assert other in Matching(rules[1..], candidate, platform) && other in rules[1..];
        var j :| 0 <= j < |rules[1..]| && rules[1..][j] == other;
        BothMatchMeansOverlap(rules[0], rules[j + 1], candidate, platform);
        assert false;
      }
    }
  }

  /** With a loaded policy the ambiguity error of the lookup cannot happen, for any path. */
  lemma LoadedPolicyNeverAmbiguous(rules: seq<Rule>, candidate: Option<string>, testOnly: string -> bool, platform: Platform)
    requires PairwiseApart(rules, platform.fold)
    ensures Match(rules, candidate, testOnly, platform).Ok?
  {
    if candidate.Some? {
      AtMostOneMatches(rules, candidate.value, platform);
    }
  }

  // ----- what the union contains -----

  predicate HasIdentity(rules: seq<Rule>, id: Identity) {
    exists k :: 0 <= k < |rules| && IdentityOf(rules[k]) == id
  }

  predicate HasOrigin(rules: seq<Rule>, id: Identity, origin: Origin) {
    exists k :: 0 <= k < |rules| && IdentityOf(rules[k]) == id && origin in rules[k].origins
  }

  predicate InOrder(origins: seq<Origin>) {
    origins == [] || origins == [Base] || origins == [Head] || origins == [Base, Head]
  }

  /** Every entry sits under its own identity with its origins in order. */
  ghost predicate WellKeyed(merged: Merged) {
    forall id :: id in merged ==> IdentityOf(merged[id]) == id && InOrder(merged[id].origins)
  }

  ghost predicate HasOriginIn(merged: Merged, id: Identity, origin: Origin) {
    id in merged && origin in merged[id].origins
  }

  lemma InsertOne(merged: Merged, rule: Rule)
    requires WellKeyed(merged) && InOrder(rule.origins)
    ensures WellKeyed(Insert(merged, rule))
    ensures forall id :: id in Insert(merged, rule) <==> id in merged || IdentityOf(rule) == id
    ensures forall id, origin :: HasOriginIn(Insert(merged, rule), id, origin) <==>
              HasOriginIn(merged, id, origin) || (IdentityOf(rule) == id && origin in rule.origins)
  {
    var id := IdentityOf(rule);
    if id in merged {
      var joined := JoinOrigins(merged[id].origins, rule.origins);
      assert Base in joined <==> Base in merged[id].origins || Base in rule.origins;
      assert Head in joined <==> Head in merged[id].origins || Head in rule.origins;
      assert InOrder(joined);
    }
  }

  lemma IdentityCons(rules: seq<Rule>, id: Identity, origin: Origin)
    requires rules != []
    ensures HasIdentity(rules, id) <==> IdentityOf(rules[0]) == id || HasIdentity(rules[1..], id)
    ensures HasOrigin(rules, id, origin) <==>
              (IdentityOf(rules[0]) == id && origin in rules[0].origins) || HasOrigin(rules[1..], id, origin)
  {
    assert forall k :: 0 < k < |rules| ==> rules[k] == rules[1..][k - 1];
  }

  /** The dictionary holds exactly the identities of the candidates, with exactly their origins. */
  lemma {:induction false} InsertAllIsUnion(merged: Merged, rules: seq<Rule>)
    requires WellKeyed(merged) && forall k :: 0 <= k < |rules| ==> InOrder(rules[k].origins)
    ensures WellKeyed(InsertAll(merged, rules))
    ensures forall id :: id in InsertAll(merged, rules) <==> id in merged || HasIdentity(rules, id)
    ensures forall id, origin :: HasOriginIn(InsertAll(merged, rules), id, origin) <==>
              HasOriginIn(merged, id, origin) || HasOrigin(rules, id, origin)
    decreases |rules|
  {
    hide WellKeyed, Insert, HasOriginIn, InOrder, HasIdentity, HasOrigin, IdentityOf;
    if rules != [] {
      InsertOne(merged, rules[0]);
      InsertAllIsUnion(Insert(merged, rules[0]), rules[1..]);
      var next := Insert(merged, rules[0]);
      forall id
        ensures id in InsertAll(merged, rules) <==> id in merged || HasIdentity(rules, id)
      {
        IdentityCons(rules, id, Base);
      }
      forall id, origin
        ensures HasOriginIn(InsertAll(merged, rules), id, origin) <==>
                  HasOriginIn(merged, id, origin) || HasOrigin(rules, id, origin)
      {
        IdentityCons(rules, id, origin);
        assert HasOriginIn(next, id, origin) <==>
          HasOriginIn(merged, id, origin) || (IdentityOf(rules[0]) == id && origin in rules[0].origins);
      }
    } else {
      NothingIn();
    }
  }

  lemma NothingIn()
    ensures forall id :: !HasIdentity([], id)
    ensures forall id, origin :: !HasOrigin([], id, origin)
  {
  }

  // ----- the merged policy -----

  predicate Origins(rules: seq<Rule>, origin: Origin) {
    forall k :: 0 <= k < |rules| ==> rules[k].origins == [origin]
  }

  lemma IdentityOfSum(a: seq<Rule>, b: seq<Rule>, id: Identity, origin: Origin)
    ensures HasIdentity(a + b, id) <==> HasIdentity(a, id) || HasIdentity(b, id)
    ensures HasOrigin(a + b, id, origin) <==> HasOrigin(a, id, origin) || HasOrigin(b, id, origin)
  {
    assert forall k :: 0 <= k < |a| ==> (a + b)[k] == a[k];
    assert forall k :: 0 <= k < |b| ==> (a + b)[|a| + k] == b[k];
    assert forall k :: |a| <= k < |a + b| ==> (a + b)[k] == b[k - |a|];
  }

  lemma OriginMeansIdentity(rules: seq<Rule>, id: Identity, origin: Origin, asked: Origin)
    requires Origins(rules, origin)
    ensures HasOrigin(rules, id, asked) <==> asked == origin && HasIdentity(rules, id)
  {
  }

  /** The rules a merge works with before sorting: one per identity. */
  ghost predicate IsUnion(rules: seq<Rule>, base: seq<Rule>, head: seq<Rule>) {
    && (forall id :: HasIdentity(rules, id) <==> HasIdentity(base, id) || HasIdentity(head, id))
    && (forall j, k :: 0 <= j < k < |rules| ==> IdentityOf(rules[j]) != IdentityOf(rules[k]))
    && (forall k :: 0 <= k < |rules| ==> rules[k].origins == OriginsOf(IdentityOf(rules[k]), base, head))
  }

  /** Exactly the revisions that declare the rule, base before head. */
  function OriginsOf(id: Identity, base: seq<Rule>, head: seq<Rule>): seq<Origin> {
    (if HasIdentity(base, id) then [Base] else []) + (if HasIdentity(head, id) then [Head] else [])
  }

  lemma OrderedByMembers(origins: seq<Origin>, inBase: bool, inHead: bool)
    requires InOrder(origins) && (Base in origins <==> inBase) && (Head in origins <==> inHead)
    ensures origins == (if inBase then [Base] else []) + (if inHead then [Head] else [])
  {
  }

  lemma EntryOrigins(merged: Merged, base: seq<Rule>, head: seq<Rule>, id: Identity)
    requires Origins(base, Base) && Origins(head, Head)
    requires merged == InsertAll(map[], base + head) && id in merged
    ensures WellKeyed(merged) && merged[id].origins == OriginsOf(id, base, head)
  {
    InsertAllIsUnion(map[], base + head);
    forall origin ensures origin in merged[id].origins <==> HasOrigin(base, id, origin) || HasOrigin(head, id, origin) {
      IdentityOfSum(base, head, id, origin);
      assert HasOriginIn(merged, id, origin) <==> HasOriginIn(map[], id, origin) || HasOrigin(base + head, id, origin);
    }
    OriginMeansIdentity(base, id, Base, Base);
    OriginMeansIdentity(base, id, Base, Head);
    OriginMeansIdentity(head, id, Head, Base);
    OriginMeansIdentity(head, id, Head, Head);
    OrderedByMembers(merged[id].origins, HasIdentity(base, id), HasIdentity(head, id));
  }

  /** The dictionary's values are the union: nothing lost, nothing twice, origins exact. */
  lemma ValuesAreUnion(order: seq<Identity>, base: seq<Rule>, head: seq<Rule>)
    requires Origins(base, Base) && Origins(head, Head)
    requires IsOrderOf(order, InsertAll(map[], base + head))
    ensures IsUnion(Values(order, InsertAll(map[], base + head)), base, head)
  {
    hide InsertAll, Origins, HasOrigin;
    var merged := InsertAll(map[], base + head);
    var rules := Values(order, merged);
    assert forall k :: 0 <= k < |base + head| ==> InOrder((base + head)[k].origins) by { OriginsInOrder(base, head); }
    InsertAllIsUnion(map[], base + head);
    forall k | 0 <= k < |rules|
      ensures IdentityOf(rules[k]) == order[k] && rules[k].origins == OriginsOf(order[k], base, head)
    {
      assert order[k] in merged;
      EntryOrigins(merged, base, head, order[k]);
    }
    forall id ensures HasIdentity(rules, id) <==> HasIdentity(base, id) || HasIdentity(head, id) {
      IdentityOfSum(base, head, id, Base);
      if id in merged {
        assert id in order;
        var k :| 0 <= k < |order| && order[k] == id;
        assert IdentityOf(rules[k]) == id;
      }
    }
  }

  lemma OriginsInOrder(base: seq<Rule>, head: seq<Rule>)
    requires Origins(base, Base) && Origins(head, Head)
    ensures forall k :: 0 <= k < |base + head| ==> InOrder((base + head)[k].origins)
  {
  }

  // ----- sorting keeps the union -----

  lemma {:induction false} InsertSortedKeepsAll(rule: Rule, rules: seq<Rule>, fold: char -> string)
    ensures multiset(InsertSorted(rule, rules, fold)) == multiset(rules) + multiset{rule}
  {
    if rules != [] {
      InsertSortedKeepsAll(rule, rules[1..], fold);
      assert rules == [rules[0]] + rules[1..];
    }
  }

  lemma {:induction false} SortedKeepsAll(rules: seq<Rule>, fold: char -> string)
    ensures multiset(Sorted(rules, fold)) == multiset(rules)
  {
    hide InsertSorted;
    if rules != [] {
      var last := rules[|rules| - 1];
      SortedKeepsAll(rules[..|rules| - 1], fold);
      InsertSortedKeepsAll(last, Sorted(rules[..|rules| - 1], fold), fold);
      assert rules == rules[..|rules| - 1] + [last];
    }
  }

  lemma Rearranged(a: seq<Rule>, b: seq<Rule>, k: nat) returns (j: nat)
    requires multiset(a) == multiset(b) && k < |a|
    ensures j < |b| && b[j] == a[k]
  {
    assert a[k] in multiset(b);
    j :| 0 <= j < |b| && b[j] == a[k];
  }

  lemma {:induction false} DistinctIsCountedOnce(rules: seq<Rule>, j: nat, k: nat)
    requires j < k < |rules| && rules[j] == rules[k]
    ensures multiset(rules)[rules[j]] >= 2
  {
    assert rules == rules[..k] + [rules[k]] + rules[k + 1..];
    assert rules[j] in rules[..k];
  }

  lemma SortedIsUnion(rules: seq<Rule>, sorted: seq<Rule>, base: seq<Rule>, head: seq<Rule>)
    requires IsUnion(rules, base, head) && multiset(rules) == multiset(sorted)
    ensures IsUnion(sorted, base, head)
  {
    hide OriginsOf;
    forall id ensures HasIdentity(sorted, id) <==> HasIdentity(rules, id) {
      SameIdentities(rules, sorted, id);
    }
    forall k | 0 <= k < |sorted| ensures sorted[k].origins == OriginsOf(IdentityOf(sorted[k]), base, head) {
      var j := Rearranged(sorted, rules, k);
    }
    forall j, k | 0 <= j < k < |sorted| ensures IdentityOf(sorted[j]) != IdentityOf(sorted[k]) {
      StillDistinct(rules, sorted, j, k);
    }
  }

  lemma SameIdentities(a: seq<Rule>, b: seq<Rule>, id: Identity)
    requires multiset(a) == multiset(b)
    ensures HasIdentity(a, id) <==> HasIdentity(b, id)
  {
    if HasIdentity(a, id) {
      var k :| 0 <= k < |a| && IdentityOf(a[k]) == id;
      var j := Rearranged(a, b, k);
    }
    if HasIdentity(b, id) {
      var k :| 0 <= k < |b| && IdentityOf(b[k]) == id;
      var j := Rearranged(b, a, k);
    }
  }

  lemma StillDistinct(a: seq<Rule>, b: seq<Rule>, j: nat, k: nat)
    requires multiset(a) == multiset(b) && j < k < |b|
    requires forall x, y :: 0 <= x < y < |a| ==> IdentityOf(a[x]) != IdentityOf(a[y])
    ensures IdentityOf(b[j]) != IdentityOf(b[k])
  {
    var x := Rearranged(b, a, j);
    var y := Rearranged(b, a, k);
    if x == y {
      DistinctIsCountedOnce(b, j, k);
      CountedOnce(a, x);
      assert false;
    }
  }

  lemma CountedOnce(rules: seq<Rule>, x: nat)
    requires x < |rules|
    requires forall i, j :: 0 <= i < j < |rules| ==> IdentityOf(rules[i]) != IdentityOf(rules[j])
    ensures multiset(rules)[rules[x]] == 1
  {
    assert rules == rules[..x] + [rules[x]] + rules[x + 1..];
    assert rules[x] !in rules[..x];
    assert rules[x] !in rules[x + 1..];
  }

  // ----- the union's meaning -----

  /** The merge, as the method computes it, for one insertion order of the dictionary. */
  function Merge(order: seq<Identity>, base: seq<Rule>, head: seq<Rule>, fold: char -> string): seq<Rule>
    requires forall id :: id in order ==> id in InsertAll(map[], base + head)
  {
    Sorted(Values(order, InsertAll(map[], base + head)), fold)
  }

  /** Merging keeps every identity of both revisions once and records exactly where each was declared. */
  lemma MergeIsUnion(order: seq<Identity>, base: seq<Rule>, head: seq<Rule>, fold: char -> string)
    requires Origins(base, Base) && Origins(head, Head)
    requires IsOrderOf(order, InsertAll(map[], base + head))
    ensures IsUnion(Merge(order, base, head, fold), base, head)
  {
    hide Sorted, InsertAll;
    ValuesAreUnion(order, base, head);
    var rules := Values(order, InsertAll(map[], base + head));
    SortedKeepsAll(rules, fold);
    SortedIsUnion(rules, Sorted(rules, fold), base, head);
  }

  predicate Claims(rules: seq<Rule>, candidate: string, platform: Platform) {
    exists k :: 0 <= k < |rules| && Matches(rules[k], candidate, platform)
  }

  lemma SameIdentitySameMatch(a: Rule, b: Rule, candidate: string, platform: Platform)
    requires IdentityOf(a) == IdentityOf(b)
    ensures Matches(a, candidate, platform) == Matches(b, candidate, platform)
  {
  }

  lemma ClaimCarries(from: seq<Rule>, to: seq<Rule>, candidate: string, platform: Platform)
    requires forall id :: HasIdentity(from, id) ==> HasIdentity(to, id)
    ensures Claims(from, candidate, platform) ==> Claims(to, candidate, platform)
  {
    if Claims(from, candidate, platform) {
      var k :| 0 <= k < |from| && Matches(from[k], candidate, platform);
      assert HasIdentity(from, IdentityOf(from[k]));
      var j :| 0 <= j < |to| && IdentityOf(to[j]) == IdentityOf(from[k]);
      SameIdentitySameMatch(from[k], to[j], candidate, platform);
    }
  }

  /** A path is critical under the union exactly when it is critical under base or under head. */
  lemma UnionClaimsExactly(rules: seq<Rule>, base: seq<Rule>, head: seq<Rule>, candidate: string, platform: Platform)
    requires IsUnion(rules, base, head)
    ensures Claims(rules, candidate, platform) <==>
            Claims(base, candidate, platform) || Claims(head, candidate, platform)
  {
    hide IsUnion, Claims, HasIdentity, Matches;
    UnionIdentities(rules, base, head);
    ClaimCarries(base, rules, candidate, platform);
    ClaimCarries(head, rules, candidate, platform);
    forall id ensures HasIdentity(rules, id) ==> HasIdentity(base + head, id) {
      IdentityOfSum(base, head, id, Base);
    }
    ClaimCarries(rules, base + head, candidate, platform);
    ClaimOfSum(base, head, candidate, platform);
  }

  lemma UnionIdentities(rules: seq<Rule>, base: seq<Rule>, head: seq<Rule>)
    requires IsUnion(rules, base, head)
    ensures forall id :: HasIdentity(rules, id) <==> HasIdentity(base, id) || HasIdentity(head, id)
  {
  }

  lemma ClaimOfSum(a: seq<Rule>, b: seq<Rule>, candidate: string, platform: Platform)
    ensures Claims(a + b, candidate, platform) ==> Claims(a, candidate, platform) || Claims(b, candidate, platform)
  {
    if Claims(a + b, candidate, platform) {
      SplitClaim(a, b, candidate, platform);
    }
  }

  lemma SplitClaim(a: seq<Rule>, b: seq<Rule>, candidate: string, platform: Platform)
    requires Claims(a + b, candidate, platform)
    ensures Claims(a, candidate, platform) || Claims(b, candidate, platform)
  {
    var k :| 0 <= k < |a + b| && Matches((a + b)[k], candidate, platform);
    assert (a + b)[k] == if k < |a| then a[k] else b[k - |a|];
  }

  /** Both revisions' rules pairwise: different rules never overlap. */
  ghost predicate JointlyApart(base: seq<Rule>, head: seq<Rule>, fold: char -> string) {
    forall i, j :: 0 <= i < |base + head| && 0 <= j < |base + head| &&
                   IdentityOf((base + head)[i]) != IdentityOf((base + head)[j]) ==>
                   !Overlap((base + head)[i], (base + head)[j], fold)
  }

  lemma OverlapIsSymmetric(a: Rule, b: Rule, fold: char -> string)
    ensures Overlap(a, b, fold) == Overlap(b, a, fold)
  {
  }

  lemma SameIdentitySameOverlap(a: Rule, a': Rule, b: Rule, b': Rule, fold: char -> string)
    requires IdentityOf(a) == IdentityOf(a') && IdentityOf(b) == IdentityOf(b')
    ensures Overlap(a, b, fold) == Overlap(a', b', fold)
  {
  }

  lemma HasIdentityAt(rules: seq<Rule>, id: Identity) returns (k: nat)
    requires HasIdentity(rules, id)
    ensures k < |rules| && IdentityOf(rules[k]) == id
  {
    k :| 0 <= k < |rules| && IdentityOf(rules[k]) == id;
  }

  /** The union is rejected exactly when two different rules of the two revisions overlap. */
  lemma UnionIsApart(rules: seq<Rule>, base: seq<Rule>, head: seq<Rule>, fold: char -> string)
    requires IsUnion(rules, base, head)
    ensures PairwiseApart(rules, fold) <==> JointlyApart(base, head, fold)
  {
    hide Overlap, OriginsOf;
    var both := base + head;
    forall id ensures HasIdentity(rules, id) <==> HasIdentity(both, id) {
      IdentityOfSum(base, head, id, Base);
    }
    if PairwiseApart(rules, fold) {
      forall i, j | 0 <= i < |both| && 0 <= j < |both| && IdentityOf(both[i]) != IdentityOf(both[j])
        ensures !Overlap(both[i], both[j], fold)
      {
        assert HasIdentity(both, IdentityOf(both[i])) && HasIdentity(both, IdentityOf(both[j]));
        var x := HasIdentityAt(rules, IdentityOf(both[i]));
        var y := HasIdentityAt(rules, IdentityOf(both[j]));
        SameIdentitySameOverlap(both[i], rules[x], both[j], rules[y], fold);
        OverlapIsSymmetric(rules[x], rules[y], fold);
      }
    }
    if JointlyApart(base, head, fold) {
      forall x, y | 0 <= x < y < |rules|
        ensures !Overlap(rules[x], rules[y], fold)
      {
        assert HasIdentity(rules, IdentityOf(rules[x])) && HasIdentity(rules, IdentityOf(rules[y]));
        var i := HasIdentityAt(both, IdentityOf(rules[x]));
        var j := HasIdentityAt(both, IdentityOf(rules[y]));
        SameIdentitySameOverlap(rules[x], both[i], rules[y], both[j], fold);
      }
    }
  }

  lemma MatchIsMember(rules: seq<Rule>, candidate: string, testOnly: string -> bool, platform: Platform, rule: Rule)
    requires Match(rules, Some(candidate), testOnly, platform) == Ok(Some(rule))
    ensures EndsWith(candidate, ".rs") && !testOnly(candidate)
    ensures rule in rules && Matches(rule, candidate, platform)
  {
    hide Matches;
    MatchingIsMatching(rules, candidate, platform);
    assert rule in Matching(rules, candidate, platform);
  }

  lemma MemberIsMatch(rules: seq<Rule>, candidate: string, testOnly: string -> bool, platform: Platform, rule: Rule)
    requires PairwiseApart(rules, platform.fold) && EndsWith(candidate, ".rs") && !testOnly(candidate)
    requires rule in rules && Matches(rule, candidate, platform)
    ensures Match(rules, Some(candidate), testOnly, platform) == Ok(Some(rule))
  {
    hide Matches, Overlap;
    AtMostOneMatches(rules, candidate, platform);
    MatchingIsMatching(rules, candidate, platform);
    assert rule in Matching(rules, candidate, platform);
  }

  /**
   A change cannot weaken its own classification: whatever either revision's policy makes critical is
   critical, by the same rule, under an accepted union, and the lookup in that union never fails.
   */
  lemma UnionNeverWeakens(rules: seq<Rule>, base: seq<Rule>, head: seq<Rule>, candidate: string,
                          testOnly: string -> bool, platform: Platform, declared: Rule)
    requires IsUnion(rules, base, head) && PairwiseApart(rules, platform.fold)
    ensures Match(rules, Some(candidate), testOnly, platform).Ok?
    ensures (Match(base, Some(candidate), testOnly, platform) == Ok(Some(declared)) ||
             Match(head, Some(candidate), testOnly, platform) == Ok(Some(declared))) ==>
              var found := Match(rules, Some(candidate), testOnly, platform).value;
              found.Some? && IdentityOf(found.value) == IdentityOf(declared)
  {
    hide Overlap, Matches, IsUnion, Match, HasIdentity, IdentityOf;
    LoadedPolicyNeverAmbiguous(rules, Some(candidate), testOnly, platform);
    UnionIdentities(rules, base, head);
    if Match(base, Some(candidate), testOnly, platform) == Ok(Some(declared)) {
      MatchIsMember(base, candidate, testOnly, platform, declared);
    } else if Match(head, Some(candidate), testOnly, platform) == Ok(Some(declared)) {
      MatchIsMember(head, candidate, testOnly, platform, declared);
    } else {
      return;
    }
    MemberHasIdentity(base, head, declared);
    var k := HasIdentityAt(rules, IdentityOf(declared));
    SameIdentitySameMatch(declared, rules[k], candidate, platform);
    MemberIsMatch(rules, candidate, testOnly, platform, rules[k]);
  }

  lemma MemberHasIdentity(base: seq<Rule>, head: seq<Rule>, rule: Rule)
    requires rule in base || rule in head
    ensures HasIdentity(base, IdentityOf(rule)) || HasIdentity(head, IdentityOf(rule))
  {
  }
}
