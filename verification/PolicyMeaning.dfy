/**
 What the critical-path policy means, spelled out: which paths a rule names, which rules a merge holds and in which
 order, and when a merge is refused.
 */
module PolicyMeaning {
  import opened CriticalPolicy
  import opened CriticalPolicyOrder
  import opened CriticalPolicyTheorems
  import opened Wrappers

  // ----- lookups -----

  /** The path names a Rust source. */
  predicate IsRust(path: Option<string>) {
    path.Some? && |path.value| >= 3 && path.value[|path.value| - 3..] == ".rs"
  }

  /** How the platform compares a path: unchanged, or folded character by character. */
  function KeyOn(path: string, platform: Platform): string {
    if platform.foldsPaths then Folded(path, platform.fold) else path
  }

  /** The rule names this very file, or a directory above it. */
  predicate Names(rule: Rule, path: string, platform: Platform) {
    var named, asked := KeyOn(rule.path, platform), KeyOn(path, platform);
    if rule.kind.File? then asked == named else |named| <= |asked| && asked[..|named|] == named
  }

  predicate IsProductionPath(path: Option<string>, testOnly: string -> bool) {
    IsRust(path) && !testOnly(path.value)
  }

  /** The rule protects the production path. */
  predicate IsProtectedBy(path: Option<string>, rule: Rule, testOnly: string -> bool, platform: Platform) {
    IsProductionPath(path, testOnly) && Names(rule, path.value, platform)
  }

  ghost predicate IsProtected(rules: seq<Rule>, path: Option<string>, testOnly: string -> bool, platform: Platform) {
    exists k :: 0 <= k < |rules| && IsProtectedBy(path, rules[k], testOnly, platform)
  }

  ghost predicate IsProtectedTwice(rules: seq<Rule>, path: Option<string>, testOnly: string -> bool, platform: Platform) {
    exists j, k :: 0 <= j < k < |rules| && IsProtectedBy(path, rules[j], testOnly, platform)
      && IsProtectedBy(path, rules[k], testOnly, platform)
  }

  lemma NamesIsMatch(rule: Rule, path: string, platform: Platform)
    ensures Matches(rule, path, platform) <==> Names(rule, path, platform)
  {
  }

  lemma {:induction false} MatchingCounts(rules: seq<Rule>, path: string, platform: Platform)
    ensures |Matching(rules, path, platform)| > 0 <==> exists k :: 0 <= k < |rules| && Names(rules[k], path, platform)
    ensures |Matching(rules, path, platform)| > 1 <==>
            exists j, k :: 0 <= j < k < |rules| && Names(rules[j], path, platform) && Names(rules[k], path, platform)
    ensures forall rule :: rule in Matching(rules, path, platform) ==> rule in rules && Names(rule, path, platform)
  {
    hide Matches, Names;
    if rules != [] {
      var rest := rules[1..];
      MatchingCounts(rest, path, platform);
      NamesIsMatch(rules[0], path, platform);
      assert forall k :: 0 < k < |rules| ==> rules[k] == rest[k - 1];
      if k :| 0 <= k < |rest| && Names(rest[k], path, platform) {
        assert rules[k + 1] == rest[k];
      }
      if j, k :| 0 <= j < k < |rest| && Names(rest[j], path, platform) && Names(rest[k], path, platform) {
        assert rules[j + 1] == rest[j] && rules[k + 1] == rest[k];
      }
    }
  }

  /** A lookup fails exactly when two rules protect the path, and else finds one exactly when one does. */
  lemma MatchSays(rules: seq<Rule>, path: Option<string>, testOnly: string -> bool, platform: Platform)
    ensures var found := Match(rules, path, testOnly, platform);
            && (found.Err? <==> IsProtectedTwice(rules, path, testOnly, platform))
            && (found.Ok? ==> (found.value.Some? <==> IsProtected(rules, path, testOnly, platform)))
            && (found.Ok? && found.value.Some? ==> found.value.value in rules && IsProtectedBy(path, found.value.value, testOnly, platform))
  {
    hide Matches, Names, Matching;
    if path.Some? {
      MatchingCounts(rules, path.value, platform);
    }
  }

  // ----- merges -----

  /** The same rule, wherever it was declared. */
  predicate SameRule(a: Rule, b: Rule) {
    a.identifier == b.identifier && a.category == b.category && a.owner == b.owner && a.kind == b.kind && a.path == b.path
  }

  predicate Declares(rules: seq<Rule>, rule: Rule) {
    exists k :: 0 <= k < |rules| && SameRule(rules[k], rule)
  }

  lemma IdentityIsRule(a: Rule, b: Rule)
    ensures IdentityOf(a) == IdentityOf(b) <==> SameRule(a, b)
  {
  }

  lemma DeclaringIsHaving(rules: seq<Rule>, rule: Rule)
    ensures HasIdentity(rules, IdentityOf(rule)) <==> Declares(rules, rule)
  {
    hide IdentityOf, SameRule;
    forall k | 0 <= k < |rules|
      ensures IdentityOf(rules[k]) == IdentityOf(rule) <==> SameRule(rules[k], rule)
    {
      IdentityIsRule(rules[k], rule);
    }
  }

  /** A merge declares what base or head declares, each rule once, and marks it with the revisions that do. */
  lemma UnionMeans(rules: seq<Rule>, base: seq<Rule>, head: seq<Rule>)
    requires IsUnion(rules, base, head)
    ensures forall rule :: Declares(rules, rule) <==> Declares(base, rule) || Declares(head, rule)
    ensures forall j, k :: 0 <= j < k < |rules| ==> !SameRule(rules[j], rules[k])
    ensures forall k :: 0 <= k < |rules| ==>
              rules[k].origins == (if Declares(base, rules[k]) then [Base] else []) + (if Declares(head, rules[k]) then [Head] else [])
  {
    hide IdentityOf, SameRule, HasIdentity, Declares;
    forall rule
      ensures Declares(rules, rule) <==> Declares(base, rule) || Declares(head, rule)
    {
      DeclaringIsHaving(rules, rule);
      DeclaringIsHaving(base, rule);
      DeclaringIsHaving(head, rule);
    }
    forall j, k | 0 <= j < k < |rules|
      ensures !SameRule(rules[j], rules[k])
    {
      IdentityIsRule(rules[j], rules[k]);
    }
    forall k | 0 <= k < |rules|
      ensures rules[k].origins == (if Declares(base, rules[k]) then [Base] else []) + (if Declares(head, rules[k]) then [Head] else [])
    {
      DeclaringIsHaving(base, rules[k]);
      DeclaringIsHaving(head, rules[k]);
    }
  }

  // ----- the order -----

  /** `a` is a proper front of `b`, or smaller at the first difference. */
  ghost predicate TextBefore(a: string, b: string) {
    exists k :: 0 <= k <= |a| && k < |b| && a[..k] == b[..k] && (k == |a| || a[k] < b[k])
  }

  lemma {:induction false} TextIsBefore(a: string, b: string)
    ensures CompareText(a, b).Less? <==> TextBefore(a, b)
  {
    if a == "" || b == "" {
      if b != "" {
        assert a[..0] == b[..0];
      }
    } else {
      TextIsBefore(a[1..], b[1..]);
      if a[0] < b[0] {
        assert a[..0] == b[..0];
      } else if a[0] == b[0] {
        FrontsShift(a, b);
      } else {
        forall k | 0 < k <= |a| && k < |b|
          ensures a[..k] != b[..k]
        {
          assert a[..k][0] == a[0] && b[..k][0] == b[0];
        }
      }
    }
  }

  lemma FrontsShift(a: string, b: string)
    requires a != "" && b != "" && a[0] == b[0]
    ensures TextBefore(a, b) <==> TextBefore(a[1..], b[1..])
  {
    if TextBefore(a, b) {
      var k :| 0 <= k <= |a| && k < |b| && a[..k] == b[..k] && (k == |a| || a[k] < b[k]);
      assert k > 0 && a[1..][..k - 1] == a[..k][1..] && b[1..][..k - 1] == b[..k][1..];
    }
    if TextBefore(a[1..], b[1..]) {
      var k :| 0 <= k <= |a[1..]| && k < |b[1..]| && a[1..][..k] == b[1..][..k] && (k == |a[1..]| || a[1..][k] < b[1..][k]);
      assert a[..k + 1] == [a[0]] + a[1..][..k] && b[..k + 1] == [b[0]] + b[1..][..k];
    }
  }

  /** By folded path, then directories before files, then identifier, category and owner. */
  ghost predicate RuleBefore(a: Rule, b: Rule, fold: char -> string) {
    var x, y := Folded(a.path, fold), Folded(b.path, fold);
    || TextBefore(x, y)
    || (x == y && a.kind.Directory? && b.kind.File?)
    || (x == y && a.kind == b.kind && TextBefore(a.identifier, b.identifier))
    || (x == y && a.kind == b.kind && a.identifier == b.identifier && TextBefore(a.category, b.category))
    || (x == y && a.kind == b.kind && a.identifier == b.identifier && a.category == b.category && TextBefore(a.owner, b.owner))
  }

  lemma KeysUnfold(a: seq<string>, b: seq<string>)
    requires a != [] && b != []
    ensures CompareKeys(a, b).Less? <==> CompareText(a[0], b[0]).Less? || (a[0] == b[0] && CompareKeys(a[1..], b[1..]).Less?)
  {
    TextFlips(a[0], b[0]);
  }

  lemma KeyIsBefore(a: Rule, b: Rule, fold: char -> string)
    ensures CompareKeys(SortKey(a, fold), SortKey(b, fold)).Less? <==> RuleBefore(a, b, fold)
  {
    hide CompareText, CompareKeys, Folded, TextBefore;
    var x, y := SortKey(a, fold), SortKey(b, fold);
    KeysUnfold(x, y);
    KeysUnfold(x[1..], y[1..]);
    KeysUnfold(x[2..], y[2..]);
    KeysUnfold(x[3..], y[3..]);
    KeysUnfold(x[4..], y[4..]);
    KeysFlip(x[5..], y[5..]);
    assert x[1..][1..] == x[2..] && x[2..][1..] == x[3..] && x[3..][1..] == x[4..] && x[4..][1..] == x[5..];
    assert y[1..][1..] == y[2..] && y[2..][1..] == y[3..] && y[3..][1..] == y[4..] && y[4..][1..] == y[5..];
    TextIsBefore(Folded(a.path, fold), Folded(b.path, fold));
    TextIsBefore(a.identifier, b.identifier);
    TextIsBefore(a.category, b.category);
    TextIsBefore(a.owner, b.owner);
    KindsInOrder();
  }

  lemma KindsInOrder()
    ensures CompareText(KindText(Directory), KindText(File)).Less? && !CompareText(KindText(File), KindText(Directory)).Less?
    ensures !CompareText(KindText(File), KindText(File)).Less? && !CompareText(KindText(Directory), KindText(Directory)).Less?
    ensures KindText(File) != KindText(Directory)
  {
    assert KindText(Directory)[0] == 'd' && KindText(File)[0] == 'f';
    TextFlips(KindText(File), KindText(File));
    TextFlips(KindText(Directory), KindText(Directory));
    TextFlips(KindText(Directory), KindText(File));
  }

  /** Merging gives the declared rules, each once with its revisions, in their order, for every dictionary order. */
  lemma MergeMeans(order: seq<Identity>, base: seq<Rule>, head: seq<Rule>, fold: char -> string)
    requires Origins(base, Base) && Origins(head, Head)
    requires IsOrderOf(order, InsertAll(map[], base + head))
    ensures var rules := Merge(order, base, head, fold);
            && (forall rule :: Declares(rules, rule) <==> Declares(base, rule) || Declares(head, rule))
            && (forall j, k :: 0 <= j < k < |rules| ==> !SameRule(rules[j], rules[k]) && !RuleBefore(rules[k], rules[j], fold))
            && (forall k :: 0 <= k < |rules| ==>
                  rules[k].origins == (if Declares(base, rules[k]) then [Base] else []) + (if Declares(head, rules[k]) then [Head] else []))
  {
    hide Sorted, RuleBefore, SameRule, Declares, IsUnion, Values;
    MergeIsUnion(order, base, head, fold);
    var rules := Merge(order, base, head, fold);
    UnionMeans(rules, base, head);
    SortedAscends(Values(order, InsertAll(map[], base + head)), fold);
    forall j, k | 0 <= j < k < |rules|
      ensures !RuleBefore(rules[k], rules[j], fold)
    {
      assert InKeyOrder(rules[j], rules[k], fold);
      KeyIsBefore(rules[k], rules[j], fold);
    }
  }
}
