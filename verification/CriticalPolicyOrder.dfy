/**
 The order of the merged rules: ascending by folded path, kind, identifier, category and owner, and independent
 of the order in which the dictionary was filled.
 */
module CriticalPolicyOrder {
  import opened CriticalPolicy
  import opened CriticalPolicyTheorems

  function Flip(o: Order): Order {
    match o
    case Less => Greater
    case Equal => Equal
    case Greater => Less
  }

  // ----- the comparison is a total order -----

  lemma {:induction false} TextFlips(a: string, b: string)
    ensures CompareText(b, a) == Flip(CompareText(a, b))
    ensures CompareText(a, b).Equal? <==> a == b
  {
    if a != "" && b != "" {
      TextFlips(a[1..], b[1..]);
      assert a == [a[0]] + a[1..] && b == [b[0]] + b[1..];
    }
  }

  lemma {:induction false} TextChains(a: string, b: string, c: string)
    requires CompareText(a, b).Less? && CompareText(b, c).Less?
    ensures CompareText(a, c).Less?
  {
    if a != "" && b != "" && c != "" && a[0] == b[0] == c[0] {
      TextChains(a[1..], b[1..], c[1..]);
    }
  }

  lemma {:induction false} KeysFlip(a: seq<string>, b: seq<string>)
    ensures CompareKeys(b, a) == Flip(CompareKeys(a, b))
    ensures CompareKeys(a, b).Equal? <==> a == b
  {
    hide CompareText;
    if a != [] && b != [] {
      TextFlips(a[0], b[0]);
      KeysFlip(a[1..], b[1..]);
      assert a == [a[0]] + a[1..] && b == [b[0]] + b[1..];
    }
  }

  lemma {:induction false} KeysChain(a: seq<string>, b: seq<string>, c: seq<string>)
    requires CompareKeys(a, b).Less? && CompareKeys(b, c).Less?
    ensures CompareKeys(a, c).Less?
  {
    hide CompareText;
    if a != [] && b != [] && c != [] {
      TextFlips(a[0], b[0]);
      TextFlips(b[0], c[0]);
      TextFlips(a[0], c[0]);
      if a[0] == b[0] == c[0] {
        KeysChain(a[1..], b[1..], c[1..]);
      } else if a[0] != b[0] && b[0] != c[0] {
        TextChains(a[0], b[0], c[0]);
      }
    }
  }

  // ----- sorting sorts -----

  /** `a` may stand before `b`. */
  predicate InKeyOrder(a: Rule, b: Rule, fold: char -> string) {
    !CompareKeys(SortKey(b, fold), SortKey(a, fold)).Less?
  }

  ghost predicate Ascends(rules: seq<Rule>, fold: char -> string) {
    forall j, k :: 0 <= j < k < |rules| ==> InKeyOrder(rules[j], rules[k], fold)
  }

  lemma OrderChains(a: Rule, b: Rule, c: Rule, fold: char -> string)
    requires InKeyOrder(a, b, fold) && InKeyOrder(b, c, fold)
    ensures InKeyOrder(a, c, fold)
  {
    hide CompareKeys, SortKey;
    var x, y, z := SortKey(a, fold), SortKey(b, fold), SortKey(c, fold);
    KeysFlip(x, y);
    KeysFlip(y, z);
    KeysFlip(x, z);
    if x != y && y != z {
      KeysChain(x, y, z);
    }
  }

  lemma BeforeAll(rule: Rule, rules: seq<Rule>, fold: char -> string)
    requires Ascends(rules, fold) && rules != [] && CompareKeys(SortKey(rule, fold), SortKey(rules[0], fold)).Less?
    ensures Ascends([rule] + rules, fold)
  {
    hide CompareKeys, SortKey;
    KeysFlip(SortKey(rule, fold), SortKey(rules[0], fold));
    var all := [rule] + rules;
    forall j, k | 0 <= j < k < |all|
      ensures InKeyOrder(all[j], all[k], fold)
    {
      var left := k - 1;
      assert all[k] == rules[left];
      if j == 0 {
        assert InKeyOrder(rule, rules[0], fold);
        if left > 0 {
          assert InKeyOrder(rules[0], rules[left], fold);
          OrderChains(rule, rules[0], rules[left], fold);
        }
      } else {
        assert all[j] == rules[j - 1];
      }
    }
  }

  lemma {:induction false} InsertSortedAscends(rule: Rule, rules: seq<Rule>, fold: char -> string)
    requires Ascends(rules, fold)
    ensures Ascends(InsertSorted(rule, rules, fold), fold)
  {
    hide CompareKeys, SortKey;
    if rules != [] && CompareKeys(SortKey(rule, fold), SortKey(rules[0], fold)).Less? {
      BeforeAll(rule, rules, fold);
    } else if rules != [] {
      assert Ascends(rules[1..], fold);
      InsertSortedAscends(rule, rules[1..], fold);
      var rest := InsertSorted(rule, rules[1..], fold);
      InsertSortedKeepsAll(rule, rules[1..], fold);
      forall r | r in rest
        ensures InKeyOrder(rules[0], r, fold)
      {
        assert r in multiset(rest);
        assert r == rule || r in rules[1..];
      }
    }
  }

  /** The merged rules ascend by their sort key. */
  lemma {:induction false} SortedAscends(rules: seq<Rule>, fold: char -> string)
    ensures Ascends(Sorted(rules, fold), fold)
  {
    hide InsertSorted;
    if rules != [] {
      SortedAscends(rules[..|rules| - 1], fold);
      InsertSortedAscends(rules[|rules| - 1], Sorted(rules[..|rules| - 1], fold), fold);
    }
  }

  // ----- there is only one such order -----

  /** No two of the rules have the same key. */
  ghost predicate DistinctKeys(rules: seq<Rule>, fold: char -> string) {
    forall j, k :: 0 <= j < k < |rules| ==> SortKey(rules[j], fold) != SortKey(rules[k], fold)
  }

  lemma SameKeyOverlaps(a: Rule, b: Rule, fold: char -> string)
    requires SortKey(a, fold) == SortKey(b, fold)
    ensures Overlap(a, b, fold)
  {
    hide Folded;
    assert SortKey(a, fold)[0] == SortKey(b, fold)[0] && SortKey(a, fold)[1] == SortKey(b, fold)[1];
    assert KindText(File)[0] != KindText(Directory)[0];
    var path := Folded(a.path, fold);
    assert path[..|path|] == path;
  }

  lemma ApartMeansDistinctKeys(rules: seq<Rule>, fold: char -> string)
    requires PairwiseApart(rules, fold)
    ensures DistinctKeys(rules, fold)
  {
    hide Overlap, SortKey;
    forall j, k | 0 <= j < k < |rules|
      ensures SortKey(rules[j], fold) != SortKey(rules[k], fold)
    {
      if SortKey(rules[j], fold) == SortKey(rules[k], fold) {
        SameKeyOverlaps(rules[j], rules[k], fold);
      }
    }
  }

  lemma FirstIsLeast(rules: seq<Rule>, rule: Rule, fold: char -> string)
    requires Ascends(rules, fold) && rule in rules
    ensures InKeyOrder(rules[0], rule, fold)
  {
    hide CompareKeys, SortKey;
    var k :| 0 <= k < |rules| && rules[k] == rule;
    KeysFlip(SortKey(rule, fold), SortKey(rule, fold));
  }

  lemma SameFirst(a: seq<Rule>, b: seq<Rule>, fold: char -> string)
    requires Ascends(a, fold) && Ascends(b, fold) && DistinctKeys(a, fold)
    requires a != [] && b != [] && b[0] in a && a[0] in b
    ensures a[0] == b[0]
  {
    hide CompareKeys, SortKey, Ascends;
    FirstIsLeast(a, b[0], fold);
    FirstIsLeast(b, a[0], fold);
    KeysFlip(SortKey(a[0], fold), SortKey(b[0], fold));
    var k :| 0 <= k < |a| && a[k] == b[0];
    assert SortKey(a[0], fold) == SortKey(a[k], fold);
  }

  lemma TailKeeps(a: seq<Rule>, fold: char -> string)
    requires a != []
    ensures Ascends(a, fold) ==> Ascends(a[1..], fold)
    ensures DistinctKeys(a, fold) ==> DistinctKeys(a[1..], fold)
    ensures multiset(a[1..]) == multiset(a) - multiset{a[0]} && a[0] in multiset(a)
  {
    hide InKeyOrder, SortKey;
    assert a == [a[0]] + a[1..];
  }

  lemma {:induction false} OnlyOneOrder(a: seq<Rule>, b: seq<Rule>, fold: char -> string)
    requires Ascends(a, fold) && Ascends(b, fold) && DistinctKeys(a, fold) && multiset(a) == multiset(b)
    ensures a == b
    decreases |a|
  {
    hide Ascends, DistinctKeys;
    assert |multiset(a)| == |a| && |multiset(b)| == |b|;
    if a != [] {
      TailKeeps(a, fold);
      TailKeeps(b, fold);
      assert b[0] in multiset(a) && a[0] in multiset(b);
      SameFirst(a, b, fold);
      OnlyOneOrder(a[1..], b[1..], fold);
      assert a == [a[0]] + a[1..] && b == [b[0]] + b[1..];
    }
  }

  lemma ValuesSplit(keys: seq<Identity>, k: nat, merged: Merged)
    requires k < |keys| && forall id :: id in keys ==> id in merged
    ensures (forall id :: id in keys[..k] ==> id in merged) && (forall id :: id in keys[k + 1..] ==> id in merged)
    ensures Values(keys, merged) == Values(keys[..k], merged) + [merged[keys[k]]] + Values(keys[k + 1..], merged)
  {
  }

  lemma ValuesJoin(a: seq<Identity>, b: seq<Identity>, merged: Merged)
    requires (forall id :: id in a ==> id in merged) && (forall id :: id in b ==> id in merged)
    ensures Values(a + b, merged) == Values(a, merged) + Values(b, merged)
  {
  }

  lemma TakenOut<T>(a: seq<T>, x: T, b: seq<T>)
    ensures multiset(a + [x] + b) == multiset(a + b) + multiset{x}
  {
  }

  function Without<T>(s: seq<T>, k: nat): (rest: seq<T>)
    requires k < |s|
    ensures |rest| == |s| - 1 && forall x :: x in rest ==> x in s
  {
    s[..k] + s[k + 1..]
  }

  lemma WithoutOne<T>(s: seq<T>, k: nat)
    requires k < |s|
    ensures multiset(s) == multiset(Without(s, k)) + multiset{s[k]}
  {
    TakenOut(s[..k], s[k], s[k + 1..]);
    assert s == s[..k] + [s[k]] + s[k + 1..];
  }

  lemma ValuesWithout(keys: seq<Identity>, k: nat, merged: Merged)
    requires k < |keys| && forall id :: id in keys ==> id in merged
    ensures Values(Without(keys, k), merged) == Without(Values(keys, merged), k)
  {
    var left, right := keys[..k], keys[k + 1..];
    ValuesSplit(keys, k, merged);
    ValuesJoin(left, right, merged);
    hide Values;
    var values := Values(left, merged);
    assert |values| == k;
    assert (values + [merged[keys[k]]] + Values(right, merged))[..k] == values;
  }

  /** The same keys in any order give the same rules in some order. */
  lemma {:induction false} SameValues(a: seq<Identity>, b: seq<Identity>, merged: Merged)
    requires (forall id :: id in a ==> id in merged) && (forall id :: id in b ==> id in merged)
    requires multiset(a) == multiset(b)
    ensures multiset(Values(a, merged)) == multiset(Values(b, merged))
    decreases |a|
  {
    hide Values, Without;
    assert |multiset(a)| == |a| && |multiset(b)| == |b|;
    if a != [] {
      assert a[0] in multiset(b);
      var k :| 0 <= k < |b| && b[k] == a[0];
      WithoutOne(a, 0);
      WithoutOne(b, k);
      assert multiset(Without(a, 0)) == multiset(a) - multiset{a[0]};
      assert multiset(Without(b, k)) == multiset(b) - multiset{a[0]};
      SameValues(Without(a, 0), Without(b, k), merged);
      ValuesWithout(a, 0, merged);
      ValuesWithout(b, k, merged);
      WithoutOne(Values(a, merged), 0);
      WithoutOne(Values(b, merged), k);
    } else {
      assert a == b;
    }
  }

  lemma {:induction false} KeyCount(keys: seq<Identity>, id: Identity)
    requires forall j, k :: 0 <= j < k < |keys| ==> keys[j] != keys[k]
    ensures multiset(keys)[id] == if id in keys then 1 else 0
  {
    if keys != [] {
      KeyCount(keys[1..], id);
      assert keys == [keys[0]] + keys[1..];
    }
  }

  lemma OrdersArePermutations(a: seq<Identity>, b: seq<Identity>, merged: Merged)
    requires IsOrderOf(a, merged) && IsOrderOf(b, merged)
    ensures multiset(a) == multiset(b)
  {
    forall id
      ensures multiset(a)[id] == multiset(b)[id]
    {
      KeyCount(a, id);
      KeyCount(b, id);
    }
  }

  /**
   The verdict and the accepted rules do not depend on the order in which the dictionary keeps its keys, and
   accepted rules ascend strictly by their key.
   */
  lemma MergeIgnoresDictionaryOrder(a: seq<Identity>, b: seq<Identity>, merged: Merged, fold: char -> string)
    requires IsOrderOf(a, merged) && IsOrderOf(b, merged)
    ensures var first, second := Sorted(Values(a, merged), fold), Sorted(Values(b, merged), fold);
            && Ascends(first, fold)
            && (PairwiseApart(first, fold) <==> PairwiseApart(second, fold))
            && (PairwiseApart(first, fold) ==> first == second && DistinctKeys(first, fold))
  {
    hide Sorted, PairwiseApart, Ascends, DistinctKeys, Values;
    OrdersArePermutations(a, b, merged);
    SameValues(a, b, merged);
    var first, second := Sorted(Values(a, merged), fold), Sorted(Values(b, merged), fold);
    SortedAscends(Values(a, merged), fold);
    SortedAscends(Values(b, merged), fold);
    SortedKeepsAll(Values(a, merged), fold);
    SortedKeepsAll(Values(b, merged), fold);
    if PairwiseApart(first, fold) {
      ApartMeansDistinctKeys(first, fold);
      OnlyOneOrder(first, second, fold);
    }
    if PairwiseApart(second, fold) {
      ApartMeansDistinctKeys(second, fold);
      OnlyOneOrder(second, first, fold);
    }
  }
}
