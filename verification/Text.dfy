/** Text as sequences of characters: the few queries the scanners share. */
module Text {
  /** A class of characters, as the host language or the tool defines it. */
  type CharClass = char -> bool

  /** The two characters at `i` are `a` and `b`. */
  predicate Pair(s: string, i: nat, a: char, b: char) {
    i + 1 < |s| && s[i] == a && s[i + 1] == b
  }

  predicate StartsWith(s: string, prefix: string) {
    |prefix| <= |s| && s[..|prefix|] == prefix
  }

  predicate EndsWith(s: string, suffix: string) {
    |suffix| <= |s| && s[|s| - |suffix|..] == suffix
  }

  function Count(s: string, c: char): (n: nat)
    ensures n <= |s|
  {
    if s == "" then 0 else Count(s[..|s| - 1], c) + (if s[|s| - 1] == c then 1 else 0)
  }

  /** The first position at or after `i` that holds `c`, or the length of the text. */
  function IndexOrEnd(s: string, i: nat, c: char): (j: nat)
    requires i <= |s|
    ensures i <= j <= |s|
    ensures j < |s| ==> s[j] == c
    ensures forall k :: i <= k < j ==> s[k] != c
    decreases |s| - i
  {
    if i == |s| || s[i] == c then i else IndexOrEnd(s, i + 1, c)
  }

  /** Line numbers as the tool reports them: newlines before the position, plus one. */
  function LineOf(s: string, i: nat): nat
    requires i <= |s|
  {
    Count(s[..i], '\n') + 1
  }

  lemma {:induction false} CountMonotone(s: string, i: nat, j: nat, c: char)
    requires i <= j <= |s|
    ensures Count(s[..i], c) <= Count(s[..j], c)
    decreases j - i
  {
    if i < j {
      assert s[..j][..j - 1] == s[..j - 1];
      CountMonotone(s, i, j - 1, c);
    }
  }
}
