/** The profile file-name pattern: a scanner for percent tokens, and exactly the names it accepts. */
module ProfilePattern {
  import opened Decimals
  import opened Text
  import opened Wrappers

  const MAX_POOL: nat := 0xFFFF_FFFF

  const SUFFIX := ".profraw"

  predicate NonZeroDigit(c: char) {
    '1' <= c <= '9'
  }

  function DigitsAt(s: string): (n: nat)
    ensures n <= |s| && AllDigits(s[..n])
    ensures n < |s| ==> !IsDigit(s[n])
  {
    if s != "" && IsDigit(s[0]) then
      var n := 1 + DigitsAt(s[1..]);
      assert s[..n] == [s[0]] + s[1..][..n - 1];
      n
    else 0
  }

  /** What the scan has counted: process-id tokens and merge pools. */
  datatype Tokens = Tokens(pids: nat, pools: seq<nat>)

  /** The scan of the remaining text; nothing when it meets an invalid token. */
  function Scan(s: string, seen: Tokens): Option<Tokens>
    decreases |s|
  {
    if s == "" then Some(seen)
    else if s[0] != '%' then Scan(s[1..], seen)
    else if |s| == 1 then None
    else if s[1] == 'p' then Scan(s[2..], Tokens(seen.pids + 1, seen.pools))
    else if !NonZeroDigit(s[1]) then None
    else
      var end := 2 + DigitsAt(s[2..]);
      var digits := s[1..end];
      assert AllDigits(digits) by { DigitsTogether(s, end); }
      var n := ParseNat(digits);
      if end == |s| || s[end] != 'm' || Dec(n) != digits || n > MAX_POOL then None
      else Scan(s[end + 1..], Tokens(seen.pids, seen.pools + [n]))
  }

  lemma DigitsTogether(s: string, end: nat)
    requires |s| > 1 && NonZeroDigit(s[1]) && end == 2 + DigitsAt(s[2..])
    ensures end <= |s| && AllDigits(s[1..end])
  {
    assert s[1..end] == [s[1]] + s[2..][..end - 2];
  }

  predicate Accepted(name: string) {
    EndsWith(name, SUFFIX) &&
    var found := Scan(name, Tokens(0, []));
    found.Some? && found.value.pids == 1 && |found.value.pools| == 1
  }

  method ValidateProfilePatternName(name: string) returns (accepted: bool)
    ensures accepted == Accepted(name)
  {
    hide Dec, ParseNat, DigitsAt, EndsWith;
    var pidTokens: nat, mergePools: seq<nat>, index := 0, [], 0;
    if !EndsWith(name, SUFFIX) { return false; }
    assert name[0..] == name;
    while index < |name|
      invariant 0 <= index <= |name|
      invariant Scan(name, Tokens(0, [])) == Scan(name[index..], Tokens(pidTokens, mergePools))
    {
      ghost var left := name[index..];
      if name[index] != '%' {
        assert left[1..] == name[index + 1..];
        index := index + 1;
        continue;
      }
      if index + 1 >= |name| { return false; }
      var marker := name[index + 1];
      if marker == 'p' {
        assert left[2..] == name[index + 2..];
        pidTokens := pidTokens + 1;
        index := index + 2;
        continue;
      }
      if !NonZeroDigit(marker) { return false; }
      assert left[2..] == name[index + 2..];
      var digitsEnd := index + 2 + DigitsAt(name[index + 2..]);
      ghost var end := digitsEnd - index;
      DigitsTogether(left, end);
      assert left[1..end] == name[index + 1..digitsEnd];
      var digits := name[index + 1..digitsEnd];
      if digitsEnd >= |name| || name[digitsEnd] != 'm' || Dec(ParseNat(digits)) != digits || ParseNat(digits) > MAX_POOL {
        return false;
      }
      assert left[end + 1..] == name[digitsEnd + 1..];
      mergePools := mergePools + [ParseNat(digits)];
      index := digitsEnd + 1;
    }
    accepted := pidTokens == 1 && |mergePools| == 1;
  }

  // ----- the language -----

  datatype Token = Plain(c: char) | Pid | Pool(n: nat)

  predicate ProperToken(t: Token) {
    match t
    case Plain(c) => c != '%'
    case Pid => true
    case Pool(n) => 1 <= n <= 0xFFFF_FFFF
  }

  function TokenText(t: Token): string {
    match t
    case Plain(c) => [c]
    case Pid => "%p"
    case Pool(n) => "%" + (Dec(n) + "m")
  }

  function Render(tokens: seq<Token>): string {
    if tokens == [] then "" else TokenText(tokens[0]) + Render(tokens[1..])
  }

  function Pids(tokens: seq<Token>): nat {
    if tokens == [] then 0 else (if tokens[0].Pid? then 1 else 0) + Pids(tokens[1..])
  }

  function Pools(tokens: seq<Token>): seq<nat> {
    if tokens == [] then [] else (if tokens[0].Pool? then [tokens[0].n] else []) + Pools(tokens[1..])
  }

  ghost predicate Proper(tokens: seq<Token>) {
    forall t :: t in tokens ==> ProperToken(t)
  }

  lemma {:induction false} DigitsThenEnd(digits: string, rest: string)
    requires AllDigits(digits) && (rest == "" || !IsDigit(rest[0]))
    ensures DigitsAt(digits + rest) == |digits|
  {
    if digits == "" {
      assert digits + rest == rest;
    } else {
      DigitsThenEnd(digits[1..], rest);
      assert (digits + rest)[1..] == digits[1..] + rest;
    }
  }

  lemma {:induction false} DecStartsNonZero(n: nat)
    requires n > 0
    ensures NonZeroDigit(Dec(n)[0])
  {
    if n >= 10 {
      DecStartsNonZero(n / 10);
    }
  }

  lemma OneDigitMore(front: string, last: char)
    requires AllDigits(front) && IsDigit(last)
    ensures AllDigits(front + [last])
    ensures ParseNat(front + [last]) == 10 * ParseNat(front) + (last as int - '0' as int)
  {
    var digits := front + [last];
    assert digits[..|digits| - 1] == front && digits[|digits| - 1] == last;
  }

  lemma DecOneDigitMore(n: nat, last: char)
    requires IsDigit(last)
    ensures n > 0 ==> Dec(10 * n + (last as int - '0' as int)) == Dec(n) + [last]
    ensures Dec(last as int - '0' as int) == [last]
  {
    var d := last as int - '0' as int;
    assert Digit(d) == last;
    assert (10 * n + d) / 10 == n && (10 * n + d) % 10 == d;
  }

  /** The canonical-form test in the scanner can never fail: digits without a leading zero are canonical. */
  lemma {:induction false} CanonicalDigits(digits: string)
    requires digits != "" && AllDigits(digits) && digits[0] != '0'
    ensures ParseNat(digits) > 0 && Dec(ParseNat(digits)) == digits
  {
    hide Dec, ParseNat, Digit;
    var front, last := digits[..|digits| - 1], digits[|digits| - 1];
    assert digits == front + [last];
    assert IsDigit(last);
    OneDigitMore(front, last);
    if front == "" {
      NoDigits();
      DecOneDigitMore(0, last);
    } else {
      assert front[0] == digits[0];
      CanonicalDigits(front);
      DecOneDigitMore(ParseNat(front), last);
    }
  }

  lemma NoDigits()
    ensures ParseNat("") == 0
  {
  }

  /** The text of a pool token and what follows it, taken apart. */
  lemma PoolText(n: nat, digits: string, rest: string)
    requires digits == Dec(n)
    ensures var s := TokenText(Pool(n)) + rest;
            && |s| == |digits| + 2 + |rest| && s[0] == '%' && s[1] == digits[0] && s[1..|digits| + 1] == digits
            && s[2..] == digits[1..] + ("m" + rest) && s[|digits| + 1] == 'm' && s[|digits| + 2..] == rest
  {
    hide Dec;
  }

  lemma PoolIsScanned(n: nat, rest: string, seen: Tokens)
    requires 1 <= n <= MAX_POOL
    ensures Scan(TokenText(Pool(n)) + rest, seen) == Scan(rest, Tokens(seen.pids, seen.pools + [n]))
  {
    hide Dec, ParseNat, DigitsAt, TokenText, AllDigits;
    var digits := Dec(n);
    PoolText(n, digits, rest);
    DecStartsNonZero(n);
    DigitsTail(digits);
    DigitsThenEnd(digits[1..], "m" + rest);
    ParseDec(n);
  }

  lemma DigitsTail(digits: string)
    requires digits != "" && AllDigits(digits)
    ensures AllDigits(digits[1..])
  {
  }

  lemma SmallTokensAreScanned(t: Token, rest: string, seen: Tokens)
    requires ProperToken(t) && !t.Pool?
    ensures Scan(TokenText(t) + rest, seen) == Scan(rest, Tokens(seen.pids + (if t.Pid? then 1 else 0), seen.pools))
  {
    hide Dec, ParseNat, DigitsAt;
    var s := TokenText(t) + rest;
    if t.Pid? {
      assert s == "%p" + rest;
      assert s[2..] == rest;
    } else {
      assert s == [t.c] + rest;
      assert s[1..] == rest;
    }
  }

  lemma {:induction false} TokensAreScanned(tokens: seq<Token>, seen: Tokens)
    requires Proper(tokens)
    ensures Scan(Render(tokens), seen) == Some(Tokens(seen.pids + Pids(tokens), seen.pools + Pools(tokens)))
    decreases |tokens|
  {
    hide Scan, TokenText;
    if tokens == [] {
      NothingIsScanned(seen);
      assert seen.pools + Pools(tokens) == seen.pools;
    } else {
      var first, rest := tokens[0], tokens[1..];
      assert first in tokens && Proper(rest);
      if first.Pool? {
        PoolIsScanned(first.n, Render(rest), seen);
        assert first == Pool(first.n);
        TokensAreScanned(rest, Tokens(seen.pids, seen.pools + [first.n]));
        assert (seen.pools + [first.n]) + Pools(rest) == seen.pools + ([first.n] + Pools(rest));
      } else {
        SmallTokensAreScanned(first, Render(rest), seen);
        TokensAreScanned(rest, Tokens(seen.pids + (if first.Pid? then 1 else 0), seen.pools));
        assert [] + Pools(rest) == Pools(rest);
      }
    }
  }

  lemma NothingIsScanned(seen: Tokens)
    ensures Scan("", seen) == Some(seen)
  {
  }

  lemma {:induction false} ScannedIsTokens(s: string, seen: Tokens) returns (tokens: seq<Token>)
    requires Scan(s, seen).Some?
    ensures Proper(tokens) && s == Render(tokens)
    decreases |s|
  {
    hide Dec, ParseNat, DigitsAt, TokenText, ProperToken;
    PercentHasMarker(s, seen);
    if s == "" {
      tokens := [];
    } else if s[0] != '%' {
      var rest := ScannedIsTokens(s[1..], seen);
      tokens := [Plain(s[0])] + rest;
      SmallToken(Plain(s[0]));
      assert tokens[1..] == rest && s == [s[0]] + s[1..];
    } else if s[1] == 'p' {
      var rest := ScannedIsTokens(s[2..], Tokens(seen.pids + 1, seen.pools));
      tokens := [Pid] + rest;
      SmallToken(Pid);
      assert tokens[1..] == rest && s == "%p" + s[2..];
    } else {
      var n, end := PoolIsRead(s, seen);
      var rest := ScannedIsTokens(s[end..], Tokens(seen.pids, seen.pools + [n]));
      tokens := [Pool(n)] + rest;
      assert tokens[1..] == rest;
    }
  }

  lemma PercentHasMarker(s: string, seen: Tokens)
    requires Scan(s, seen).Some?
    ensures s != "" && s[0] == '%' ==> |s| > 1
  {
  }

  lemma SmallToken(t: Token)
    ensures t.Plain? && t.c != '%' ==> ProperToken(t) && TokenText(t) == [t.c]
    ensures t.Pid? ==> ProperToken(t) && TokenText(t) == "%p"
  {
  }

  lemma PoolIsRead(s: string, seen: Tokens) returns (n: nat, end: nat)
    requires Scan(s, seen).Some? && s != "" && s[0] == '%' && s[1] != 'p'
    ensures 0 < end <= |s| && ProperToken(Pool(n)) && s == TokenText(Pool(n)) + s[end..]
    ensures Scan(s, seen) == Scan(s[end..], Tokens(seen.pids, seen.pools + [n]))
  {
    hide Dec, ParseNat, DigitsAt;
    var m := 2 + DigitsAt(s[2..]);
    DigitsTogether(s, m);
    var digits := s[1..m];
    CanonicalDigits(digits);
    n, end := ParseNat(digits), m + 1;
    assert s == "%" + (digits + "m") + s[end..];
  }

  /**
   The scanner accepts exactly the names that end in the suffix and read as plain characters with one
   process-id token and one merge pool between 1 and the largest 32-bit number, written canonically.
   */
  lemma AcceptsExactlyTheLanguage(name: string)
    ensures Accepted(name) <==>
            EndsWith(name, ".profraw") && exists tokens ::
              Proper(tokens) && name == Render(tokens) && Pids(tokens) == 1 && |Pools(tokens)| == 1
  {
    hide Scan, Render, Pids, Pools, Proper;
    if Scan(name, Tokens(0, [])).Some? {
      var tokens := ScannedIsTokens(name, Tokens(0, []));
      TokensAreScanned(tokens, Tokens(0, []));
      assert [] + Pools(tokens) == Pools(tokens);
    }
    if exists tokens :: Proper(tokens) && name == Render(tokens) && Pids(tokens) == 1 && |Pools(tokens)| == 1 {
      var tokens :| Proper(tokens) && name == Render(tokens) && Pids(tokens) == 1 && |Pools(tokens)| == 1;
      TokensAreScanned(tokens, Tokens(0, []));
      assert [] + Pools(tokens) == Pools(tokens);
    }
  }
}
