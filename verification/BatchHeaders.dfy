/** Which header lines announce a body of which size, spelled out, and with them which responses are accepted. */
module BatchHeaders {
  import opened BatchFrames
  import opened Decimals
  import opened Utf8
  import opened Wrappers

  /** Tabs, line ends, separators and the space. */
  predicate IsWhite(c: char) {
    9 <= c as int <= 13 || 28 <= c as int <= 32
  }

  predicate WhiteFirst(s: string, g: nat) {
    g <= |s| && forall k :: 0 <= k < g ==> IsWhite(s[k])
  }

  /** The word stands at the front, up to the end or to white space. */
  predicate WordFollows(s: string, word: string) {
    && word != "" && |word| <= |s| && s[..|word|] == word && (forall c :: c in word ==> !IsWhite(c))
    && (|word| < |s| ==> IsWhite(s[|word|]))
  }

  /** The text is these words with white space between and around them. */
  ghost predicate AreWords(s: string, words: seq<string>)
    decreases |words|
  {
    exists g: nat :: WhiteFirst(s, g) &&
      if words == [] then g == |s| else WordFollows(s[g..], words[0]) && AreWords(s[g..][|words[0]|..], words[1..])
  }

  /** Digits with single underscores between them. */
  predicate IsNumeral(s: string) {
    && s != "" && s[0] != '_' && s[|s| - 1] != '_' && (forall c :: c in s ==> '0' <= c <= '9' || c == '_')
    && forall k :: 0 < k < |s| ==> s[k - 1] != '_' || s[k] != '_'
  }

  function WithoutUnderscores(s: string): string {
    if s == "" then "" else (if s[0] == '_' then "" else [s[0]]) + WithoutUnderscores(s[1..])
  }

  /** An optional sign and a numeral. */
  predicate Denotes(s: string, n: int) {
    exists sign :: sign in {"", "+", "-"} && SignedNumeral(s, sign, n)
  }

  predicate SignedNumeral(s: string, sign: string, n: int) {
    && |sign| <= |s| && s[..|sign|] == sign && IsNumeral(s[|sign|..])
    && AllDigits(WithoutUnderscores(s[|sign|..]))
    && n == (if sign == "-" then -1 else 1) * ParseNat(WithoutUnderscores(s[|sign|..]))
  }

  /** ASCII text of three words: some name, the type `blob`, and the size. */
  ghost predicate Announces(header: seq<byte>, size: int) {
    && (forall k :: 0 <= k < |header| ==> header[k] < 128)
    && exists name, numeral :: AreWords(TextOf(header), [name, "blob", numeral]) && Denotes(numeral, size)
  }

  /** The bytes as characters. */
  function TextOf(line: seq<byte>): (s: string)
    ensures |s| == |line|
  {
    seq(|line|, k requires 0 <= k < |line| => line[k] as char)
  }

  // ----- words -----

  lemma WhiteIsSpace(c: char)
    ensures IsSpace(c) <==> IsWhite(c)
  {
  }

  lemma {:induction false} WordEnds(s: string, n: nat)
    ensures WordLength(s) == n <==> n <= |s| && (forall k :: 0 <= k < n ==> !IsWhite(s[k])) && (n < |s| ==> IsWhite(s[n]))
  {
    if s != "" {
      WhiteIsSpace(s[0]);
      if !IsWhite(s[0]) && n > 0 {
        WordEnds(s[1..], n - 1);
        assert forall k :: 0 < k < |s| ==> s[k] == s[1..][k - 1];
      }
    }
  }

  lemma WordIsTaken(s: string, word: string)
    requires s != "" && !IsWhite(s[0])
    ensures WordFollows(s, word) <==> WordLength(s) == |word| && word == s[..|word|]
  {
    hide IsWhite;
    WordEnds(s, |word|);
    if |word| <= |s| && word == s[..|word|] {
      assert forall k :: 0 <= k < |word| ==> word[k] == s[k];
    }
  }

  /** Past the white space in front. */
  function AfterWhite(s: string): (g: nat)
    ensures WhiteFirst(s, g) && (g < |s| ==> !IsWhite(s[g]))
  {
    if s != "" && IsWhite(s[0]) then
      assert forall k :: 0 < k < |s| ==> s[k] == s[1..][k - 1];
      1 + AfterWhite(s[1..])
    else 0
  }

  lemma {:induction false} FieldsSkip(s: string)
    ensures Fields(s) == Fields(s[AfterWhite(s)..])
  {
    if s != "" && IsWhite(s[0]) {
      WhiteIsSpace(s[0]);
      FieldsSkip(s[1..]);
      assert s[1..][AfterWhite(s[1..])..] == s[AfterWhite(s)..];
    } else {
      assert s[0..] == s;
    }
  }

  lemma WordsBegin(s: string, words: seq<string>)
    ensures AreWords(s, words) <==>
            var rest := s[AfterWhite(s)..];
            if words == [] then rest == "" else WordFollows(rest, words[0]) && AreWords(rest[|words[0]|..], words[1..])
  {
    hide IsWhite;
    var g := AfterWhite(s);
    if AreWords(s, words) {
      var h: nat :| WhiteFirst(s, h) &&
        if words == [] then h == |s| else WordFollows(s[h..], words[0]) && AreWords(s[h..][|words[0]|..], words[1..]);
      if words != [] {
        assert s[h] == words[0][0] && words[0][0] in words[0];
      }
      assert h == g;
    }
  }

  lemma {:induction false} FieldsAreWords(s: string, words: seq<string>)
    ensures Fields(s) == words <==> AreWords(s, words)
    decreases |s|
  {
    hide IsWhite, AreWords, WordFollows, WordLength;
    var g := AfterWhite(s);
    var rest := s[g..];
    FieldsSkip(s);
    WordsBegin(s, words);
    if rest != "" {
      assert rest[0] == s[g];
      WhiteIsSpace(rest[0]);
      var n := WordLength(rest);
      if words != [] {
        WordIsTaken(rest, words[0]);
      }
      FieldsAreWords(rest[n..], if words == [] then [] else words[1..]);
      assert Fields(rest) == [rest[..n]] + Fields(rest[n..]);
      assert words != [] ==> words == [words[0]] + words[1..];
    } else {
      NoWord();
    }
  }

  lemma NoWord()
    ensures forall word :: !WordFollows("", word)
  {
  }

  // ----- numerals -----

  lemma {:induction false} UngroupIs(s: string)
    requires forall k :: 0 <= k < |s| ==> IsDigit(s[k]) || s[k] == '_'
    ensures Ungroup(s) == WithoutUnderscores(s)
  {
    if s != "" {
      UngroupIs(s[1..]);
    }
  }

  lemma GroupedIs(s: string)
    ensures Grouped(s) <==> IsNumeral(s)
  {
    if IsNumeral(s) {
      assert forall k :: 0 <= k < |s| ==> s[k] in s;
    }
  }

  lemma ValueIs(s: string, n: int)
    ensures IntValue(s) == Some(n) <==> Denotes(s, n)
  {
    hide IsNumeral, Grouped, WithoutUnderscores, ParseNat;
    forall sign | sign in {"", "+", "-"} && |sign| <= |s| && s[..|sign|] == sign
      ensures SignedNumeral(s, sign, n) <==>
        IntValue(s) == Some(n) && sign == (if s != "" && (s[0] == '+' || s[0] == '-') then [s[0]] else "")
    {
      SignIs(s, sign, n);
    }
    if s != "" && (s[0] == '+' || s[0] == '-') {
      assert s[..1] == [s[0]] && [s[0]] in {"", "+", "-"};
    }
    assert s[..0] == "" && "" in {"", "+", "-"};
  }

  lemma SignIs(s: string, sign: string, n: int)
    requires sign in {"", "+", "-"} && |sign| <= |s| && s[..|sign|] == sign
    ensures SignedNumeral(s, sign, n) <==>
        IntValue(s) == Some(n) && sign == (if s != "" && (s[0] == '+' || s[0] == '-') then [s[0]] else "")
  {
    hide WithoutUnderscores, ParseNat;
    var digits := s[|sign|..];
    GroupedIs(digits);
    assert sign != "" ==> s[0] == sign[0] && sign == [s[0]];
    if IsNumeral(digits) {
      NumeralHasDigits(digits);
      UngroupIs(digits);
    }
    assert s[0..] == s;
  }

  lemma NumeralHasDigits(s: string)
    requires IsNumeral(s)
    ensures s[0] != '+' && s[0] != '-' && forall k :: 0 <= k < |s| ==> IsDigit(s[k]) || s[k] == '_'
  {
    assert forall k :: 0 <= k < |s| ==> s[k] in s;
  }

  /** The reader takes a size from a header line exactly when the line announces it. */
  lemma HeaderIsExact(header: seq<byte>, size: int, entry: nat)
    ensures HeaderSize(header, entry) == Ok(size) <==> Announces(header, size)
  {
    hide Fields, IntValue, AreWords, Denotes;
    if IsAscii(header) {
      var text := AsText(header);
      assert text == TextOf(header);
      var fields := Fields(text);
      FieldsAreWords(text, fields);
      if |fields| == 3 {
        assert fields == [fields[0], fields[1], fields[2]];
        ValueIs(fields[2], size);
      }
      forall name, numeral | AreWords(text, [name, "blob", numeral])
        ensures fields == [name, "blob", numeral]
      {
        FieldsAreWords(text, [name, "blob", numeral]);
      }
    }
  }

  /** A line with its line feed that announces the size of the body. */
  ghost predicate IsLine(header: seq<byte>, size: nat) {
    && header != [] && header[|header| - 1] == 10 && (forall k :: 0 <= k < |header| - 1 ==> header[k] != 10)
    && Announces(header, size)
  }

  ghost predicate AreRecorded(parts: seq<Part>, entries: seq<Entry>, hash: Hash) {
    |parts| == |entries| && forall i :: 0 <= i < |parts| ==>
      IsLine(parts[i].header, |parts[i].body|) && |parts[i].body| == entries[i].bytes && hash(parts[i].body) == entries[i].sha
  }

  /** A response is accepted exactly when it is, for each entry, such a line, the recorded bytes and a line feed, and no more. */
  lemma AcceptsExactlyRecorded(response: seq<byte>, entries: seq<Entry>, hash: Hash)
    ensures Check(response, entries, 0, hash).Ok? <==> exists parts :: AreRecorded(parts, entries, hash) && response == Text(parts)
  {
    hide Check, Text, HeaderSize, Announces;
    AcceptsExactlyCommitted(response, entries, hash);
    forall parts: seq<Part>, i: nat | i < |parts|
      ensures IsHeader(parts[i].header, |parts[i].body|) <==> IsLine(parts[i].header, |parts[i].body|)
    {
      HeaderIsExact(parts[i].header, |parts[i].body|, 0);
    }
  }
}
