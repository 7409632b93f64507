/**
 Git's own rendering of two paths in a `diff --git` header, and exactly when splitting and decoding
 that header gives the same two paths back.
 */
module GitPathTheorems {
  import opened Wrappers
  import opened Utf8
  import opened GitPaths

  // ----- how Git writes a path -----

  function OctalDigit(n: nat): char
    requires n < 8
  {
    '0' + n as char
  }

  /** One byte inside double quotes. */
  function QuoteByte(b: byte): (s: string)
    ensures |s| > 0
  {
    if b == 7 then "\\a"
    else if b == 8 then "\\b"
    else if b == 9 then "\\t"
    else if b == 10 then "\\n"
    else if b == 11 then "\\v"
    else if b == 12 then "\\f"
    else if b == 13 then "\\r"
    else if b == 34 then "\\\""
    else if b == 92 then "\\\\"
    else if 32 <= b < 127 then [b as char]
    else ['\\', OctalDigit(b / 64), OctalDigit(b / 8 % 8), OctalDigit(b % 8)]
  }

  function QuoteBytes(bytes: seq<byte>): string {
    if bytes == [] then "" else QuoteByte(bytes[0]) + QuoteBytes(bytes[1..])
  }

  function Quote(path: string): string {
    "\"" + QuoteBytes(Encode(path)) + "\""
  }

  predicate IsPlainChar(c: char) {
    ' ' <= c <= '~' && c != '"' && c != '\\'
  }

  /** Control characters, quotes, backslashes and anything outside ASCII force quoting; a space does not. */
  predicate NeedsQuoting(path: string) {
    exists k :: 0 <= k < |path| && !IsPlainChar(path[k])
  }

  function GitToken(path: string): string {
    if NeedsQuoting(path) then Quote(path) else path
  }

  /** The tokens of a header never contain an unquoted space and are never empty. */
  predicate SafeInHeader(path: string) {
    NeedsQuoting(path) || (path != "" && ' ' !in path)
  }

  // ----- decoding a quoted path -----

  lemma PlainCharIsItself(b: byte)
    requires 32 <= b < 127
    ensures EncodeChar(b as char) == [b]
  {
  }

  lemma ThreeOctalDigits(b: byte, rest: string)
    requires b < 32 || b >= 127
    ensures var digits := [OctalDigit(b / 64), OctalDigit(b / 8 % 8), OctalDigit(b % 8)];
            OctalLength(digits + rest) == 3 && OctalValue((digits + rest)[..3]) == b
            && Escape(digits[0]).None? && (digits + rest)[3..] == rest && (digits + rest)[0] == digits[0]
  {
    var digits := [OctalDigit(b / 64), OctalDigit(b / 8 % 8), OctalDigit(b % 8)];
    assert (digits + rest)[..3] == digits;
    assert digits[..2][..1] == digits[..1] && digits[..1][..0] == "";
    assert OctalValue(digits[..1]) == b / 64;
    assert OctalValue(digits[..2]) == 8 * (b / 64) + b / 8 % 8;
    assert 64 * (b / 64) + 8 * (b / 8 % 8) + b % 8 == b;
  }

  lemma DecodeQuotedByte(b: byte, rest: string)
    ensures DecodeBody(QuoteByte(b) + rest) == Prepend([b], DecodeBody(rest))
  {
    var s := QuoteByte(b) + rest;
    if 32 <= b < 127 && b != 34 && b != 92 {
      PlainCharIsItself(b);
      assert s[1..] == rest;
    } else if 7 <= b <= 13 || b == 34 || b == 92 {
      assert s[2..] == rest;
    } else {
      var digits := [OctalDigit(b / 64), OctalDigit(b / 8 % 8), OctalDigit(b % 8)];
      ThreeOctalDigits(b, rest);
      assert s[1..] == digits + rest;
      assert s[4..] == rest;
    }
  }

  lemma {:induction false} DecodeQuotedBytes(bytes: seq<byte>)
    ensures DecodeBody(QuoteBytes(bytes)) == Ok(bytes)
  {
    if bytes != [] {
      hide DecodeBody, QuoteByte;
      DecodeQuotedByte(bytes[0], QuoteBytes(bytes[1..]));
      DecodeQuotedBytes(bytes[1..]);
      assert [bytes[0]] + bytes[1..] == bytes;
    } else {
      assert DecodeBody("") == Ok([]);
    }
  }

  /** The quoted form of any path at all decodes to that path. */
  lemma QuotedPathDecodes(path: string)
    ensures DecodePath(Quote(path)) == Ok(path)
  {
    var body := QuoteBytes(Encode(path));
    DecodeQuotedBytes(Encode(path));
    DecodeEncoded(path);
    assert Quote(path)[1..|Quote(path)| - 1] == body;
  }

  lemma GitTokenDecodes(path: string)
    ensures DecodePath(GitToken(path)) == Ok(path)
  {
    if NeedsQuoting(path) {
      QuotedPathDecodes(path);
    } else {
      assert forall k :: 0 <= k < |path| ==> IsPlainChar(path[k]);
    }
  }

  // ----- one token at the front of a header -----

  function Longer(n: nat, r: Option<nat>): Option<nat> {
    match r
    case None => None
    case Some(m) => Some(n + m)
  }

  lemma PlainCharStays(c: char, rest: string)
    requires c != '"' && c != '\\'
    ensures QuotedLength([c] + rest, false) == Longer(1, QuotedLength(rest, false))
  {
    assert ([c] + rest)[1..] == rest;
  }

  lemma EscapedCharStays(c: char, rest: string)
    ensures QuotedLength(['\\', c] + rest, false) == Longer(2, QuotedLength(rest, false))
  {
    assert (['\\', c] + rest)[1..] == [c] + rest;
    assert ([c] + rest)[1..] == rest;
    assert QuotedLength([c] + rest, true) == Longer(1, QuotedLength(rest, false));
  }

  lemma QuotedByteStays(b: byte, rest: string)
    ensures QuotedLength(QuoteByte(b) + rest, false) == Longer(|QuoteByte(b)|, QuotedLength(rest, false))
  {
    hide QuotedLength;
    if 32 <= b < 127 && b != 34 && b != 92 {
      PlainCharStays(b as char, rest);
    } else if 7 <= b <= 13 || b == 34 || b == 92 {
      EscapedCharStays(QuoteByte(b)[1], rest);
      assert QuoteByte(b) == ['\\', QuoteByte(b)[1]];
    } else {
      var x, y, z := OctalDigit(b / 64), OctalDigit(b / 8 % 8), OctalDigit(b % 8);
      EscapedCharStays(x, [y] + ([z] + rest));
      PlainCharStays(y, [z] + rest);
      PlainCharStays(z, rest);
      assert QuoteByte(b) + rest == ['\\', x] + ([y] + ([z] + rest));
    }
  }

  lemma {:induction false} QuotedBytesLength(bytes: seq<byte>, rest: string)
    ensures QuotedLength(QuoteBytes(bytes) + "\"" + rest, false) == Some(|QuoteBytes(bytes)| + 1)
  {
    if bytes == [] {
      assert QuoteBytes(bytes) + "\"" + rest == "\"" + rest;
    } else {
      hide QuotedLength, QuoteByte;
      QuotedByteStays(bytes[0], QuoteBytes(bytes[1..]) + "\"" + rest);
      QuotedBytesLength(bytes[1..], rest);
      assert QuoteBytes(bytes) + "\"" + rest == QuoteByte(bytes[0]) + (QuoteBytes(bytes[1..]) + "\"" + rest);
    }
  }

  lemma {:induction false} PlainLengthOf(token: string, rest: string)
    requires ' ' !in token && (rest == "" || rest[0] == ' ')
    ensures PlainLength(token + rest) == |token|
  {
    if token == "" {
      assert token + rest == rest;
    } else {
      PlainLengthOf(token[1..], rest);
      assert (token + rest)[1..] == token[1..] + rest;
    }
  }

  lemma QuotedTokenLength(bytes: seq<byte>, rest: string)
    ensures var token := "\"" + QuoteBytes(bytes) + "\"";
            TokenLength(token + rest) == Some(|token|)
  {
    hide QuoteBytes, QuotedLength;
    var token := "\"" + QuoteBytes(bytes) + "\"";
    QuotedBytesLength(bytes, rest);
    assert (token + rest)[1..] == QuoteBytes(bytes) + "\"" + rest;
  }

  lemma SafeTokenLength(path: string, rest: string)
    requires SafeInHeader(path) && (rest == "" || rest[0] == ' ')
    ensures var s := GitToken(path) + rest;
            s[0] != ' ' && TokenLength(s) == Some(|GitToken(path)|)
  {
    hide QuoteBytes;
    if NeedsQuoting(path) {
      QuotedTokenLength(Encode(path), rest);
    } else {
      assert IsPlainChar(path[0]);
      PlainLengthOf(path, rest);
    }
  }

  lemma TokenAtFront(path: string, rest: string)
    requires SafeInHeader(path) && (rest == "" || rest[0] == ' ')
    ensures TokensOf(GitToken(path) + rest) == PrependTokens([GitToken(path)], TokensOf(rest))
  {
    hide TokenLength, GitToken;
    var token := GitToken(path);
    var s := token + rest;
    SafeTokenLength(path, rest);
    assert s[0..] == s;
    assert s[..|token|] == token && s[|token|..] == rest;
  }

  lemma LeadingSpace(s: string)
    ensures TokensOf(" " + s) == TokensOf(s)
  {
    hide TokenLength;
    assert (" " + s)[1..] == s;
    assert (" " + s)[1 + Spaces(s)..] == s[Spaces(s)..];
  }

  /** Two paths that are safe in a header come back unchanged. */
  lemma SafePathsRoundTrip(a: string, b: string)
    requires SafeInHeader(a) && SafeInHeader(b)
    ensures SplitHeader(GitToken(a) + " " + GitToken(b)) == Ok((a, b))
  {
    hide GitToken, TokensOf, DecodePath;
    var tail := " " + GitToken(b);
    assert GitToken(a) + " " + GitToken(b) == GitToken(a) + tail;
    TokenAtFront(a, tail);
    LeadingSpace(GitToken(b));
    TokenAtFront(b, "");
    assert GitToken(b) + "" == GitToken(b);
    NoTokens();
    assert [GitToken(b)] + [] == [GitToken(b)];
    GitTokenDecodes(a);
    GitTokenDecodes(b);
  }

  lemma NoTokens()
    ensures TokensOf("") == Ok([])
  {
  }

  // ----- no other pair comes back -----

  predicate ProperToken(t: string) {
    t != "" && (t[0] == '"' || ' ' !in t)
  }

  /** Every token is non-empty and free of spaces unless quoted; the first one starts at the first non-space. */
  lemma {:induction false} TokensAreProper(s: string)
    requires TokensOf(s).Ok?
    ensures forall t :: t in TokensOf(s).value ==> ProperToken(t)
    ensures TokensOf(s).value != [] ==> Spaces(s) < |s| && TokensOf(s).value[0][0] == s[Spaces(s)]
    decreases |s|
  {
    var rest := s[Spaces(s)..];
    if rest != "" {
      var n := TokenLength(rest).value;
      FrontTokenIsProper(rest);
      hide TokenLength;
      TokensAreProper(rest[n..]);
    }
  }

  lemma FrontTokenIsProper(s: string)
    requires s != "" && s[0] != ' ' && TokenLength(s).Some?
    ensures ProperToken(s[..TokenLength(s).value])
  {
    if s[0] != '"' {
      var t := s[..PlainLength(s)];
      assert forall k :: 0 <= k < |t| ==> t[k] == s[k];
    }
  }

  lemma ProperDecodes(t: string, path: string)
    requires ProperToken(t) && t[0] != '"' && DecodePath(t) == Ok(path)
    ensures path != "" && ' ' !in path
  {
  }

  lemma {:induction false} SpacesOnly(a: string, rest: string)
    requires Spaces(a) == |a|
    ensures TokensOf(a + rest) == TokensOf(rest)
  {
    hide TokensOf;
    if a == "" {
      assert a + rest == rest;
    } else {
      assert a + rest == " " + (a[1..] + rest);
      LeadingSpace(a[1..] + rest);
      SpacesOnly(a[1..], rest);
    }
  }

  lemma {:induction false} FirstNonSpace(a: string, rest: string)
    requires Spaces(a) < |a|
    ensures Spaces(a + rest) == Spaces(a)
  {
    if a[0] == ' ' {
      FirstNonSpace(a[1..], rest);
      assert (a + rest)[1..] == a[1..] + rest;
    }
  }

  lemma UnquotedHasNoQuote(path: string, k: nat)
    requires !NeedsQuoting(path) && k < |path|
    ensures path[k] != '"'
  {
    assert IsPlainChar(path[k]);
  }

  /** An unsafe old path is lost: its token is cut at a space, or it is only spaces and leaves one token. */
  lemma UnsafeOldPathIsLost(a: string, b: string)
    requires !SafeInHeader(a)
    ensures SplitHeader(GitToken(a) + " " + GitToken(b)) != Ok((a, b))
  {
    hide TokensOf, DecodePath, NeedsQuoting, Quote;
    var value := a + " " + GitToken(b);
    assert value == a + (" " + GitToken(b));
    if TokensOf(value).Ok? && |TokensOf(value).value| == 2 {
      var t := TokensOf(value).value[0];
      TokensAreProper(value);
      assert ProperToken(t);
      if t[0] != '"' {
        if DecodePath(t) == Ok(a) {
          ProperDecodes(t, a);
        }
      } else {
        OnlyOneToken(a, b, value);
      }
    }
  }

  lemma OnlyOneToken(a: string, b: string, value: string)
    requires !SafeInHeader(a) && value == a + (" " + GitToken(b))
    requires Spaces(value) < |value| && value[Spaces(value)] == '"'
    ensures TokensOf(value) == Ok([GitToken(b)])
  {
    hide TokensOf, Quote;
    if Spaces(a) < |a| {
      FirstNonSpace(a, " " + GitToken(b));
      UnquotedHasNoQuote(a, Spaces(a));
      assert false;
    }
    SpacesOnly(a, " " + GitToken(b));
    LeadingSpace(GitToken(b));
    if !NeedsQuoting(b) {
      SpacesOfJoined(a, b);
      assert false;
    }
    TokenAtFront(b, "");
    NoTokens();
    assert GitToken(b) + "" == GitToken(b);
    assert [GitToken(b)] + [] == [GitToken(b)];
  }

  lemma {:induction false} SpacesOfJoined(a: string, b: string)
    requires Spaces(a) == |a| && !NeedsQuoting(b)
    ensures var value := a + (" " + b);
            Spaces(value) < |value| ==> value[Spaces(value)] != '"'
  {
    var value := a + (" " + b);
    var k := Spaces(value);
    assert forall i :: 0 <= i < |a| ==> value[i] == a[i] == ' ';
    if |a| < k < |value| {
      UnquotedHasNoQuote(b, k - |a| - 1);
    }
  }

  /** After a safe old path, an unsafe new path is lost in the same way. */
  lemma UnsafeNewPathIsLost(a: string, b: string)
    requires SafeInHeader(a) && !SafeInHeader(b)
    ensures SplitHeader(GitToken(a) + " " + GitToken(b)) != Ok((a, b))
  {
    hide TokensOf, DecodePath, Quote;
    var tail := " " + b;
    assert GitToken(a) + " " + GitToken(b) == GitToken(a) + tail;
    TokenAtFront(a, tail);
    LeadingSpace(b);
    if TokensOf(b).Ok? && |TokensOf(b).value| == 1 {
      var t := TokensOf(b).value[0];
      TokensAreProper(b);
      assert ProperToken(t);
      UnquotedHasNoQuote(b, Spaces(b));
      if DecodePath(t) == Ok(b) {
        ProperDecodes(t, b);
      }
    }
  }

  /**
   Quoting two paths as Git does, joining them with a space, then splitting and decoding gives the
   same two paths exactly when neither is written unquoted while empty or containing a space.
   */
  lemma HeaderRoundTrip(a: string, b: string)
    ensures SplitHeader(GitToken(a) + " " + GitToken(b)) == Ok((a, b)) <==> SafeInHeader(a) && SafeInHeader(b)
  {
    if !SafeInHeader(a) {
      UnsafeOldPathIsLost(a, b);
    } else if !SafeInHeader(b) {
      UnsafeNewPathIsLost(a, b);
    } else {
      SafePathsRoundTrip(a, b);
    }
  }
}
