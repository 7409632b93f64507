/** Which quoted paths are decoded, and to what: exactly those that are written from characters, escapes and octal bytes. */
module QuotedPaths {
  import opened GitPaths
  import opened RustMask
  import opened RustMaskTheorems
  import opened Utf8
  import opened Wrappers

  /** A character as it is, a letter or sign behind a backslash, or a byte in octal digits. */
  datatype Item = Plain(c: char) | Short(c: char) | Octal(digits: string)

  const SHORT: map<char, byte> :=
    map['\\' := 92, '"' := 34, 'a' := 7, 'b' := 8, 't' := 9, 'n' := 10, 'v' := 11, 'f' := 12, 'r' := 13]

  predicate IsOctalDigit(c: char) {
    c in {'0', '1', '2', '3', '4', '5', '6', '7'}
  }

  function DigitValue(c: char): nat
    requires IsOctalDigit(c)
  {
    c as int - '0' as int
  }

  /** One to three octal digits. */
  function ByteValue(digits: string): nat
    requires 1 <= |digits| <= 3 && forall c :: c in digits ==> IsOctalDigit(c)
  {
    if |digits| == 1 then DigitValue(digits[0])
    else if |digits| == 2 then DigitValue(digits[0]) * 8 + DigitValue(digits[1])
    else DigitValue(digits[0]) * 64 + DigitValue(digits[1]) * 8 + DigitValue(digits[2])
  }

  function Written(item: Item): string {
    match item
    case Plain(c) => [c]
    case Short(c) => ['\\', c]
    case Octal(digits) => "\\" + digits
  }

  function TextOf(items: seq<Item>): string {
    if items == [] then "" else Written(items[0]) + TextOf(items[1..])
  }

  /** The item is proper before this text: three octal digits, or fewer if no further one follows. */
  predicate IsItem(item: Item, after: string) {
    match item
    case Plain(c) => c != '\\'
    case Short(c) => c in SHORT
    case Octal(digits) =>
      && 1 <= |digits| <= 3 && (forall c :: c in digits ==> IsOctalDigit(c)) && ByteValue(digits) <= 255
      && (|digits| < 3 && after != "" ==> !IsOctalDigit(after[0]))
  }

  predicate AreItems(items: seq<Item>) {
    items != [] ==> IsItem(items[0], TextOf(items[1..])) && AreItems(items[1..])
  }

  function BytesOfItem(item: Item): seq<byte>
    requires IsItem(item, "")
  {
    match item
    case Plain(c) => EncodeChar(c)
    case Short(c) => [SHORT[c]]
    case Octal(digits) => [ByteValue(digits)]
  }

  function BytesOf(items: seq<Item>): seq<byte>
    requires AreItems(items)
  {
    if items == [] then [] else BytesOfItem(items[0]) + BytesOf(items[1..])
  }

  lemma ShortIsEscape(c: char)
    ensures Escape(c).Some? <==> c in SHORT
    ensures c in SHORT ==> Escape(c) == Some(SHORT[c])
  {
  }

  lemma OctalIsDigit(c: char)
    ensures IsOctal(c) <==> IsOctalDigit(c)
    ensures IsOctalDigit(c) ==> c !in SHORT
  {
  }

  lemma OctalIsValue(digits: string)
    requires 1 <= |digits| <= 3 && forall c :: c in digits ==> IsOctalDigit(c)
    ensures (forall k :: 0 <= k < |digits| ==> IsOctal(digits[k])) && OctalValue(digits) == ByteValue(digits)
  {
    forall k | 0 <= k < |digits|
      ensures IsOctal(digits[k])
    {
      OctalIsDigit(digits[k]);
    }
    assert digits[..0] == "";
    if |digits| >= 2 {
      assert digits[..|digits| - 1][..|digits| - 2] == digits[..|digits| - 2];
    }
    if |digits| == 3 {
      assert digits[..2][..1] == digits[..1] && digits[..1][..0] == "";
    }
  }

  lemma RunOfDigits(digits: string, after: string)
    requires 1 <= |digits| <= 3 && (forall c :: c in digits ==> IsOctalDigit(c))
    requires |digits| < 3 && after != "" ==> !IsOctalDigit(after[0])
    ensures OctalLength(digits + after) == |digits|
  {
    var s := digits + after;
    forall k | 0 <= k < |s|
      ensures IsOctal(s[k]) <==> IsOctalDigit(s[k])
    {
      OctalIsDigit(s[k]);
    }
  }

  /** An item at the front is decoded to its byte or bytes. */
  lemma ItemIsDecoded(item: Item, after: string)
    requires IsItem(item, after)
    ensures IsItem(item, "") && DecodeBody(Written(item) + after) == GitPaths.Prepend(BytesOfItem(item), DecodeBody(after))
  {
    hide EncodeChar, OctalValue, ByteValue, OctalLength, Escape;
    var s := Written(item) + after;
    match item {
      case Plain(c) =>
        assert s[1..] == after;
      case Short(c) =>
        ShortIsEscape(c);
        assert s[2..] == after;
      case Octal(digits) =>
        var rest := digits + after;
        assert s == ['\\'] + rest && s[1..] == rest;
        OctalIsDigit(digits[0]);
        assert digits[0] in digits && s[1] == digits[0];
        ShortIsEscape(s[1]);
        RunOfDigits(digits, after);
        OctalIsValue(digits);
        assert rest[..|digits|] == digits && s[1 + |digits|..] == after;
    }
  }

  lemma {:induction false} ItemsAreDecoded(items: seq<Item>)
    requires AreItems(items)
    ensures DecodeBody(TextOf(items)) == Ok(BytesOf(items))
    decreases |items|
  {
    hide DecodeBody, IsItem, BytesOfItem, Written;
    if items == [] {
      NothingIsDecoded();
    } else {
      ItemIsDecoded(items[0], TextOf(items[1..]));
      ItemsAreDecoded(items[1..]);
    }
  }

  lemma NothingIsDecoded()
    ensures DecodeBody("") == Ok([])
  {
  }

  /** What is decoded at the front is an item. */
  lemma ItemIsFound(s: string) returns (item: Item, after: string)
    requires s != "" && DecodeBody(s).Ok?
    ensures s == Written(item) + after && IsItem(item, after) && |after| < |s|
    ensures DecodeBody(after).Ok?
  {
    hide EncodeChar, Escape;
    if s[0] != '\\' {
      item, after := Item.Plain(s[0]), s[1..];
    } else {
      ShortIsEscape(s[1]);
      if s[1] in SHORT {
        item, after := Short(s[1]), s[2..];
      } else {
        var n := OctalLength(s[1..]);
        var digits := s[1..][..n];
        item, after := Octal(digits), s[1 + n..];
        DigitsAreFound(s[1..], n);
        OctalIsValue(digits);
        assert s == ['\\'] + (digits + after);
      }
    }
  }

  lemma DigitsAreFound(s: string, n: nat)
    requires OctalLength(s) == n && n > 0
    ensures forall c :: c in s[..n] ==> IsOctalDigit(c)
    ensures n < 3 && s[n..] != "" ==> !IsOctalDigit(s[n..][0])
  {
    forall k | 0 <= k < |s|
      ensures IsOctal(s[k]) <==> IsOctalDigit(s[k])
    {
      OctalIsDigit(s[k]);
    }
  }

  lemma {:induction false} ItemsAreFound(s: string) returns (items: seq<Item>)
    requires DecodeBody(s).Ok?
    ensures AreItems(items) && TextOf(items) == s
    decreases |s|
  {
    hide DecodeBody, IsItem, Written;
    if s == "" {
      items := [];
    } else {
      var item, after := ItemIsFound(s);
      var rest := ItemsAreFound(after);
      items := [item] + rest;
      assert items[1..] == rest;
    }
  }

  /** The unquoted form, or the text between quotes as items whose bytes encode the path. */
  ghost predicate Denotes(value: string, path: string) {
    if value == "" || value[0] != '"' then value == path && '\t' !in value && '\r' !in value && '\n' !in value
    else exists items :: AreItems(items) && value == "\"" + TextOf(items) + "\"" && BytesOf(items) == Encode(path)
  }

  /** A value is decoded to a path exactly when it denotes that path. */
  lemma DecodesExactly(value: string, path: string)
    ensures DecodePath(value) == Ok(path) <==> Denotes(value, path)
  {
    hide DecodeBody, AreItems, TextOf, BytesOf, Encode, Decode;
    if value != "" && value[0] == '"' {
      if DecodePath(value) == Ok(path) {
        var body := value[1..|value| - 1];
        var items := ItemsAreFound(body);
        ItemsAreDecoded(items);
        DecodeIsExact(BytesOf(items), path);
        assert value == "\"" + TextOf(items) + "\"";
      }
      if Denotes(value, path) {
        var items :| AreItems(items) && value == "\"" + TextOf(items) + "\"" && BytesOf(items) == Encode(path);
        assert value[1..|value| - 1] == TextOf(items);
        ItemsAreDecoded(items);
        DecodeIsExact(BytesOf(items), path);
      }
    }
  }

  // ----- tokens of a header -----

  lemma {:induction false} QuotedIsString(s: string, i: nat, escaped: bool, n: nat)
    requires i <= |s|
    ensures QuotedLength(s[i..], escaped) == Some(n) <==> StringEnd(s, i, escaped) == Some(i + n)
    decreases |s| - i
  {
    if i < |s| && (s[i] != '"' || escaped) {
      assert s[i..][1..] == s[i + 1..];
      if n > 0 {
        QuotedIsString(s, i + 1, s[i] == '\\' && !escaped, n - 1);
      }
    }
  }

  /** The first `n` characters are a token: up to the first free quote after an opening one, or up to a space. */
  predicate TokenAt(s: string, n: nat) {
    && s != "" && s[0] != ' ' && 0 < n <= |s|
    && if s[0] == '"' then 1 < n && ClosesString(s, 1, n - 1) && forall j :: 1 <= j < n - 1 ==> !ClosesString(s, 1, j)
       else (forall k :: 0 <= k < n ==> s[k] != ' ') && (n < |s| ==> s[n] == ' ')
  }

  lemma TokenIsTaken(s: string, n: nat)
    requires s != "" && s[0] != ' '
    ensures TokenLength(s) == Some(n) <==> TokenAt(s, n)
  {
    if s[0] == '"' {
      if n > 0 {
        QuotedIsString(s, 1, false, n - 1);
        if 1 < n <= |s| {
          StringClosesAtFirstFreeQuote(s, 1, n);
        }
      }
    }
  }

  /** `g` spaces stand at the front. */
  predicate SpacesFirst(s: string, g: nat) {
    g <= |s| && forall k :: 0 <= k < g ==> s[k] == ' '
  }

  /** The text is these tokens with spaces between and around them. */
  ghost predicate SplitsInto(s: string, tokens: seq<string>)
    decreases |tokens|
  {
    exists g: nat :: SpacesFirst(s, g) &&
      if tokens == [] then g == |s|
      else TokenFollows(s[g..], tokens[0]) && SplitsInto(s[g..][|tokens[0]|..], tokens[1..])
  }

  predicate TokenFollows(s: string, token: string) {
    |token| <= |s| && TokenAt(s, |token|) && token == s[..|token|]
  }

  lemma GapIsSpaces(s: string, g: nat)
    requires SpacesFirst(s, g) && (g < |s| ==> s[g] != ' ')
    ensures Spaces(s) == g
  {
  }

  /** There is only one way to begin. */
  lemma SplitBegins(s: string, tokens: seq<string>)
    ensures SplitsInto(s, tokens) <==>
            var rest := s[Spaces(s)..];
            if tokens == [] then rest == "" else TokenFollows(rest, tokens[0]) && SplitsInto(rest[|tokens[0]|..], tokens[1..])
  {
    hide TokenAt, Spaces;
    assert SpacesFirst(s, Spaces(s));
    if SplitsInto(s, tokens) {
      var h: nat :| SpacesFirst(s, h) &&
        if tokens == [] then h == |s|
        else TokenFollows(s[h..], tokens[0]) && SplitsInto(s[h..][|tokens[0]|..], tokens[1..]);
      if tokens != [] {
        TokenHasFront(s[h..], |tokens[0]|);
      }
      GapIsSpaces(s, h);
    }
  }

  lemma TokenFollowsIs(s: string, token: string)
    requires s != "" && s[0] != ' '
    ensures TokenFollows(s, token) <==> TokenLength(s) == Some(|token|) && token == s[..|token|]
  {
    hide TokenAt, TokenLength;
    TokenIsTaken(s, |token|);
  }

  lemma {:induction false} TokensAreExact(s: string, tokens: seq<string>)
    ensures TokensOf(s) == Ok(tokens) <==> SplitsInto(s, tokens)
    decreases |s|
  {
    hide TokenFollows, TokenLength, Spaces, SplitsInto;
    var rest := s[Spaces(s)..];
    SplitBegins(s, tokens);
    NothingFollows();
    if rest != "" {
      if tokens != [] {
        TokenFollowsIs(rest, tokens[0]);
      }
      if TokenLength(rest).Some? {
        var n := TokenLength(rest).value;
        TokensAreExact(rest[n..], if tokens == [] then [] else tokens[1..]);
        assert tokens != [] ==> tokens == [tokens[0]] + tokens[1..];
      }
    }
  }

  lemma NothingFollows()
    ensures forall token :: !TokenFollows("", token)
  {
  }

  lemma TokenHasFront(s: string, n: nat)
    requires TokenAt(s, n)
    ensures s != "" && s[0] != ' ' && 0 < n <= |s|
  {
  }

  /** A header is split into two paths exactly when it is two tokens that denote them. */
  lemma HeaderIsExact(value: string, a: string, b: string)
    ensures SplitHeader(value) == Ok((a, b)) <==> exists x, y :: SplitsInto(value, [x, y]) && Denotes(x, a) && Denotes(y, b)
  {
    hide SplitsInto, Denotes, DecodePath, TokensOf;
    if SplitHeader(value) == Ok((a, b)) {
      var tokens := TokensOf(value).value;
      assert tokens == [tokens[0], tokens[1]];
      TokensAreExact(value, tokens);
      DecodesExactly(tokens[0], a);
      DecodesExactly(tokens[1], b);
    }
    if x, y :| SplitsInto(value, [x, y]) && Denotes(x, a) && Denotes(y, b) {
      TokensAreExact(value, [x, y]);
      DecodesExactly(x, a);
      DecodesExactly(y, b);
    }
  }
}
