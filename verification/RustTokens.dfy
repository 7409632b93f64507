/**
 What masking means, told without the scanner: a text is masked exactly when it is a sequence of Rust tokens, and
 then the characters of code stay and all other tokens become blank.
 */
module RustTokens {
  import opened RustMask
  import opened RustMaskTheorems
  import opened Text
  import opened Wrappers

  // ----- tokens and how they are written -----

  /** One character of an escaped string, or an escape with the character it protects. */
  datatype Piece = Literal(c: char) | Escaped(c: char)

  datatype CharText = Single(c: char) | Simple(c: char) | Byte(high: char, low: char) | Unicode(digits: string)

  datatype Token =
    | Code(c: char)
    | LineComment(body: string)
    | BlockComment(inside: Nest)
    | RawString(prefix: string, hashes: nat, body: string)
    | EscapedString(prefix: string, pieces: seq<Piece>)
    | Character(byte: bool, quoted: CharText)

  function Repeat(c: char, n: nat): (s: string)
    ensures |s| == n && forall k :: 0 <= k < n ==> s[k] == c
  {
    seq(n, _ => c)
  }

  function WrittenPiece(piece: Piece): string {
    match piece
    case Literal(c) => [c]
    case Escaped(c) => ['\\', c]
  }

  function WrittenPieces(pieces: seq<Piece>): string {
    if pieces == [] then "" else WrittenPiece(pieces[0]) + WrittenPieces(pieces[1..])
  }

  function WrittenChar(quoted: CharText): string {
    match quoted
    case Single(c) => [c]
    case Simple(c) => ['\\', c]
    case Byte(high, low) => ['\\', 'x', high, low]
    case Unicode(digits) => "\\u{" + digits + "}"
  }

  function Opening(prefix: string, hashes: nat): string {
    prefix + Repeat('#', hashes) + "\""
  }

  function Closing(hashes: nat): string {
    "\"" + Repeat('#', hashes)
  }

  function Written(token: Token): string {
    match token
    case Code(c) => [c]
    case LineComment(body) => "//" + body
    case BlockComment(inside) => "/*" + Render(inside)
    case RawString(prefix, hashes, body) => Opening(prefix, hashes) + body + Closing(hashes)
    case EscapedString(prefix, pieces) => prefix + "\"" + WrittenPieces(pieces) + "\""
    case Character(byte, quoted) => (if byte then "b" else "") + "'" + WrittenChar(quoted) + "'"
  }

  // ----- which tokens are well formed between the text before and the text after -----

  predicate IsHexDigit(c: char) {
    c in "0123456789abcdefABCDEF"
  }

  predicate IsCharText(quoted: CharText) {
    match quoted
    case Single(c) => c !in {'\\', '\'', '\r', '\n'}
    case Simple(c) => c in {'n', 'r', 't', '0', '\\', '\'', '"'}
    case Byte(high, low) => IsHexDigit(high) && IsHexDigit(low)
    case Unicode(digits) => 1 <= |digits| <= 6 && forall c :: c in digits ==> IsHexDigit(c) || c == '_'
  }

  predicate ArePieces(pieces: seq<Piece>) {
    forall piece :: piece in pieces && piece.Literal? ==> piece.c !in {'"', '\\'}
  }

  ghost predicate Contains(s: string, piece: string) {
    exists k: nat :: Occurs(s, k, piece)
  }

  /** The text ends within a word, so that a following letter only goes on with it. */
  predicate EndsInWord(before: string, alnum: CharClass) {
    before != "" && (alnum(before[|before| - 1]) || before[|before| - 1] == '_')
  }

  predicate BeginsRaw(before: string, s: string, prefix: string, hashes: nat, alnum: CharClass) {
    prefix in {"r", "br", "cr"} && hashes <= 255 && StartsWith(s, Opening(prefix, hashes)) && !EndsInWord(before, alnum)
  }

  predicate BeginsString(s: string, prefix: string) {
    prefix in {"", "b", "c"} && StartsWith(s, prefix + "\"")
  }

  /** No comment, string or character literal begins with `s`. */
  ghost predicate IsCode(before: string, s: string, alnum: CharClass) {
    && !StartsWith(s, "//") && !StartsWith(s, "/*")
    && (forall prefix, hashes :: !BeginsRaw(before, s, prefix, hashes, alnum))
    && (forall prefix :: !BeginsString(s, prefix))
    && (forall byte, quoted :: IsCharText(quoted) ==> !StartsWith(s, Written(Character(byte, quoted))))
  }

  ghost predicate IsToken(before: string, token: Token, after: string, alnum: CharClass) {
    match token
    case Code(c) => IsCode(before, [c] + after, alnum)
    case LineComment(body) => '\n' !in body && (after == "" || after[0] == '\n')
    case BlockComment(inside) => WellFormed(inside)
    case RawString(prefix, hashes, body) =>
      prefix in {"r", "br", "cr"} && hashes <= 255 && !EndsInWord(before, alnum) && !Contains(body, Closing(hashes))
    case EscapedString(prefix, pieces) => prefix in {"", "b", "c"} && ArePieces(pieces)
    case Character(byte, quoted) => IsCharText(quoted)
  }

  function TextOf(tokens: seq<Token>): string {
    if tokens == [] then "" else Written(tokens[0]) + TextOf(tokens[1..])
  }

  /** The tokens stand between `before` and `rest`. */
  ghost predicate AreTokens(before: string, tokens: seq<Token>, rest: string, alnum: CharClass)
    decreases |tokens|
  {
    tokens != [] ==>
      && IsToken(before, tokens[0], TextOf(tokens[1..]) + rest, alnum)
      && AreTokens(before + Written(tokens[0]), tokens[1..], rest, alnum)
  }

  /** Spaces, with the line ends left. */
  function Spaces(s: string): (r: string)
    ensures |r| == |s|
    ensures forall k :: 0 <= k < |s| ==> r[k] == if s[k] == '\r' || s[k] == '\n' then s[k] else ' '
  {
    seq(|s|, k requires 0 <= k < |s| => if s[k] == '\r' || s[k] == '\n' then s[k] else ' ')
  }

  /** Only code is left. */
  function CodeOf(tokens: seq<Token>): string {
    if tokens == [] then ""
    else (if tokens[0].Code? then [tokens[0].c] else Spaces(Written(tokens[0]))) + CodeOf(tokens[1..])
  }

  /** A comment or string begins with `rest` and never ends; the line is that of its first character. */
  ghost predicate NeverEnds(before: string, rest: string, error: MaskError, alnum: CharClass) {
    && error.line == Count(before, '\n') + 1
    && match error
       case UnterminatedBlockComment(_) =>
         StartsWith(rest, "/*") && forall inside :: WellFormed(inside) ==> !StartsWith(rest, Written(BlockComment(inside)))
       case UnterminatedRawString(_) =>
         exists prefix, hashes :: BeginsRaw(before, rest, prefix, hashes, alnum) &&
           !Contains(rest[|Opening(prefix, hashes)|..], Closing(hashes))
       case UnterminatedString(_) =>
         exists prefix :: BeginsString(rest, prefix) &&
           forall pieces :: ArePieces(pieces) ==> !StartsWith(rest, Written(EscapedString(prefix, pieces)))
  }

  // ----- texts and positions -----

  lemma StartsAt(text: string, i: nat, piece: string)
    requires i <= |text|
    ensures StartsWith(text[i..], piece) <==> Occurs(text, i, piece)
  {
    if i + |piece| <= |text| {
      assert text[i..][..|piece|] == text[i..i + |piece|];
    }
  }

  lemma PairAt(text: string, i: nat, piece: string)
    requires i <= |text| && |piece| == 2
    ensures StartsWith(text[i..], piece) <==> Pair(text, i, piece[0], piece[1])
  {
    StartsAt(text, i, piece);
    if i + 2 <= |text| {
      assert text[i..i + 2] == [text[i], text[i + 1]] && piece == [piece[0], piece[1]];
    }
  }

  lemma CharAt(text: string, i: nat, c: char)
    ensures Occurs(text, i, [c]) <==> i < |text| && text[i] == c
  {
    if i < |text| {
      assert text[i..i + 1] == [text[i]];
    }
  }

  // ----- raw strings -----

  lemma HashesAt(text: string, i: nat, n: nat)
    requires i <= |text|
    ensures Occurs(text, i, Repeat('#', n) + "\"") <==> i + n < |text| && text[i + n] == '"' && HashRun(text, i) == n
  {
    OccursSplit(text, i, Repeat('#', n), "\"");
    CharAt(text, i + n, '"');
    if i + n <= |text| && HashRun(text, i) == n {
      assert text[i..i + n] == Repeat('#', n);
    }
    if Occurs(text, i, Repeat('#', n)) {
      forall k | i <= k < i + n
        ensures text[k] == '#'
      {
        OccursAt(text, i, Repeat('#', n), k - i);
      }
    }
  }

  lemma ClosingAt(text: string, j: nat, hashes: nat)
    ensures Occurs(text, j, Closing(hashes)) <==> ClosesRaw(text, j, hashes)
  {
    OccursSplit(text, j, "\"", Repeat('#', hashes));
    CharAt(text, j, '"');
    if ClosesRaw(text, j, hashes) {
      assert text[j + 1..j + 1 + hashes] == Repeat('#', hashes);
    }
    if Occurs(text, j + 1, Repeat('#', hashes)) {
      forall k | j < k <= j + hashes
        ensures text[k] == '#'
      {
        OccursAt(text, j + 1, Repeat('#', hashes), k - (j + 1));
      }
    }
  }

  lemma PrefixAt(text: string, i: nat, prefix: string)
    requires i < |text| && prefix in {"r", "br", "cr"}
    ensures Occurs(text, i, prefix) ==> RawPrefix(text, i) == |prefix|
    ensures RawPrefix(text, i) > 0 ==> exists p :: p in {"r", "br", "cr"} && Occurs(text, i, p) && |p| == RawPrefix(text, i)
  {
    CharAt(text, i, 'r');
    StartsAt(text, i, "br");
    StartsAt(text, i, "cr");
    PairAt(text, i, "br");
    PairAt(text, i, "cr");
    assert prefix == "r" || prefix == "br" || prefix == "cr";
    assert "r" in {"r", "br", "cr"} && "br" in {"r", "br", "cr"} && "cr" in {"r", "br", "cr"};
  }

  lemma OpeningAt(text: string, i: nat, prefix: string, hashes: nat)
    requires i < |text| && prefix in {"r", "br", "cr"}
    ensures StartsWith(text[i..], Opening(prefix, hashes)) <==>
            && Occurs(text, i, prefix) && RawPrefix(text, i) == |prefix|
            && HashRun(text, i + |prefix|) == hashes
            && i + |prefix| + hashes < |text| && text[i + |prefix| + hashes] == '"'
  {
    StartsAt(text, i, Opening(prefix, hashes));
    assert Opening(prefix, hashes) == prefix + (Repeat('#', hashes) + "\"");
    OccursSplit(text, i, prefix, Repeat('#', hashes) + "\"");
    PrefixAt(text, i, prefix);
    if Occurs(text, i, prefix) {
      HashesAt(text, i + |prefix|, hashes);
    }
  }

  /** A raw string begins exactly where the scanner sees one. */
  lemma RawIsSeen(text: string, i: nat, prefix: string, hashes: nat, alnum: CharClass)
    requires i < |text| && BeginsRaw(text[..i], text[i..], prefix, hashes, alnum)
    ensures OpensRaw(text, i, alnum) && RawPrefix(text, i) == |prefix| && HashRun(text, i + |prefix|) == hashes
    ensures Occurs(text, i, Opening(prefix, hashes))
  {
    hide HashRun, RawPrefix, Opening;
    OpeningAt(text, i, prefix, hashes);
    StartsAt(text, i, Opening(prefix, hashes));
  }

  lemma RawIsBegun(text: string, i: nat, alnum: CharClass) returns (prefix: string)
    requires i < |text| && OpensRaw(text, i, alnum)
    ensures |prefix| == RawPrefix(text, i)
    ensures BeginsRaw(text[..i], text[i..], prefix, HashRun(text, i + |prefix|), alnum)
  {
    hide HashRun, RawPrefix, Opening;
    PrefixAt(text, i, "r");
    prefix :| prefix in {"r", "br", "cr"} && Occurs(text, i, prefix) && |prefix| == RawPrefix(text, i);
    OpeningAt(text, i, prefix, HashRun(text, i + |prefix|));
  }

  lemma OccursWithin(text: string, s: nat, e: nat, k: nat, piece: string)
    requires s <= e <= |text|
    ensures Occurs(text[s..e], k, piece) <==> s + k + |piece| <= e && Occurs(text, s + k, piece)
  {
    if s + k + |piece| <= e {
      var part := text[s..e];
      assert forall m :: s <= m < e ==> text[m] == part[m - s];
      assert part[k..k + |piece|] == text[s + k..s + k + |piece|];
    }
  }

  lemma QuoteIsNoHash(text: string, j: nat, hashes: nat, e: nat)
    requires ClosesRaw(text, j, hashes) && j < e < |text| && text[e] == '"'
    ensures j + hashes < e
  {
  }

  /** A raw string runs up to the first closing. */
  lemma RawBodyEnds(text: string, s: nat, hashes: nat, e: nat)
    requires s <= e <= |text|
    ensures RawClose(text, s, hashes) == Some(e) <==>
            Occurs(text, e, Closing(hashes)) && !Contains(text[s..e], Closing(hashes))
  {
    var closing := Closing(hashes);
    ClosingAt(text, e, hashes);
    if Contains(text[s..e], closing) {
      var k: nat :| Occurs(text[s..e], k, closing);
      OccursWithin(text, s, e, k, closing);
      ClosingAt(text, s + k, hashes);
    }
    if Occurs(text, e, closing) && RawClose(text, s, hashes) != Some(e) {
      var j := RawClose(text, s, hashes).value;
      ClosingAt(text, j, hashes);
      QuoteIsNoHash(text, j, hashes, e);
      OccursWithin(text, s, e, j - s, closing);
    }
  }

  lemma RawNeverEnds(text: string, s: nat, hashes: nat)
    requires s <= |text|
    ensures RawClose(text, s, hashes).None? <==> !Contains(text[s..], Closing(hashes))
  {
    var closing, rest := Closing(hashes), text[s..];
    assert rest == text[s..|text|];
    if RawClose(text, s, hashes).Some? {
      var j := RawClose(text, s, hashes).value;
      ClosingAt(text, j, hashes);
      OccursWithin(text, s, |text|, j - s, closing);
    }
    if Contains(rest, closing) {
      var k: nat :| Occurs(rest, k, closing);
      OccursWithin(text, s, |text|, k, closing);
      ClosingAt(text, s + k, hashes);
    }
  }

  // ----- escaped strings -----

  /** Written pieces and a quote are read to their end. */
  lemma {:induction false} PiecesAreRead(text: string, i: nat, pieces: seq<Piece>)
    requires i <= |text| && ArePieces(pieces) && Occurs(text, i, WrittenPieces(pieces) + "\"")
    ensures StringEnd(text, i, false) == Some(i + |WrittenPieces(pieces)| + 1)
    decreases |pieces|
  {
    if pieces == [] {
      CharAt(text, i, '"');
      assert WrittenPieces(pieces) + "\"" == "\"";
    } else {
      var first, rest := WrittenPiece(pieces[0]), WrittenPieces(pieces[1..]);
      assert WrittenPieces(pieces) + "\"" == first + (rest + "\"");
      OccursSplit(text, i, first, rest + "\"");
      OccursAt(text, i, first, 0);
      assert pieces[0] in pieces;
      assert ArePieces(pieces[1..]);
      PiecesAreRead(text, i + |first|, pieces[1..]);
      if pieces[0].Escaped? {
        assert StringEnd(text, i, false) == StringEnd(text, i + 1, true) == StringEnd(text, i + 2, false);
      }
    }
  }

  lemma {:induction false} PiecesAreFound(text: string, i: nat) returns (pieces: seq<Piece>)
    requires i <= |text| && StringEnd(text, i, false).Some?
    ensures ArePieces(pieces) && Occurs(text, i, WrittenPieces(pieces) + "\"")
    ensures StringEnd(text, i, false) == Some(i + |WrittenPieces(pieces)| + 1)
    decreases |text| - i
  {
    if text[i] == '"' {
      pieces := [];
      CharAt(text, i, '"');
      assert WrittenPieces(pieces) + "\"" == "\"";
    } else {
      var piece := if text[i] == '\\' then Escaped(text[i + 1]) else Literal(text[i]);
      var first := WrittenPiece(piece);
      var rest := PiecesAreFound(text, i + |first|);
      pieces := [piece] + rest;
      assert pieces[1..] == rest;
      assert WrittenPieces(pieces) + "\"" == first + (WrittenPieces(rest) + "\"");
      assert text[i..i + |first|] == first;
      OccursSplit(text, i, first, WrittenPieces(rest) + "\"");
    }
  }

  lemma StringBegins(text: string, i: nat, prefix: string)
    requires i < |text|
    ensures BeginsString(text[i..], prefix) ==> StringPrefix(text, i) == |prefix| + 1
    ensures StringPrefix(text, i) > 0 ==> exists p :: BeginsString(text[i..], p)
  {
    PairAt(text, i, "b\"");
    PairAt(text, i, "c\"");
    StartsAt(text, i, "\"");
    CharAt(text, i, '"');
    assert "" + "\"" == "\"" && "b" + "\"" == "b\"" && "c" + "\"" == "c\"";
    assert prefix in {"", "b", "c"} ==> prefix == "" || prefix == "b" || prefix == "c";
    assert StringPrefix(text, i) == 1 ==> BeginsString(text[i..], "");
    assert StringPrefix(text, i) == 2 ==> BeginsString(text[i..], "b") || BeginsString(text[i..], "c");
  }

  // ----- character literals -----

  lemma QuotedAt(text: string, i: nat, a: string, n: nat)
    requires |a| == n
    ensures Occurs(text, i, "'" + a + "'") <==> Pair3(text, i, n) && Occurs(text, i + 1, a)
  {
    OccursSplit(text, i, "'" + a, "'");
    OccursSplit(text, i, "'", a);
    CharAt(text, i, '\'');
    CharAt(text, i + 1 + n, '\'');
  }

  /** Quotes around `n` characters. */
  predicate Pair3(text: string, i: nat, n: nat) {
    i + n + 1 < |text| && text[i] == '\'' && text[i + 1 + n] == '\''
  }

  lemma HexDigits(c: char)
    ensures IsHexDigit(c) <==> IsHex(c)
  {
    var digits := "0123456789abcdefABCDEF";
    assert c in digits <==> c in {'0', '1', '2', '3', '4', '5', '6', '7', '8', '9', 'a', 'b', 'c', 'd', 'e', 'f',
                                  'A', 'B', 'C', 'D', 'E', 'F'};
  }

  lemma {:induction false} HexRunIs(text: string, i: nat, n: nat)
    requires i + n < |text| && !IsHex(text[i + n]) && text[i + n] != '_'
    requires forall k :: i <= k < i + n ==> IsHex(text[k]) || text[k] == '_'
    ensures HexRun(text, i) == n
    decreases n
  {
    if n > 0 {
      HexRunIs(text, i + 1, n - 1);
    }
  }

  lemma UnicodeIsTaken(text: string, i: nat, digits: string)
    requires 1 <= |digits| <= 6 && forall c :: c in digits ==> IsHexDigit(c) || c == '_'
    requires Occurs(text, i, "\\u{" + digits + "}")
    ensures CharBody(text, i) == |digits| + 4
  {
    hide IsHexDigit, IsHex;
    var n := |digits|;
    OccursSplit(text, i, "\\u{" + digits, "}");
    OccursSplit(text, i, "\\u{", digits);
    OccursAt(text, i, "\\u{", 0);
    OccursAt(text, i, "\\u{", 1);
    OccursAt(text, i, "\\u{", 2);
    CharAt(text, i + 3 + n, '}');
    forall k | i + 3 <= k < i + 3 + n
      ensures IsHex(text[k]) || text[k] == '_'
    {
      OccursAt(text, i + 3, digits, k - i - 3);
      HexDigits(text[k]);
    }
    HexDigits('}');
    NoDigit('}');
    HexRunIs(text, i + 3, n);
  }

  lemma NoDigit(c: char)
    requires c == '}'
    ensures !IsHex(c)
  {
  }

  lemma ByteIsTaken(text: string, i: nat, high: char, low: char)
    requires IsHexDigit(high) && IsHexDigit(low) && Occurs(text, i, ['\\', 'x', high, low] + "'")
    ensures CharBody(text, i) == 4
  {
    hide IsHexDigit, IsHex, HexRun;
    var s := ['\\', 'x', high, low] + "'";
    HexDigits(high);
    HexDigits(low);
    OccursAt(text, i, s, 0);
    OccursAt(text, i, s, 1);
    OccursAt(text, i, s, 2);
    OccursAt(text, i, s, 3);
  }

  /** A written character is taken as a whole. */
  lemma CharTextIsTaken(text: string, i: nat, quoted: CharText)
    requires IsCharText(quoted) && Occurs(text, i, WrittenChar(quoted) + "'")
    ensures CharBody(text, i) == |WrittenChar(quoted)|
  {
    hide IsHexDigit, IsHex, HexRun;
    OccursSplit(text, i, WrittenChar(quoted), "'");
    if quoted.Byte? {
      ByteIsTaken(text, i, quoted.high, quoted.low);
    } else if quoted.Unicode? {
      UnicodeIsTaken(text, i, quoted.digits);
    } else {
      OccursAt(text, i, WrittenChar(quoted), 0);
      if quoted.Simple? {
        OccursAt(text, i, WrittenChar(quoted), 1);
      }
    }
  }

  lemma CharTextIsFound(text: string, i: nat) returns (quoted: CharText)
    requires i <= |text| && CharBody(text, i) > 0
    ensures IsCharText(quoted) && WrittenChar(quoted) == text[i..i + CharBody(text, i)]
  {
    hide IsHexDigit, IsHex, HexRun;
    if text[i] != '\\' {
      quoted := Single(text[i]);
    } else if text[i + 1] == 'x' {
      quoted := Byte(text[i + 2], text[i + 3]);
      HexDigits(text[i + 2]);
      HexDigits(text[i + 3]);
    } else if text[i + 1] == 'u' {
      quoted := UnicodeIsFound(text, i);
    } else {
      quoted := Simple(text[i + 1]);
    }
  }

  lemma UnicodeIsFound(text: string, i: nat) returns (quoted: CharText)
    requires i + 1 < |text| && text[i] == '\\' && text[i + 1] == 'u' && CharBody(text, i) > 0
    ensures IsCharText(quoted) && WrittenChar(quoted) == text[i..i + CharBody(text, i)]
  {
    hide IsHexDigit, IsHex, Occurs;
    var n := HexRun(text, i + 3);
    var digits := text[i + 3..i + 3 + n];
    quoted := Unicode(digits);
    forall c | c in digits
      ensures IsHexDigit(c) || c == '_'
    {
      var k :| 0 <= k < n && digits[k] == c;
      assert text[i + 3 + k] == c;
      HexDigits(c);
    }
    IsThere(text, i + 3, digits);
    ThreeAt(text, i);
    CharAt(text, i + 3 + n, '}');
    OccursSplit(text, i, "\\u{", digits);
    OccursSplit(text, i, "\\u{" + digits, "}");
    IsThere(text, i, "\\u{" + digits + "}");
  }

  lemma IsThere(text: string, i: nat, piece: string)
    ensures Occurs(text, i, piece) <==> i + |piece| <= |text| && text[i..i + |piece|] == piece
  {
  }

  lemma ThreeAt(text: string, i: nat)
    requires i + 2 < |text| && text[i] == '\\' && text[i + 1] == 'u' && text[i + 2] == '{'
    ensures Occurs(text, i, "\\u{")
  {
  }

  lemma CharacterIsTaken(text: string, i: nat, byte: bool, quoted: CharText)
    requires IsCharText(quoted) && Occurs(text, i, Written(Character(byte, quoted)))
    ensures i < |text| && CharEnd(text, i) == Some(i + |Written(Character(byte, quoted))|)
  {
    hide IsCharText, CharBody, Occurs;
    var at, s := if byte then i + 1 else i, WrittenChar(quoted);
    if byte {
      assert Written(Character(byte, quoted)) == "b" + ("'" + s + "'");
      OccursSplit(text, i, "b", "'" + s + "'");
      CharAt(text, i, 'b');
    } else {
      assert Written(Character(byte, quoted)) == "'" + s + "'";
    }
    QuotedAt(text, at, s, |s|);
    OccursSplit(text, at, "'", s + "'");
    assert "'" + s + "'" == "'" + (s + "'");
    CharTextIsTaken(text, at + 1, quoted);
    CharTextIsLong(quoted);
  }

  lemma CharTextIsLong(quoted: CharText)
    ensures |WrittenChar(quoted)| > 0
  {
  }

  lemma LiteralShape(text: string, i: nat, at: nat)
    requires i < |text| && CharEnd(text, i).Some? && at == if Pair(text, i, 'b', '\'') then i + 1 else i
    ensures at + 1 <= |text| && CharBody(text, at + 1) > 0 && Pair3(text, at, CharBody(text, at + 1))
    ensures CharEnd(text, i).value == at + CharBody(text, at + 1) + 2
  {
    hide CharBody;
  }

  lemma CharacterIsFound(text: string, i: nat) returns (byte: bool, quoted: CharText)
    requires i < |text| && CharEnd(text, i).Some?
    ensures IsCharText(quoted) && Occurs(text, i, Written(Character(byte, quoted)))
    ensures CharEnd(text, i).value == i + |Written(Character(byte, quoted))|
  {
    hide IsCharText, CharBody, Occurs, CharEnd, WrittenChar;
    byte := Pair(text, i, 'b', '\'');
    var at := if byte then i + 1 else i;
    LiteralShape(text, i, at);
    quoted := CharTextIsFound(text, at + 1);
    var s := WrittenChar(quoted);
    IsThere(text, at + 1, s);
    QuotedAt(text, at, s, |s|);
    if byte {
      assert Written(Character(byte, quoted)) == "b" + ("'" + s + "'");
      OccursSplit(text, i, "b", "'" + s + "'");
      CharAt(text, i, 'b');
    } else {
      assert Written(Character(byte, quoted)) == "'" + s + "'";
    }
  }

  // ----- one step of the scanner is one token -----

  /** Where a character of code stands, the scanner keeps it, and nowhere else. */
  lemma CodeIsKept(text: string, i: nat, alnum: CharClass)
    requires i < |text|
    ensures Lex(text, i, alnum) == Keep <==> IsCode(text[..i], text[i..], alnum)
  {
    hide OpensRaw, StringPrefix, CharEnd, BeginsRaw, BeginsString, IsCharText, Written, BlockEnd, StringEnd, RawClose, HashRun, RawPrefix;
    var before, s := text[..i], text[i..];
    PairAt(text, i, "//");
    PairAt(text, i, "/*");
    if Lex(text, i, alnum) == Keep {
      forall prefix, hashes
        ensures !BeginsRaw(before, s, prefix, hashes, alnum)
      {
        if BeginsRaw(before, s, prefix, hashes, alnum) {
          RawIsSeen(text, i, prefix, hashes, alnum);
        }
      }
      forall prefix
        ensures !BeginsString(s, prefix)
      {
        StringBegins(text, i, prefix);
      }
      forall byte, quoted | IsCharText(quoted)
        ensures !StartsWith(s, Written(Character(byte, quoted)))
      {
        StartsAt(text, i, Written(Character(byte, quoted)));
        if Occurs(text, i, Written(Character(byte, quoted))) {
          CharacterIsTaken(text, i, byte, quoted);
        }
      }
    }
    if IsCode(before, s, alnum) {
      if OpensRaw(text, i, alnum) {
        var prefix := RawIsBegun(text, i, alnum);
      }
      StringBegins(text, i, "");
      if CharEnd(text, i).Some? {
        var byte, quoted := CharacterIsFound(text, i);
        StartsAt(text, i, Written(Character(byte, quoted)));
      }
    }
  }

  /** The line comment runs up to the first line feed. */
  lemma LineCommentEnds(text: string, i: nat, body: string)
    requires i <= |text| && Occurs(text, i, body)
    ensures IndexOrEnd(text, i, '\n') == i + |body| <==>
            '\n' !in body && (text[i + |body|..] == "" || text[i + |body|..][0] == '\n')
  {
    var e := i + |body|;
    forall k | i <= k < e
      ensures text[k] == body[k - i]
    {
      OccursAt(text, i, body, k - i);
    }
    assert '\n' in body <==> exists k :: i <= k < e && text[k] == '\n';
  }

  /** Every token but code is taken by the scanner as a whole. */
  lemma TokenIsTaken(text: string, i: nat, token: Token, alnum: CharClass)
    requires !token.Code? && Occurs(text, i, Written(token))
    requires IsToken(text[..i], token, text[i + |Written(token)|..], alnum)
    ensures i < |text| && Lex(text, i, alnum) == Hide(i + |Written(token)|)
  {
    match token {
      case LineComment(body) => LineCommentIsTaken(text, i, body, alnum);
      case BlockComment(inside) => BlockCommentIsTaken(text, i, inside, alnum);
      case RawString(prefix, hashes, body) => RawStringIsTaken(text, i, prefix, hashes, body, alnum);
      case EscapedString(prefix, pieces) => EscapedStringIsTaken(text, i, prefix, pieces, alnum);
      case Character(byte, quoted) => CharacterIsLexed(text, i, byte, quoted, alnum);
    }
  }

  lemma LineCommentIsTaken(text: string, i: nat, body: string, alnum: CharClass)
    requires Occurs(text, i, "//" + body) && '\n' !in body
    requires text[i + |body| + 2..] == "" || text[i + |body| + 2..][0] == '\n'
    ensures i < |text| && Lex(text, i, alnum) == Hide(i + |"//" + body|)
  {
    hide IndexOrEnd, OpensRaw, Occurs;
    OccursSplit(text, i, "//", body);
    IsThere(text, i, "//" + body);
    StartsAt(text, i, "//");
    PairAt(text, i, "//");
    LineCommentEnds(text, i + 2, body);
  }

  lemma BlockCommentIsTaken(text: string, i: nat, inside: Nest, alnum: CharClass)
    requires Occurs(text, i, "/*" + Render(inside)) && WellFormed(inside)
    ensures i < |text| && Lex(text, i, alnum) == Hide(i + |"/*" + Render(inside)|)
  {
    hide BlockEnd, Occurs, Render, WellFormed;
    OccursSplit(text, i, "/*", Render(inside));
    IsThere(text, i, "/*" + Render(inside));
    StartsAt(text, i, "/*");
    PairAt(text, i, "/*");
    BlockCommentIsNested(text, i, i + 2 + |Render(inside)|);
  }

  lemma RawStringIsTaken(text: string, i: nat, prefix: string, hashes: nat, body: string, alnum: CharClass)
    requires Occurs(text, i, Opening(prefix, hashes) + body + Closing(hashes)) && prefix in {"r", "br", "cr"} && hashes <= 255
    requires !EndsInWord(text[..i], alnum) && !Contains(body, Closing(hashes))
    ensures i < |text| && Lex(text, i, alnum) == Hide(i + |Opening(prefix, hashes) + body + Closing(hashes)|)
  {
    hide Occurs, RawClose, HashRun, OpensRaw, Contains;
    var opening, closing := Opening(prefix, hashes), Closing(hashes);
    OccursSplit(text, i, opening + body, closing);
    OccursSplit(text, i, opening, body);
    IsThere(text, i, opening + body + closing);
    IsThere(text, i + |opening|, body);
    StartsAt(text, i, opening);
    RawIsSeen(text, i, prefix, hashes, alnum);
    NotSlash(text, i, alnum);
    RawBodyEnds(text, i + |opening|, hashes, i + |opening| + |body|);
  }

  lemma NotSlash(text: string, i: nat, alnum: CharClass)
    requires i < |text| && (OpensRaw(text, i, alnum) || StringPrefix(text, i) > 0 || CharEnd(text, i).Some?)
    ensures !Pair(text, i, '/', '/') && !Pair(text, i, '/', '*')
  {
  }

  lemma EscapedStringIsTaken(text: string, i: nat, prefix: string, pieces: seq<Piece>, alnum: CharClass)
    requires prefix in {"", "b", "c"} && ArePieces(pieces) && Occurs(text, i, prefix + "\"" + WrittenPieces(pieces) + "\"")
    ensures i < |text| && Lex(text, i, alnum) == Hide(i + |prefix + "\"" + WrittenPieces(pieces) + "\""|)
  {
    hide Occurs, StringEnd, ArePieces;
    var opening, rest := prefix + "\"", WrittenPieces(pieces) + "\"";
    assert prefix + "\"" + WrittenPieces(pieces) + "\"" == opening + rest;
    OccursSplit(text, i, opening, rest);
    IsThere(text, i, opening + rest);
    StartsAt(text, i, opening);
    StringBegins(text, i, prefix);
    NotSlash(text, i, alnum);
    NoRawHere(text, i, alnum);
    PiecesAreRead(text, i + |opening|, pieces);
  }

  /** Where a string or a character begins, no raw string does. */
  lemma NoRawHere(text: string, i: nat, alnum: CharClass)
    requires i < |text| && (StringPrefix(text, i) > 0 || CharEnd(text, i).Some?)
    ensures !OpensRaw(text, i, alnum)
  {
  }

  lemma CharacterIsLexed(text: string, i: nat, byte: bool, quoted: CharText, alnum: CharClass)
    requires IsCharText(quoted) && Occurs(text, i, Written(Character(byte, quoted)))
    ensures i < |text| && Lex(text, i, alnum) == Hide(i + |Written(Character(byte, quoted))|)
  {
    hide Occurs, IsCharText, Written;
    CharacterIsTaken(text, i, byte, quoted);
    NotSlash(text, i, alnum);
    NoRawHere(text, i, alnum);
    NoStringHere(text, i);
  }

  lemma NoStringHere(text: string, i: nat)
    requires i < |text| && CharEnd(text, i).Some?
    ensures StringPrefix(text, i) == 0
  {
  }

  /** What the scanner hides is one token. */
  lemma TokenIsFound(text: string, i: nat, alnum: CharClass) returns (token: Token)
    requires i < |text| && Lex(text, i, alnum).Hide?
    ensures !token.Code? && Occurs(text, i, Written(token)) && Lex(text, i, alnum).end == i + |Written(token)|
    ensures IsToken(text[..i], token, text[i + |Written(token)|..], alnum)
  {
    hide BlockEnd, StringEnd, RawClose, HashRun, OpensRaw, CharEnd, IndexOrEnd, Occurs, IsCharText, ArePieces, Contains;
    var end := Lex(text, i, alnum).end;
    PairAt(text, i, "//");
    PairAt(text, i, "/*");
    StartsAt(text, i, "//");
    StartsAt(text, i, "/*");
    if Pair(text, i, '/', '/') {
      var body := text[i + 2..end];
      token := LineComment(body);
      IsThere(text, i + 2, body);
      OccursSplit(text, i, "//", body);
      LineCommentEnds(text, i + 2, body);
    } else if Pair(text, i, '/', '*') {
      BlockCommentIsNested(text, i, end);
      var inside :| WellFormed(inside) && Occurs(text, i + 2, Render(inside)) && end == i + 2 + |Render(inside)|;
      token := BlockComment(inside);
      OccursSplit(text, i, "/*", Render(inside));
    } else if OpensRaw(text, i, alnum) {
      token := RawStringIsFound(text, i, alnum);
    } else if StringPrefix(text, i) > 0 {
      token := StringIsFound(text, i);
    } else {
      var byte, quoted := CharacterIsFound(text, i);
      token := Character(byte, quoted);
    }
  }

  lemma RawStringIsFound(text: string, i: nat, alnum: CharClass) returns (token: Token)
    requires i < |text| && OpensRaw(text, i, alnum)
    requires i + RawPrefix(text, i) + HashRun(text, i + RawPrefix(text, i)) + 1 <= |text|
    requires var hashes := HashRun(text, i + RawPrefix(text, i));
             RawClose(text, i + RawPrefix(text, i) + hashes + 1, hashes).Some?
    ensures token.RawString? && Occurs(text, i, Written(token)) && IsToken(text[..i], token, text[i + |Written(token)|..], alnum)
    ensures var hashes := HashRun(text, i + RawPrefix(text, i));
            RawClose(text, i + RawPrefix(text, i) + hashes + 1, hashes).value + 1 + hashes == i + |Written(token)|
  {
    hide Occurs, RawClose, HashRun, OpensRaw, Contains;
    var prefix := RawIsBegun(text, i, alnum);
    var hashes := HashRun(text, i + |prefix|);
    var start := i + |prefix| + hashes + 1;
    var e := RawClose(text, start, hashes).value;
    RawBodyEnds(text, start, hashes, e);
    var opening, body, closing := Opening(prefix, hashes), text[start..e], Closing(hashes);
    token := RawString(prefix, hashes, body);
    StartsAt(text, i, opening);
    IsThere(text, start, body);
    OccursSplit(text, i, opening, body);
    OccursSplit(text, i, opening + body, closing);
  }

  lemma StringIsFound(text: string, i: nat) returns (token: Token)
    requires i < |text| && StringPrefix(text, i) > 0 && i + StringPrefix(text, i) <= |text|
    requires StringEnd(text, i + StringPrefix(text, i), false).Some?
    ensures token.EscapedString? && token.prefix in {"", "b", "c"} && ArePieces(token.pieces) && Occurs(text, i, Written(token))
    ensures StringEnd(text, i + StringPrefix(text, i), false).value == i + |Written(token)|
  {
    hide Occurs, StringEnd, ArePieces;
    StringBegins(text, i, "");
    var prefix :| BeginsString(text[i..], prefix);
    StringBegins(text, i, prefix);
    var opening := prefix + "\"";
    var pieces := PiecesAreFound(text, i + |opening|);
    token := EscapedString(prefix, pieces);
    StartsAt(text, i, opening);
    OccursSplit(text, i, opening, WrittenPieces(pieces) + "\"");
    assert Written(token) == opening + (WrittenPieces(pieces) + "\"");
  }

  // ----- where the scanner fails -----

  lemma InsideEnds(text: string, i: nat, inside: Nest)
    requires Pair(text, i, '/', '*') && WellFormed(inside) && Occurs(text, i + 2, Render(inside))
    ensures BlockEnd(text, i + 2, 1).Some?
  {
    hide BlockEnd, Render, WellFormed;
    BlockCommentIsNested(text, i, i + 2 + |Render(inside)|);
  }

  lemma CommentNeverEnds(text: string, i: nat)
    requires Pair(text, i, '/', '*')
    ensures BlockEnd(text, i + 2, 1).None? <==>
            forall inside :: WellFormed(inside) ==> !StartsWith(text[i..], Written(BlockComment(inside)))
  {
    hide BlockEnd, Occurs, Render, WellFormed;
    PairAt(text, i, "/*");
    StartsAt(text, i, "/*");
    forall inside
      ensures StartsWith(text[i..], Written(BlockComment(inside))) <==> Occurs(text, i + 2, Render(inside))
    {
      StartsAt(text, i, "/*" + Render(inside));
      OccursSplit(text, i, "/*", Render(inside));
    }
    forall inside | WellFormed(inside) && Occurs(text, i + 2, Render(inside))
      ensures BlockEnd(text, i + 2, 1).Some?
    {
      InsideEnds(text, i, inside);
    }
    if BlockEnd(text, i + 2, 1).Some? {
      BlockCommentIsNested(text, i, BlockEnd(text, i + 2, 1).value);
    }
  }

  lemma StringNeverEnds(text: string, i: nat, prefix: string)
    requires i < |text| && BeginsString(text[i..], prefix)
    ensures i + |prefix| + 1 <= |text|
    ensures StringEnd(text, i + |prefix| + 1, false).None? <==>
            forall pieces :: ArePieces(pieces) ==> !StartsWith(text[i..], Written(EscapedString(prefix, pieces)))
  {
    hide Occurs, StringEnd, ArePieces;
    var opening := prefix + "\"";
    StartsAt(text, i, opening);
    IsThere(text, i, opening);
    forall pieces
      ensures StartsWith(text[i..], Written(EscapedString(prefix, pieces))) <==>
              Occurs(text, i + |opening|, WrittenPieces(pieces) + "\"")
    {
      StringAfterOpening(text, i, prefix, pieces);
    }
    hide Written, BeginsString;
    forall pieces | ArePieces(pieces) && Occurs(text, i + |opening|, WrittenPieces(pieces) + "\"")
      ensures StringEnd(text, i + |opening|, false).Some?
    {
      PiecesAreRead(text, i + |opening|, pieces);
    }
    if StringEnd(text, i + |opening|, false).Some? {
      var pieces := PiecesAreFound(text, i + |opening|);
    }
  }

  lemma StringAfterOpening(text: string, i: nat, prefix: string, pieces: seq<Piece>)
    requires i <= |text| && Occurs(text, i, prefix + "\"")
    ensures StartsWith(text[i..], Written(EscapedString(prefix, pieces))) <==>
            Occurs(text, i + |prefix + "\""|, WrittenPieces(pieces) + "\"")
  {
    hide Occurs;
    var opening := prefix + "\"";
    assert Written(EscapedString(prefix, pieces)) == opening + (WrittenPieces(pieces) + "\"");
    StartsAt(text, i, opening + (WrittenPieces(pieces) + "\""));
    OccursSplit(text, i, opening, WrittenPieces(pieces) + "\"");
  }

  /** The scanner fails exactly where a token begins that never ends. */
  lemma FailureIsExact(text: string, i: nat, error: MaskError, alnum: CharClass)
    requires i < |text|
    ensures Lex(text, i, alnum) == Bad(error) <==> NeverEnds(text[..i], text[i..], error, alnum)
  {
    hide BlockEnd, StringEnd, RawClose, HashRun, OpensRaw, StringPrefix, RawPrefix, CharEnd, Count, Contains, Written,
      ArePieces, WellFormed,
      BeginsRaw, BeginsString;
    PairAt(text, i, "/*");
    match error {
      case UnterminatedBlockComment(_) =>
        if Pair(text, i, '/', '*') {
          CommentNeverEnds(text, i);
        }
      case UnterminatedRawString(_) =>
        RawFailure(text, i, error, alnum);
      case UnterminatedString(_) =>
        StringFailure(text, i, error, alnum);
    }
  }

  lemma RawFailure(text: string, i: nat, error: MaskError, alnum: CharClass)
    requires i < |text| && error.UnterminatedRawString?
    ensures Lex(text, i, alnum) == Bad(error) <==> NeverEnds(text[..i], text[i..], error, alnum)
  {
    hide BlockEnd, StringEnd, RawClose, HashRun, OpensRaw, StringPrefix, RawPrefix, CharEnd, Count, Contains;
    if OpensRaw(text, i, alnum) {
      NotSlash(text, i, alnum);
      var prefix := RawIsBegun(text, i, alnum);
      RawRestNeverEnds(text, i, prefix, HashRun(text, i + |prefix|), alnum);
    }
    forall prefix, hashes | BeginsRaw(text[..i], text[i..], prefix, hashes, alnum)
      ensures OpensRaw(text, i, alnum) && RawPrefix(text, i) == |prefix| && HashRun(text, i + |prefix|) == hashes
      ensures i + |prefix| + hashes + 1 <= |text|
      ensures RawClose(text, i + |prefix| + hashes + 1, hashes).None? <==>
              !Contains(text[i..][|Opening(prefix, hashes)|..], Closing(hashes))
    {
      RawIsSeen(text, i, prefix, hashes, alnum);
      RawRestNeverEnds(text, i, prefix, hashes, alnum);
    }
  }

  lemma RawRestNeverEnds(text: string, i: nat, prefix: string, hashes: nat, alnum: CharClass)
    requires i < |text| && BeginsRaw(text[..i], text[i..], prefix, hashes, alnum)
    ensures i + |prefix| + hashes + 1 <= |text| && |Opening(prefix, hashes)| == |prefix| + hashes + 1
    ensures RawClose(text, i + |prefix| + hashes + 1, hashes).None? <==>
            !Contains(text[i..][|Opening(prefix, hashes)|..], Closing(hashes))
  {
    hide RawClose, Contains;
    StartsAt(text, i, Opening(prefix, hashes));
    var start := i + |prefix| + hashes + 1;
    RawNeverEnds(text, start, hashes);
    assert text[i..][|Opening(prefix, hashes)|..] == text[start..];
  }

  lemma StringFailure(text: string, i: nat, error: MaskError, alnum: CharClass)
    requires i < |text| && error.UnterminatedString?
    ensures Lex(text, i, alnum) == Bad(error) <==> NeverEnds(text[..i], text[i..], error, alnum)
  {
    hide BlockEnd, StringEnd, RawClose, HashRun, OpensRaw, StringPrefix, RawPrefix, CharEnd, Count, BeginsString, ArePieces, Written;
    StringBegins(text, i, "");
    if StringPrefix(text, i) > 0 {
      NotSlash(text, i, alnum);
      NoRawHere(text, i, alnum);
    }
    forall prefix | BeginsString(text[i..], prefix)
      ensures StringPrefix(text, i) == |prefix| + 1 && i + |prefix| + 1 <= |text|
      ensures StringEnd(text, i + |prefix| + 1, false).None? <==>
              forall pieces :: ArePieces(pieces) ==> !StartsWith(text[i..], Written(EscapedString(prefix, pieces)))
    {
      StringBegins(text, i, prefix);
      StringNeverEnds(text, i, prefix);
    }
  }

  // ----- the whole text -----

  lemma SpacesAreBlank(s: string)
    ensures Spaces(s) == Blank(s)
  {
  }

  /** The scanner's first step from `i` takes this very token. */
  lemma FirstToken(text: string, i: nat, token: Token, alnum: CharClass)
    requires i <= |text| && Occurs(text, i, Written(token)) && IsToken(text[..i], token, text[i + |Written(token)|..], alnum)
    ensures MaskFrom(text, i, alnum)
         == Prepend(if token.Code? then [token.c] else Spaces(Written(token)), MaskFrom(text, i + |Written(token)|, alnum))
    ensures i < |text|
  {
    hide Lex, Spaces, Blank, IsCode;
    IsThere(text, i, Written(token));
    if token.Code? {
      CharAt(text, i, token.c);
      assert text[i..] == [token.c] + text[i + 1..];
      CodeIsKept(text, i, alnum);
    } else {
      TokenIsTaken(text, i, token, alnum);
      SpacesAreBlank(Written(token));
    }
  }

  lemma {:induction false} TokensAreMasked(text: string, i: nat, tokens: seq<Token>, rest: string, alnum: CharClass)
    requires i <= |text| && text[i..] == TextOf(tokens) + rest && AreTokens(text[..i], tokens, rest, alnum)
    ensures MaskFrom(text, i, alnum) == Prepend(CodeOf(tokens), MaskFrom(text, i + |TextOf(tokens)|, alnum))
    decreases |tokens|
  {
    hide MaskFrom, IsToken, Written;
    if tokens == [] {
      PrependNothing(MaskFrom(text, i, alnum));
    } else {
      var token, others := tokens[0], tokens[1..];
      var w, n := Written(token), |Written(token)|;
      assert TextOf(tokens) + rest == w + (TextOf(others) + rest);
      StartsAt(text, i, w);
      IsThere(text, i, w);
      assert text[i + n..] == text[i..][n..] == TextOf(others) + rest;
      assert text[..i + n] == text[..i] + w;
      FirstToken(text, i, token, alnum);
      TokensAreMasked(text, i + n, others, rest, alnum);
      var piece := if token.Code? then [token.c] else Spaces(w);
      PrependTwice(piece, CodeOf(others), MaskFrom(text, i + |TextOf(tokens)|, alnum));
    }
  }

  lemma PrependNothing(r: MaskResult)
    ensures Prepend("", r) == r
  {
    if r.Ok? {
      assert "" + r.value == r.value;
    }
  }

  /** Any text is tokens up to where the scanner ends or fails. */
  lemma {:induction false} TextIsTokens(text: string, i: nat, alnum: CharClass) returns (tokens: seq<Token>, j: nat)
    requires i <= |text|
    ensures i <= j <= |text| && text[i..j] == TextOf(tokens) && AreTokens(text[..i], tokens, text[j..], alnum)
    ensures j < |text| ==> Lex(text, j, alnum).Bad?
    decreases |text| - i
  {
    hide Lex, Written, IsToken;
    if i == |text| || Lex(text, i, alnum).Bad? {
      tokens, j := [], i;
    } else {
      var token := NextToken(text, i, alnum);
      var n := |Written(token)|;
      IsThere(text, i, Written(token));
      var others: seq<Token>;
      others, j := TextIsTokens(text, i + n, alnum);
      tokens := [token] + others;
      assert tokens[1..] == others;
      assert text[i..j] == text[i..i + n] + text[i + n..j];
      assert text[i + n..] == text[i + n..j] + text[j..];
      assert text[..i + n] == text[..i] + Written(token);
    }
  }

  lemma NextToken(text: string, i: nat, alnum: CharClass) returns (token: Token)
    requires i < |text| && !Lex(text, i, alnum).Bad?
    ensures Occurs(text, i, Written(token)) && |Written(token)| > 0
    ensures IsToken(text[..i], token, text[i + |Written(token)|..], alnum)
  {
    hide Lex, IsCode;
    if Lex(text, i, alnum).Keep? {
      token := Code(text[i]);
      CharAt(text, i, text[i]);
      CodeIsKept(text, i, alnum);
      assert text[i..] == [text[i]] + text[i + 1..];
    } else {
      token := TokenIsFound(text, i, alnum);
      SomethingHidden(text, i, alnum);
    }
  }

  lemma SomethingHidden(text: string, i: nat, alnum: CharClass)
    requires i < |text| && Lex(text, i, alnum).Hide?
    ensures Lex(text, i, alnum).end > i
  {
    hide Lex;
  }

  /**
   A text is masked exactly when it is a sequence of tokens; then just the code is left. Masking fails exactly when,
   after some tokens, a comment or string begins that never ends, and the line is that of its beginning.
   */
  lemma MaskIsExact(text: string, alnum: CharClass, out: string, error: MaskError)
    ensures Mask(text, alnum) == Ok(out) <==>
            exists tokens :: AreTokens("", tokens, "", alnum) && TextOf(tokens) == text && CodeOf(tokens) == out
    ensures Mask(text, alnum) == Err(error) <==>
            exists tokens, rest :: AreTokens("", tokens, rest, alnum) && TextOf(tokens) + rest == text &&
              NeverEnds(TextOf(tokens), rest, error, alnum)
  {
    hide MaskFrom, AreTokens, Lex, NeverEnds;
    assert text[..0] == "" && text[0..] == text && text[|text|..] == "";
    var found, j := TextIsTokens(text, 0, alnum);
    assert text == text[..j] + text[j..];
    TokensMask(text, found, text[j..], alnum);
    assert TextOf(found) + "" == TextOf(found) && (j == |text| ==> text[j..] == "");
    if j < |text| {
      FailureIsExact(text, j, Lex(text, j, alnum).error, alnum);
    }
    if tokens :| AreTokens("", tokens, "", alnum) && TextOf(tokens) == text && CodeOf(tokens) == out {
      assert text == TextOf(tokens) + "";
      TokensMask(text, tokens, "", alnum);
    }
    if tokens, rest :|
      AreTokens("", tokens, rest, alnum) && TextOf(tokens) + rest == text && NeverEnds(TextOf(tokens), rest, error, alnum)
    {
      TokensMask(text, tokens, rest, alnum);
      SomethingBegins(TextOf(tokens), rest, error, alnum);
      var k := |TextOf(tokens)|;
      assert text[..k] == TextOf(tokens) && text[k..] == rest;
      FailureIsExact(text, k, error, alnum);
    }
  }

  lemma SomethingBegins(before: string, rest: string, error: MaskError, alnum: CharClass)
    requires NeverEnds(before, rest, error, alnum)
    ensures rest != ""
  {
  }

  /** What the mask is after these tokens: the code in them, or the failure of what follows. */
  lemma TokensMask(text: string, tokens: seq<Token>, rest: string, alnum: CharClass)
    requires text == TextOf(tokens) + rest && AreTokens("", tokens, rest, alnum)
    ensures rest == "" ==> Mask(text, alnum) == Ok(CodeOf(tokens))
    ensures rest != "" && Lex(text, |TextOf(tokens)|, alnum).Bad? ==> Mask(text, alnum) == Err(Lex(text, |TextOf(tokens)|, alnum).error)
  {
    hide AreTokens, Lex;
    assert text[..0] == "" && text[0..] == text;
    TokensAreMasked(text, 0, tokens, rest, alnum);
    assert CodeOf(tokens) + "" == CodeOf(tokens);
  }
}
