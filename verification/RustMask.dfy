/**
 The token masker: comments, strings and character literals of Rust source become spaces, and
 everything else, including every carriage return and newline, keeps its position.
 */
module RustMask {
  import opened Wrappers
  import opened Text

  datatype MaskError =
    | UnterminatedBlockComment(line: nat)
    | UnterminatedRawString(line: nat)
    | UnterminatedString(line: nat)

  /** What the scanner does at one position: step over one code character, hide a token, or fail. */
  datatype Lexeme = Keep | Hide(end: nat) | Bad(error: MaskError)

  type MaskResult = Result<string, MaskError>

  // ----- the tokens -----

  /** The position after the comment closes, from inside a block comment at nesting `depth`. */
  function BlockEnd(text: string, i: nat, depth: nat): (e: Option<nat>)
    requires i <= |text|
    ensures e.Some? ==> i <= e.value <= |text|
    decreases |text| - i
  {
    if depth == 0 then Some(i)
    else if i == |text| then None
    else if Pair(text, i, '/', '*') then BlockEnd(text, i + 2, depth + 1)
    else if Pair(text, i, '*', '/') then BlockEnd(text, i + 2, depth - 1)
    else BlockEnd(text, i + 1, depth)
  }

  /** The position after the closing quote of an escaped string, from inside its body. */
  function StringEnd(text: string, i: nat, escaped: bool): (e: Option<nat>)
    requires i <= |text|
    ensures e.Some? ==> i < e.value <= |text|
    decreases |text| - i
  {
    if i == |text| then None
    else if escaped then StringEnd(text, i + 1, false)
    else if text[i] == '\\' then StringEnd(text, i + 1, true)
    else if text[i] == '"' then Some(i + 1)
    else StringEnd(text, i + 1, false)
  }

  /** How many hash signs stand at `i`. */
  function HashRun(text: string, i: nat): (n: nat)
    requires i <= |text|
    ensures i + n <= |text|
    ensures forall k :: i <= k < i + n ==> text[k] == '#'
    ensures i + n < |text| ==> text[i + n] != '#'
    decreases |text| - i
  {
    if i < |text| && text[i] == '#' then 1 + HashRun(text, i + 1) else 0
  }

  predicate ClosesRaw(text: string, j: nat, hashes: nat) {
    j + 1 + hashes <= |text| && text[j] == '"' && forall k :: j < k <= j + hashes ==> text[k] == '#'
  }

  /** The first position at or after `i` where a quote is followed by `hashes` hash signs. */
  function RawClose(text: string, i: nat, hashes: nat): (j: Option<nat>)
    requires i <= |text|
    ensures j.Some? ==> i <= j.value && ClosesRaw(text, j.value, hashes)
    ensures forall k :: i <= k < (if j.Some? then j.value else |text|) ==> !ClosesRaw(text, k, hashes)
    decreases |text| - i
  {
    if i == |text| then None
    else if ClosesRaw(text, i, hashes) then Some(i)
    else RawClose(text, i + 1, hashes)
  }

  /** Length of a raw string prefix (`r`, `br` or `cr`) at `i`, or zero. */
  function RawPrefix(text: string, i: nat): (n: nat)
    requires i < |text|
    ensures i + n <= |text|
  {
    if text[i] == 'r' then 1
    else if Pair(text, i, 'b', 'r') || Pair(text, i, 'c', 'r') then 2
    else 0
  }

  predicate IsWord(c: char, alnum: CharClass) {
    alnum(c) || c == '_'
  }

  predicate OpensRaw(text: string, i: nat, alnum: CharClass)
    requires i < |text|
  {
    var p := RawPrefix(text, i);
    p > 0 &&
    (i == 0 || !IsWord(text[i - 1], alnum)) &&
    var h := HashRun(text, i + p);
    h <= 255 && i + p + h < |text| && text[i + p + h] == '"'
  }

  predicate IsHex(c: char) {
    '0' <= c <= '9' || 'a' <= c <= 'f' || 'A' <= c <= 'F'
  }

  function HexRun(text: string, i: nat): (n: nat)
    requires i <= |text|
    ensures i + n <= |text|
    ensures forall k :: i <= k < i + n ==> IsHex(text[k]) || text[k] == '_'
    ensures i + n < |text| ==> !IsHex(text[i + n]) && text[i + n] != '_'
    decreases |text| - i
  {
    if i < |text| && (IsHex(text[i]) || text[i] == '_') then 1 + HexRun(text, i + 1) else 0
  }

  /** Length of one character or escape between the quotes of a character literal, or zero. */
  function CharBody(text: string, i: nat): (n: nat)
    requires i <= |text|
    ensures i + n <= |text|
  {
    if i == |text| then 0
    else if text[i] == '\\' then
      if i + 1 == |text| then 0
      else if text[i + 1] in {'n', 'r', 't', '0', '\\', '\'', '"'} then 2
      else if text[i + 1] == 'x' then
        if i + 3 < |text| && IsHex(text[i + 2]) && IsHex(text[i + 3]) then 4 else 0
      else if Pair(text, i + 1, 'u', '{') then
        var n := HexRun(text, i + 3);
        if 1 <= n <= 6 && i + 3 + n < |text| && text[i + 3 + n] == '}' then n + 4 else 0
      else 0
    else if text[i] in {'\'', '\r', '\n'} then 0
    else 1
  }

  function QuotedCharEnd(text: string, i: nat): (e: Option<nat>)
    requires i < |text|
    ensures e.Some? ==> i + 3 <= e.value <= |text|
  {
    if text[i] != '\'' then None
    else
      var n := CharBody(text, i + 1);
      if n > 0 && i + 1 + n < |text| && text[i + 1 + n] == '\'' then Some(i + n + 2) else None
  }

  /** The end of a character or byte literal that starts at `i`. */
  function CharEnd(text: string, i: nat): (e: Option<nat>)
    requires i < |text|
    ensures e.Some? ==> i + 3 <= e.value <= |text|
  {
    if Pair(text, i, 'b', '\'') then QuotedCharEnd(text, i + 1) else QuotedCharEnd(text, i)
  }

  function StringPrefix(text: string, i: nat): nat
    requires i < |text|
  {
    if Pair(text, i, 'b', '"') || Pair(text, i, 'c', '"') then 2
    else if text[i] == '"' then 1
    else 0
  }

  /** One scanner decision. A hidden token is always at least two characters long. */
  function Lex(text: string, i: nat, alnum: CharClass): (lexeme: Lexeme)
    requires i < |text|
    ensures lexeme.Hide? ==> i + 2 <= lexeme.end <= |text|
  {
    if Pair(text, i, '/', '/') then Hide(IndexOrEnd(text, i + 2, '\n'))
    else if Pair(text, i, '/', '*') then
      var e := BlockEnd(text, i + 2, 1);
      if e.Some? then Hide(e.value) else Bad(UnterminatedBlockComment(LineOf(text, i)))
    else if OpensRaw(text, i, alnum) then
      var p := RawPrefix(text, i);
      var h := HashRun(text, i + p);
      var j := RawClose(text, i + p + h + 1, h);
      if j.Some? then Hide(j.value + 1 + h) else Bad(UnterminatedRawString(LineOf(text, i)))
    else if StringPrefix(text, i) > 0 then
      var e := StringEnd(text, i + StringPrefix(text, i), false);
      if e.Some? then Hide(e.value) else Bad(UnterminatedString(LineOf(text, i)))
    else
      var e := CharEnd(text, i);
      if e.Some? then Hide(e.value) else Keep
  }

  // ----- the masked text -----

  function BlankOf(c: char): char {
    if c == '\r' || c == '\n' then c else ' '
  }

  function Blank(s: string): (r: string)
    ensures |r| == |s|
    ensures forall k :: 0 <= k < |s| ==> r[k] == BlankOf(s[k])
  {
    seq(|s|, k requires 0 <= k < |s| => BlankOf(s[k]))
  }

  function Prepend(prefix: string, r: MaskResult): MaskResult {
    match r
    case Ok(rest) => Ok(prefix + rest)
    case Err(_) => r
  }

  /** The masked form of the text from position `i` on. */
  function MaskFrom(text: string, i: nat, alnum: CharClass): (r: MaskResult)
    requires i <= |text|
    ensures r.Ok? ==> |r.value| == |text| - i
    ensures i == |text| ==> r == Ok("")
    decreases |text| - i
  {
    if i == |text| then Ok("")
    else match Lex(text, i, alnum)
      case Keep => Prepend([text[i]], MaskFrom(text, i + 1, alnum))
      case Hide(end) => Prepend(Blank(text[i..end]), MaskFrom(text, end, alnum))
      case Bad(error) => Err(error)
  }

  function Mask(text: string, alnum: CharClass): MaskResult {
    MaskFrom(text, 0, alnum)
  }

  // ----- the scanner itself, on a character buffer changed in place -----

  function Hidden(s: string, start: nat, end: nat): string
    requires start <= end <= |s|
  {
    s[..start] + Blank(s[start..end]) + s[end..]
  }

  method HideRange(masked: array<char>, start: nat, end: nat)
    requires start <= end <= masked.Length
    modifies masked
    ensures masked[..] == Hidden(old(masked[..]), start, end)
  {
    var position := start;
    while position < end
      invariant start <= position <= end
      invariant forall k :: start <= k < position ==> masked[k] == BlankOf(old(masked[k]))
      invariant forall k :: 0 <= k < masked.Length && !(start <= k < position) ==> masked[k] == old(masked[k])
    {
      if masked[position] != '\r' && masked[position] != '\n' {
        masked[position] := ' ';
      }
      position := position + 1;
    }
  }

  method BlockCommentEnd(text: string, start: nat) returns (end: Option<nat>)
    requires Pair(text, start, '/', '*')
    ensures end == BlockEnd(text, start + 2, 1)
  {
    var depth, index := 1, start + 2;
    while index < |text| && depth > 0
      invariant 0 <= index <= |text| && depth >= 0
      invariant BlockEnd(text, index, depth) == BlockEnd(text, start + 2, 1)
    {
      if Pair(text, index, '/', '*') {
        depth, index := depth + 1, index + 2;
      } else if Pair(text, index, '*', '/') {
        depth, index := depth - 1, index + 2;
      } else {
        index := index + 1;
      }
    }
    end := if depth > 0 then None else Some(index);
  }

  method StringLiteralEnd(text: string, start: nat) returns (end: Option<nat>)
    requires start <= |text|
    ensures end == StringEnd(text, start, false)
  {
    var index, escaped := start, false;
    while index < |text|
      invariant start <= index <= |text|
      invariant StringEnd(text, index, escaped) == StringEnd(text, start, false)
    {
      if escaped {
        escaped := false;
      } else if text[index] == '\\' {
        escaped := true;
      } else if text[index] == '"' {
        return Some(index + 1);
      }
      index := index + 1;
    }
    end := None;
  }

  method NextLexeme(text: string, index: nat, alnum: CharClass) returns (lexeme: Lexeme)
    requires index < |text|
    ensures lexeme == Lex(text, index, alnum)
  {
    if Pair(text, index, '/', '/') {
      lexeme := Hide(IndexOrEnd(text, index + 2, '\n'));
    } else if Pair(text, index, '/', '*') {
      var end := BlockCommentEnd(text, index);
      lexeme := if end.Some? then Hide(end.value) else Bad(UnterminatedBlockComment(LineOf(text, index)));
    } else if OpensRaw(text, index, alnum) {
      var hashes := HashRun(text, index + RawPrefix(text, index));
      var closing := RawClose(text, index + RawPrefix(text, index) + hashes + 1, hashes);
      lexeme := if closing.Some? then Hide(closing.value + 1 + hashes)
                else Bad(UnterminatedRawString(LineOf(text, index)));
    } else if StringPrefix(text, index) > 0 {
      var end := StringLiteralEnd(text, index + StringPrefix(text, index));
      lexeme := if end.Some? then Hide(end.value) else Bad(UnterminatedString(LineOf(text, index)));
    } else {
      var end := CharEnd(text, index);
      lexeme := if end.Some? then Hide(end.value) else Keep;
    }
  }

  method MaskRustCommentsAndLiterals(text: string, alnum: CharClass) returns (r: MaskResult)
    ensures r == Mask(text, alnum)
  {
    var masked := new char[|text|](k requires 0 <= k < |text| => text[k]);
    assert masked[..] == text;
    assert Mask(text, alnum).Ok? ==> "" + Mask(text, alnum).value == Mask(text, alnum).value;
    var index := 0;
    while index < |text|
      invariant 0 <= index <= |text|
      invariant masked[index..] == text[index..]
      invariant Mask(text, alnum) == Prepend(masked[..index], MaskFrom(text, index, alnum))
    {
      ghost var before := masked[..];
      ghost var start := index;
      var lexeme := NextLexeme(text, index, alnum);
      match lexeme {
        case Keep =>
          index := index + 1;
        case Hide(end) =>
          HideRange(masked, index, end);
          index := end;
        case Bad(error) =>
          return Err(error);
      }
      ScanStep(text, start, index, before, masked[..], alnum);
    }
    assert masked[..index] == masked[..] == masked[..] + "";
    r := Ok(masked[..]);
  }

  lemma PrependTwice(a: string, b: string, r: MaskResult)
    ensures Prepend(a, Prepend(b, r)) == Prepend(a + b, r)
  {
    if r.Ok? {
      assert a + (b + r.value) == (a + b) + r.value;
    }
  }

  /** The buffer and the scan position after a lexeme at `start` has been dealt with. */
  predicate Applied(lexeme: Lexeme, start: nat, index: nat, before: string, after: string)
    requires start < index <= |before|
  {
    match lexeme
    case Keep => index == start + 1 && after == before
    case Hide(end) => index == end && after == Hidden(before, start, index)
    case Bad(_) => false
  }

  /** One turn of the scanner's loop extends the finished prefix by one lexeme. */
  lemma ScanStep(text: string, start: nat, index: nat, before: string, after: string, alnum: CharClass)
    requires start < index <= |text| && |before| == |after| == |text|
    requires before[start..] == text[start..]
    requires Mask(text, alnum) == Prepend(before[..start], MaskFrom(text, start, alnum))
    requires Applied(Lex(text, start, alnum), start, index, before, after)
    ensures after[index..] == text[index..]
    ensures Mask(text, alnum) == Prepend(after[..index], MaskFrom(text, index, alnum))
  {
    var piece := if Lex(text, start, alnum).Hide? then Blank(text[start..index]) else [text[start]];
    assert MaskFrom(text, start, alnum) == Prepend(piece, MaskFrom(text, index, alnum));
    SplitBuffer(text, start, index, before, after, piece, Lex(text, start, alnum).Hide?);
    PrependTwice(before[..start], piece, MaskFrom(text, index, alnum));
  }

  lemma SplitBuffer(text: string, start: nat, index: nat, before: string, after: string, piece: string, hidden: bool)
    requires start < index <= |text| && |before| == |after| == |text|
    requires before[start..] == text[start..]
    requires hidden ==> after == Hidden(before, start, index)
    requires hidden ==> piece == Blank(text[start..index])
    requires !hidden ==> after == before && index == start + 1 && piece == [text[start]]
    ensures after[index..] == text[index..]
    ensures after[..index] == before[..start] + piece
  {
    assert before[index..] == before[start..][index - start..] == text[index..];
    assert before[start..index] == before[start..][..index - start] == text[start..index];
    assert before[start] == before[start..][0] == text[start];
  }
}
