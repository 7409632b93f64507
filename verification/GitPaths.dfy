/**
 Paths in Git diff headers: the double-quoted form with escapes, the two-token header line, and
 when quoting, joining, splitting and decoding give the same two paths back.
 */
module GitPaths {
  import opened Wrappers
  import opened Utf8

  datatype PathError =
    | AmbiguousSeparator
    | UnterminatedQuote
    | IncompleteEscape
    | UnsupportedEscape(escaped: char)
    | OctalTooLarge
    | NotUtf8
    | UnterminatedPath
    | NotTwoTokens

  type Bytes = Result<seq<byte>, PathError>

  // ----- decoding one token -----

  /** The byte a single-character escape stands for. */
  function Escape(c: char): Option<byte> {
    if c == '\\' then Some(92)
    else if c == '"' then Some(34)
    else if c == 'a' then Some(7)
    else if c == 'b' then Some(8)
    else if c == 't' then Some(9)
    else if c == 'n' then Some(10)
    else if c == 'v' then Some(11)
    else if c == 'f' then Some(12)
    else if c == 'r' then Some(13)
    else None
  }

  predicate IsOctal(c: char) {
    '0' <= c <= '7'
  }

  /** How many octal digits to read: one to three, as many as there are. */
  function OctalLength(s: string): (n: nat)
    ensures n <= 3 && n <= |s|
    ensures forall k :: 0 <= k < n ==> IsOctal(s[k])
    ensures n < 3 && n < |s| ==> !IsOctal(s[n])
  {
    if |s| == 0 || !IsOctal(s[0]) then 0
    else if |s| == 1 || !IsOctal(s[1]) then 1
    else if |s| == 2 || !IsOctal(s[2]) then 2
    else 3
  }

  function OctalValue(digits: string): nat
    requires forall k :: 0 <= k < |digits| ==> IsOctal(digits[k])
  {
    if digits == "" then 0
    else
      assert IsOctal(digits[|digits| - 1]);
      8 * OctalValue(digits[..|digits| - 1]) + (digits[|digits| - 1] as int - '0' as int)
  }

  function Prepend(front: seq<byte>, r: Bytes): Bytes {
    match r
    case Ok(rest) => Ok(front + rest)
    case Err(_) => r
  }

  /** The bytes between the quotes. */
  function DecodeBody(s: string): Bytes
    decreases |s|
  {
    if s == "" then Ok([])
    else if s[0] != '\\' then Prepend(EncodeChar(s[0]), DecodeBody(s[1..]))
    else if |s| == 1 then Err(IncompleteEscape)
    else if Escape(s[1]).Some? then Prepend([Escape(s[1]).value], DecodeBody(s[2..]))
    else
      var n := OctalLength(s[1..]);
      if n == 0 then Err(UnsupportedEscape(s[1]))
      else
        var value := OctalValue(s[1..][..n]);
        if value > 255 then Err(OctalTooLarge) else Prepend([value], DecodeBody(s[1 + n..]))
  }

  function DecodePath(value: string): Result<string, PathError> {
    if value == "" || value[0] != '"' then
      if '\t' in value || '\r' in value || '\n' in value then Err(AmbiguousSeparator) else Ok(value)
    else if |value| < 2 || value[|value| - 1] != '"' then Err(UnterminatedQuote)
    else
      match DecodeBody(value[1..|value| - 1])
      case Err(error) => Err(error)
      case Ok(bytes) =>
        match Decode(bytes)
        case None => Err(NotUtf8)
        case Some(path) => Ok(path)
  }

  lemma PrependTwice(a: seq<byte>, b: seq<byte>, r: Bytes)
    ensures Prepend(a, Prepend(b, r)) == Prepend(a + b, r)
  {
    if r.Ok? {
      assert a + (b + r.value) == (a + b) + r.value;
    }
  }

  /** One turn of the decoder's loop. */
  method DecodeQuoted(value: string) returns (r: Bytes)
    requires |value| >= 2
    ensures r == DecodeBody(value[1..|value| - 1])
  {
    var encoded: seq<byte> := [];
    var index, end := 1, |value| - 1;
    ghost var whole := DecodeBody(value[1..end]);
    assert whole.Ok? ==> [] + whole.value == whole.value;
    while index < end
      invariant 1 <= index <= end
      invariant whole == Prepend(encoded, DecodeBody(value[index..end]))
    {
      ghost var left := value[index..end];
      var character := value[index];
      var piece: seq<byte>;
      ghost var start := index;
      if character != '\\' {
        piece := EncodeChar(character);
        index := index + 1;
      } else {
        index := index + 1;
        if index >= end { return Err(IncompleteEscape); }
        var escaped := value[index];
        if Escape(escaped).Some? {
          piece := [Escape(escaped).value];
          index := index + 1;
        } else {
          var n := OctalLength(value[index..end]);
          assert left[1..] == value[index..end];
          if n == 0 { return Err(UnsupportedEscape(escaped)); }
          var octal := OctalValue(value[index..end][..n]);
          if octal > 255 { return Err(OctalTooLarge); }
          piece := [octal];
          index := index + n;
        }
      }
      assert left[index - start..] == value[index..end];
      PrependTwice(encoded, piece, DecodeBody(value[index..end]));
      encoded := encoded + piece;
    }
    assert encoded + [] == encoded;
    r := Ok(encoded);
  }

  method DecodeGitQuotedPath(value: string) returns (r: Result<string, PathError>)
    ensures r == DecodePath(value)
  {
    if value == "" || value[0] != '"' {
      return if '\t' in value || '\r' in value || '\n' in value then Err(AmbiguousSeparator) else Ok(value);
    }
    if |value| < 2 || value[|value| - 1] != '"' {
      return Err(UnterminatedQuote);
    }
    var bytes := DecodeQuoted(value);
    if bytes.Err? { return Err(bytes.error); }
    var path := Decode(bytes.value);
    r := if path.Some? then Ok(path.value) else Err(NotUtf8);
  }

  // ----- splitting a header -----

  function Spaces(s: string): (n: nat)
    ensures n <= |s|
    ensures forall k :: 0 <= k < n ==> s[k] == ' '
    ensures n < |s| ==> s[n] != ' '
  {
    if s != "" && s[0] == ' ' then 1 + Spaces(s[1..]) else 0
  }

  /** How far a quoted token reaches after its opening quote, closing quote included. */
  function QuotedLength(s: string, escaped: bool): (n: Option<nat>)
    ensures n.Some? ==> 0 < n.value <= |s|
  {
    if s == "" then None
    else if s[0] == '"' && !escaped then Some(1)
    else match QuotedLength(s[1..], s[0] == '\\' && !escaped)
      case None => None
      case Some(n) => Some(n + 1)
  }

  function PlainLength(s: string): (n: nat)
    ensures n <= |s|
    ensures forall k :: 0 <= k < n ==> s[k] != ' '
    ensures n < |s| ==> s[n] == ' '
  {
    if s == "" || s[0] == ' ' then 0 else 1 + PlainLength(s[1..])
  }

  /** The length of the token at the front of a text that starts with neither end nor space. */
  function TokenLength(s: string): (n: Option<nat>)
    requires s != "" && s[0] != ' '
    ensures n.Some? ==> 0 < n.value <= |s|
  {
    if s[0] == '"' then
      match QuotedLength(s[1..], false)
      case None => None
      case Some(n) => Some(n + 1)
    else Some(PlainLength(s))
  }

  type Tokens = Result<seq<string>, PathError>

  function TokensOf(s: string): Tokens
    decreases |s|
  {
    var rest := s[Spaces(s)..];
    if rest == "" then Ok([])
    else match TokenLength(rest)
      case None => Err(UnterminatedPath)
      case Some(n) =>
        match TokensOf(rest[n..])
        case Err(error) => Err(error)
        case Ok(tokens) => Ok([rest[..n]] + tokens)
  }

  function PrependTokens(front: seq<string>, r: Tokens): Tokens {
    match r
    case Ok(rest) => Ok(front + rest)
    case Err(_) => r
  }

  function SplitHeader(value: string): Result<(string, string), PathError> {
    match TokensOf(value)
    case Err(error) => Err(error)
    case Ok(tokens) =>
      if |tokens| != 2 then Err(NotTwoTokens)
      else
        var oldPath := DecodePath(tokens[0]);
        if oldPath.Err? then Err(oldPath.error)
        else
          var newPath := DecodePath(tokens[1]);
          if newPath.Err? then Err(newPath.error) else Ok((oldPath.value, newPath.value))
  }

  method QuotedEnd(value: string, start: nat) returns (end: Option<nat>)
    requires start < |value| && value[start] == '"'
    ensures end == (match QuotedLength(value[start + 1..], false)
                    case None => None
                    case Some(n) => Some(start + 1 + n))
  {
    var index, escaped := start + 1, false;
    ghost var whole := QuotedLength(value[index..], false);
    while index < |value|
      invariant start + 1 <= index <= |value|
      invariant whole == (match QuotedLength(value[index..], escaped)
                          case None => None
                          case Some(n) => Some(n + index - (start + 1)))
    {
      assert value[index..][1..] == value[index + 1..];
      var character := value[index];
      if character == '"' && !escaped {
        return Some(index + 1);
      }
      escaped := character == '\\' && !escaped;
      index := index + 1;
    }
    end := None;
  }

  method TokenEnd(value: string, start: nat) returns (end: Option<nat>)
    requires start < |value| && value[start] != ' '
    ensures end == (match TokenLength(value[start..])
                    case None => None
                    case Some(n) => Some(start + n))
  {
    if value[start] == '"' {
      end := QuotedEnd(value, start);
      assert value[start..][1..] == value[start + 1..];
    } else {
      end := Some(start + PlainLength(value[start..]));
    }
  }

  /** One token of the text from `index` on, in positions of the whole text. */
  lemma TokensUnfold(value: string, index: nat, start: nat)
    requires index <= |value| && start == index + Spaces(value[index..])
    ensures start == |value| ==> TokensOf(value[index..]) == Ok([])
    ensures start < |value| && TokenLength(value[start..]).None? ==> TokensOf(value[index..]) == Err(UnterminatedPath)
    ensures start < |value| && TokenLength(value[start..]).Some? ==>
              var end := start + TokenLength(value[start..]).value;
              TokensOf(value[index..]) == PrependTokens([value[start..end]], TokensOf(value[end..]))
  {
    hide TokenLength, Spaces;
    assert value[index..][start - index..] == value[start..];
    if start < |value| && TokenLength(value[start..]).Some? {
      var n := TokenLength(value[start..]).value;
      assert value[start..][..n] == value[start..start + n];
      assert value[start..][n..] == value[start + n..];
    }
  }

  method HeaderTokens(value: string) returns (r: Tokens)
    ensures r == TokensOf(value)
  {
    hide TokensOf, TokenLength, Spaces;
    var tokens: seq<string> := [];
    var index := 0;
    ghost var whole := TokensOf(value);
    assert value[0..] == value;
    assert whole.Ok? ==> [] + whole.value == whole.value;
    while index < |value|
      invariant 0 <= index <= |value|
      invariant whole == PrependTokens(tokens, TokensOf(value[index..]))
    {
      var start := index + Spaces(value[index..]);
      TokensUnfold(value, index, start);
      if start >= |value| {
        assert tokens + [] == tokens;
        return Ok(tokens);
      }
      var end := TokenEnd(value, start);
      if end.None? { return Err(UnterminatedPath); }
      TokenStep(tokens, value[start..end.value], TokensOf(value[end.value..]));
      tokens := tokens + [value[start..end.value]];
      index := end.value;
    }
    NoTokensLeft(value);
    assert tokens + [] == tokens;
    r := Ok(tokens);
  }

  lemma NoTokensLeft(value: string)
    ensures TokensOf(value[|value|..]) == Ok([])
  {
  }

  lemma TokenStep(front: seq<string>, token: string, r: Tokens)
    ensures PrependTokens(front, PrependTokens([token], r)) == PrependTokens(front + [token], r)
  {
    if r.Ok? {
      assert front + ([token] + r.value) == (front + [token]) + r.value;
    }
  }

  method SplitGitHeaderPaths(value: string) returns (r: Result<(string, string), PathError>)
    ensures r == SplitHeader(value)
  {
    var tokens := HeaderTokens(value);
    if tokens.Err? { return Err(tokens.error); }
    if |tokens.value| != 2 { return Err(NotTwoTokens); }
    var oldPath := DecodeGitQuotedPath(tokens.value[0]);
    if oldPath.Err? { return Err(oldPath.error); }
    var newPath := DecodeGitQuotedPath(tokens.value[1]);
    if newPath.Err? { return Err(newPath.error); }
    r := Ok((oldPath.value, newPath.value));
  }
}
