/**
 What the masker promises, for every text it accepts and every notion of letter or digit:
 the output keeps every position, carries no token opener, and is a fixed point of masking;
 block comments, strings and raw strings end exactly where the language says they do.
 */
module RustMaskTheorems {
  import opened Wrappers
  import opened Text
  import opened RustMask

  // ----- position exactness -----

  predicate IsBlank(c: char) {
    c == ' ' || c == '\r' || c == '\n'
  }

  /** `out` (read from `i` on) keeps a character or turns it into a space; line ends never change. */
  predicate SamePositions(text: string, out: string, i: nat)
    requires |out| == |text|
  {
    forall k :: i <= k < |text| ==> out[k] == text[k] || (out[k] == ' ' && text[k] !in {'\r', '\n'})
  }

  /** A changed position has a blank neighbour: hidden tokens are never a single character. */
  predicate HiddenRunsAreWide(text: string, out: string, i: nat)
    requires |out| == |text|
  {
    forall k :: i <= k < |text| && out[k] != text[k] ==>
      (i < k && IsBlank(out[k - 1])) || (k + 1 < |text| && IsBlank(out[k + 1]))
  }

  /** `out` agrees with the masked text from position `i` on. */
  ghost predicate IsMaskFrom(text: string, out: string, i: nat, alnum: CharClass) {
    i <= |text| == |out| && MaskFrom(text, i, alnum) == Ok(out[i..])
  }

  /** Unfolds one scanner decision of an accepted text in terms of the whole output. */
  lemma MaskedStep(text: string, out: string, i: nat, alnum: CharClass) returns (next: nat)
    requires IsMaskFrom(text, out, i, alnum) && i < |text|
    ensures i < next <= |text| && IsMaskFrom(text, out, next, alnum)
    ensures match Lex(text, i, alnum)
            case Keep => next == i + 1 && out[i] == text[i]
            case Hide(end) => next == end && forall k :: i <= k < end ==> out[k] == BlankOf(text[k])
            case Bad(_) => false
  {
    var lexeme := Lex(text, i, alnum);
    next := if lexeme.Hide? then lexeme.end else i + 1;
    var piece := if lexeme.Hide? then Blank(text[i..next]) else [text[i]];
    var rest := MaskFrom(text, next, alnum);
    assert MaskFrom(text, i, alnum) == Prepend(piece, rest);
    assert out[i..] == piece + rest.value;
    assert out[next..] == out[i..][|piece|..] == rest.value;
    forall k | i <= k < next
      ensures out[k] == piece[k - i]
    {
      assert out[k] == out[i..][k - i];
    }
  }

  lemma {:induction false} MaskFromShape(text: string, out: string, i: nat, alnum: CharClass)
    requires IsMaskFrom(text, out, i, alnum)
    ensures SamePositions(text, out, i)
    ensures HiddenRunsAreWide(text, out, i)
    decreases |text| - i
  {
    hide Lex, MaskFrom;
    if i < |text| {
      var next := MaskedStep(text, out, i, alnum);
      MaskFromShape(text, out, next, alnum);
      forall k | i <= k < |text| && out[k] != text[k]
        ensures (i < k && IsBlank(out[k - 1])) || (k + 1 < |text| && IsBlank(out[k + 1]))
      {
        if k < next {
          assert next >= i + 2;
          if k == i {
            assert IsBlank(out[k + 1]);
          } else {
            assert IsBlank(out[k - 1]);
          }
        }
      }
    }
  }

  /**
   The output has the length of the input, every line end stays where it was, and every other
   character is kept or becomes a space.
   */
  lemma MaskKeepsPositions(text: string, alnum: CharClass)
    requires Mask(text, alnum).Ok?
    ensures |Mask(text, alnum).value| == |text|
    ensures SamePositions(text, Mask(text, alnum).value, 0)
  {
    var out := Mask(text, alnum).value;
    assert out[0..] == out;
    MaskFromShape(text, out, 0, alnum);
  }

  // ----- nothing survives, and masking is a fixed point -----

  predicate NoTokenAt(out: string, k: nat)
    requires k < |out|
  {
    out[k] != '"' && !Pair(out, k, '/', '/') && !Pair(out, k, '/', '*') && CharEnd(out, k).None?
  }

  lemma BlankStartsNothing(out: string, k: nat)
    requires k < |out| && IsBlank(out[k])
    ensures NoTokenAt(out, k)
  {
  }

  lemma {:induction false} SameHexRun(text: string, out: string, i: nat)
    requires |text| == |out| && i <= |out| && SamePositions(text, out, 0)
    ensures i + HexRun(out, i) < |out| && out[i + HexRun(out, i)] == '}' ==> HexRun(text, i) == HexRun(out, i)
    decreases |out| - i
  {
    if i < |out| && (IsHex(out[i]) || out[i] == '_') {
      SameHexRun(text, out, i + 1);
    }
  }

  /** An escape that reads as one in the output read as the same escape in the input. */
  lemma SameCharBody(text: string, out: string, i: nat)
    requires |text| == |out| && i < |out| && SamePositions(text, out, 0)
    requires out[i] == text[i]
    ensures CharBody(out, i) > 0 && i + CharBody(out, i) < |out| && out[i + CharBody(out, i)] == '\''
            ==> CharBody(text, i) == CharBody(out, i)
  {
    if Pair(out, i + 1, 'u', '{') {
      SameHexRun(text, out, i + 3);
    }
  }

  lemma NoNewCharLiteral(text: string, out: string, i: nat, from: nat)
    requires |text| == |out| && from <= i < |out| && SamePositions(text, out, 0)
    requires HiddenRunsAreWide(text, out, from)
    requires QuotedCharEnd(out, i).Some?
    ensures QuotedCharEnd(text, i) == QuotedCharEnd(out, i)
  {
    if out[i + 1] == text[i + 1] {
      SameCharBody(text, out, i + 1);
    } else {
      assert false;
    }
  }

  lemma KeptStartsNothing(text: string, out: string, i: nat, alnum: CharClass)
    requires |text| == |out| && i < |out| && SamePositions(text, out, 0)
    requires HiddenRunsAreWide(text, out, i)
    requires Lex(text, i, alnum) == Keep && out[i] == text[i]
    ensures NoTokenAt(out, i)
  {
    if Pair(out, i, 'b', '\'') && QuotedCharEnd(out, i + 1).Some? {
      NoNewCharLiteral(text, out, i + 1, i);
    } else if !Pair(out, i, 'b', '\'') && QuotedCharEnd(out, i).Some? {
      NoNewCharLiteral(text, out, i, i);
    }
  }

  /** No token begins in `out[i..j]`. */
  ghost predicate Quiet(out: string, i: nat, j: nat)
    requires j <= |out|
  {
    forall k :: i <= k < j ==> NoTokenAt(out, k)
  }

  lemma BlankIsQuiet(out: string, i: nat, j: nat)
    requires j <= |out|
    requires forall k :: i <= k < j ==> IsBlank(out[k])
    ensures Quiet(out, i, j)
  {
    forall k | i <= k < j ensures NoTokenAt(out, k) {
      BlankStartsNothing(out, k);
    }
  }

  lemma LexemeIsQuiet(text: string, out: string, i: nat, alnum: CharClass) returns (next: nat)
    requires IsMaskFrom(text, out, i, alnum) && SamePositions(text, out, 0) && i < |text|
    ensures i < next <= |text| && IsMaskFrom(text, out, next, alnum) && Quiet(out, i, next)
  {
    next := MaskedStep(text, out, i, alnum);
    if Lex(text, i, alnum).Keep? {
      MaskFromShape(text, out, i, alnum);
      KeptStartsNothing(text, out, i, alnum);
    } else {
      BlankIsQuiet(out, i, next);
    }
  }

  lemma {:induction false} NothingSurvivesFrom(text: string, out: string, i: nat, alnum: CharClass)
    requires IsMaskFrom(text, out, i, alnum) && SamePositions(text, out, 0)
    ensures Quiet(out, i, |out|)
    decreases |text| - i
  {
    if i < |text| {
      var next := LexemeIsQuiet(text, out, i, alnum);
      NothingSurvivesFrom(text, out, next, alnum);
    }
  }

  /** No quote, line comment opener, block comment opener or character literal is left anywhere. */
  lemma NothingSurvives(text: string, alnum: CharClass)
    requires Mask(text, alnum).Ok?
    ensures Quiet(Mask(text, alnum).value, 0, |Mask(text, alnum).value|)
  {
    var out := Mask(text, alnum).value;
    assert out[0..] == out;
    MaskFromShape(text, out, 0, alnum);
    NothingSurvivesFrom(text, out, 0, alnum);
  }

  lemma QuietIsKept(out: string, i: nat, alnum: CharClass)
    requires Quiet(out, 0, |out|) && i < |out|
    ensures Lex(out, i, alnum) == Keep
  {
    assert NoTokenAt(out, i);
    if i + 1 < |out| {
      assert NoTokenAt(out, i + 1);
    }
    var p := RawPrefix(out, i);
    var q := i + p + HashRun(out, i + p);
    if q < |out| {
      assert NoTokenAt(out, q);
    }
  }

  lemma {:induction false} QuietTextIsUnchanged(out: string, i: nat, alnum: CharClass)
    requires Quiet(out, 0, |out|) && i <= |out|
    ensures MaskFrom(out, i, alnum) == Ok(out[i..])
    decreases |out| - i
  {
    hide Lex;
    if i < |out| {
      QuietIsKept(out, i, alnum);
      QuietTextIsUnchanged(out, i + 1, alnum);
      assert MaskFrom(out, i, alnum) == Prepend([out[i]], Ok(out[i + 1..]));
      assert [out[i]] + out[i + 1..] == out[i..];
    } else {
      assert out[i..] == "";
    }
  }

  /** Masking is idempotent: the output is accepted and masks to itself, under any letter class. */
  lemma MaskIsIdempotent(text: string, alnum: CharClass, again: CharClass)
    requires Mask(text, alnum).Ok?
    ensures Mask(Mask(text, alnum).value, again) == Mask(text, alnum)
  {
    var out := Mask(text, alnum).value;
    NothingSurvives(text, alnum);
    QuietTextIsUnchanged(out, 0, again);
    assert out[0..] == out;
  }

  // ----- block comments nest exactly as the grammar says -----

  /** The inside of a block comment: plain characters and complete inner comments. */
  datatype Nest = Done | Plain(c: char, rest: Nest) | Inner(inner: Nest, rest: Nest)

  /** The inside of the comment followed by its own closer. */
  function Render(n: Nest): (s: string)
    ensures |s| >= 2
  {
    match n
    case Done => "*/"
    case Plain(c, rest) => [c] + Render(rest)
    case Inner(inner, rest) => "/*" + Render(inner) + Render(rest)
  }

  /** No plain character begins an opener or a closer. */
  predicate WellFormed(n: Nest) {
    match n
    case Done => true
    case Plain(c, rest) =>
      WellFormed(rest) && !(c == '/' && Render(rest)[0] == '*') && !(c == '*' && Render(rest)[0] == '/')
    case Inner(inner, rest) => WellFormed(inner) && WellFormed(rest)
  }

  predicate Occurs(text: string, i: nat, piece: string) {
    i + |piece| <= |text| && text[i..i + |piece|] == piece
  }

  lemma OccursSplit(text: string, i: nat, a: string, b: string)
    ensures Occurs(text, i, a + b) <==> Occurs(text, i, a) && Occurs(text, i + |a|, b)
  {
    if i + |a| + |b| <= |text| {
      var both := text[i..i + |a| + |b|];
      assert both[..|a|] == text[i..i + |a|];
      assert both[|a|..] == text[i + |a|..i + |a| + |b|];
      assert (a + b)[..|a|] == a && (a + b)[|a|..] == b;
      assert both == both[..|a|] + both[|a|..];
    }
  }

  lemma OccursAt(text: string, i: nat, piece: string, k: nat)
    requires Occurs(text, i, piece) && k < |piece|
    ensures text[i + k] == piece[k]
  {
    assert text[i..i + |piece|][k] == text[i + k];
  }

  lemma OpenedSplit(text: string, i: nat, inner: string, rest: string)
    ensures Occurs(text, i, "/*" + inner + rest) <==>
            Pair(text, i, '/', '*') && Occurs(text, i + 2, inner) && Occurs(text, i + 2 + |inner|, rest)
  {
    OccursSplit(text, i, "/*" + inner, rest);
    OccursSplit(text, i, "/*", inner);
    if Occurs(text, i, "/*") {
      OccursAt(text, i, "/*", 0);
      OccursAt(text, i, "/*", 1);
    }
  }

  lemma MoreText(text: string, i: nat, depth: nat)
    requires i <= |text| && depth > 0 && BlockEnd(text, i, depth).Some?
    ensures i < |text|
  {
  }

  lemma StepIn(text: string, i: nat, depth: nat)
    requires depth > 0 && Pair(text, i, '/', '*')
    ensures BlockEnd(text, i, depth) == BlockEnd(text, i + 2, depth + 1)
  {
  }

  lemma StepOut(text: string, i: nat, depth: nat)
    requires depth > 0 && Pair(text, i, '*', '/')
    ensures BlockEnd(text, i, depth) == BlockEnd(text, i + 2, depth - 1)
  {
  }

  lemma StepOver(text: string, i: nat, depth: nat)
    requires depth > 0 && i < |text| && !Pair(text, i, '/', '*') && !Pair(text, i, '*', '/')
    ensures BlockEnd(text, i, depth) == BlockEnd(text, i + 1, depth)
  {
  }

  lemma PlainSplit(text: string, i: nat, c: char, rest: string)
    requires |rest| > 0
    ensures Occurs(text, i, [c] + rest) <==>
            i + 1 < |text| && text[i] == c && text[i + 1] == rest[0] && Occurs(text, i + 1, rest)
  {
    OccursSplit(text, i, [c], rest);
    if Occurs(text, i, [c]) {
      OccursAt(text, i, [c], 0);
    }
    if Occurs(text, i + 1, rest) {
      OccursAt(text, i + 1, rest, 0);
    }
  }

  /** A rendered comment inside is consumed exactly, at any depth. */
  lemma {:induction false} NestIsConsumed(text: string, i: nat, n: Nest, depth: nat)
    requires WellFormed(n) && Occurs(text, i, Render(n)) && depth > 0
    ensures BlockEnd(text, i, depth) == BlockEnd(text, i + |Render(n)|, depth - 1)
    decreases n
  {
    hide BlockEnd;
    match n
    case Done =>
      PlainSplit(text, i, '*', "/");
      StepOut(text, i, depth);
    case Plain(c, rest) =>
      PlainSplit(text, i, c, Render(rest));
      StepOver(text, i, depth);
      NestIsConsumed(text, i + 1, rest, depth);
    case Inner(inner, rest) =>
      InnerIsConsumed(text, i, inner, rest, depth);
  }

  lemma {:induction false} InnerIsConsumed(text: string, i: nat, inner: Nest, rest: Nest, depth: nat)
    requires WellFormed(inner) && WellFormed(rest) && depth > 0
    requires Occurs(text, i, "/*" + Render(inner) + Render(rest))
    ensures BlockEnd(text, i, depth) == BlockEnd(text, i + 2 + |Render(inner)| + |Render(rest)|, depth - 1)
    decreases Inner(inner, rest), 0
  {
    hide BlockEnd;
    OpenedSplit(text, i, Render(inner), Render(rest));
    StepIn(text, i, depth);
    NestIsConsumed(text, i + 2, inner, depth + 1);
    NestIsConsumed(text, i + 2 + |Render(inner)|, rest, depth);
  }

  /** The scanner takes the inside from `i` on and leaves one level. */
  ghost predicate Consumed(text: string, i: nat, n: Nest, depth: nat) {
    WellFormed(n) && Occurs(text, i, Render(n)) && depth > 0 && BlockEnd(text, i, depth) == BlockEnd(text, i + |Render(n)|, depth - 1)
  }

  lemma InnerIsFound(text: string, i: nat, inner: Nest, rest: Nest, depth: nat)
    requires Pair(text, i, '/', '*') && depth > 0
    requires Consumed(text, i + 2, inner, depth + 1) && Consumed(text, i + 2 + |Render(inner)|, rest, depth)
    ensures Consumed(text, i, Inner(inner, rest), depth)
  {
    hide BlockEnd;
    StepIn(text, i, depth);
    OpenedSplit(text, i, Render(inner), Render(rest));
  }

  lemma PlainIsFound(text: string, i: nat, rest: Nest, depth: nat)
    requires i < |text| && !Pair(text, i, '/', '*') && !Pair(text, i, '*', '/') && Consumed(text, i + 1, rest, depth)
    ensures Consumed(text, i, Plain(text[i], rest), depth)
  {
    hide BlockEnd;
    StepOver(text, i, depth);
    OccursAt(text, i + 1, Render(rest), 0);
    PlainSplit(text, i, text[i], Render(rest));
  }

  lemma DoneIsFound(text: string, i: nat, depth: nat)
    requires Pair(text, i, '*', '/') && depth > 0
    ensures Consumed(text, i, Done, depth)
  {
    hide BlockEnd;
    StepOut(text, i, depth);
  }

  /** Where the scanner leaves one nesting level, a well-formed inside was read. */
  lemma {:induction false} NestIsFound(text: string, i: nat, depth: nat) returns (n: Nest)
    requires i <= |text| && depth > 0 && BlockEnd(text, i, depth).Some?
    ensures Consumed(text, i, n, depth)
    decreases |text| - i
  {
    hide BlockEnd, Render, WellFormed, Occurs;
    MoreText(text, i, depth);
    if Pair(text, i, '/', '*') {
      StepIn(text, i, depth);
      var inner := NestIsFound(text, i + 2, depth + 1);
      StaysInText(text, i + 2, inner, depth + 1);
      var rest := NestIsFound(text, i + 2 + |Render(inner)|, depth);
      n := Inner(inner, rest);
      InnerIsFound(text, i, inner, rest, depth);
    } else if Pair(text, i, '*', '/') {
      n := Done;
      DoneIsFound(text, i, depth);
    } else {
      StepOver(text, i, depth);
      var rest := NestIsFound(text, i + 1, depth);
      n := Plain(text[i], rest);
      PlainIsFound(text, i, rest, depth);
    }
  }

  lemma StaysInText(text: string, i: nat, n: Nest, depth: nat)
    requires Consumed(text, i, n, depth)
    ensures i + |Render(n)| <= |text|
  {
    hide BlockEnd, Render, WellFormed;
  }

  /**
   A block comment that opens at `i` ends at `e` exactly when the characters between are the
   inside of a properly nested comment.
   */
  lemma BlockCommentIsNested(text: string, i: nat, e: nat)
    requires Pair(text, i, '/', '*')
    ensures BlockEnd(text, i + 2, 1) == Some(e) <==>
            exists n :: WellFormed(n) && Occurs(text, i + 2, Render(n)) && e == i + 2 + |Render(n)|
  {
    hide WellFormed, Occurs, Render;
    if BlockEnd(text, i + 2, 1) == Some(e) {
      var n := NestIsFound(text, i + 2, 1);
    }
    if exists n :: WellFormed(n) && Occurs(text, i + 2, Render(n)) && e == i + 2 + |Render(n)| {
      var n :| WellFormed(n) && Occurs(text, i + 2, Render(n)) && e == i + 2 + |Render(n)|;
      NestIsConsumed(text, i + 2, n, 1);
    }
  }

  // ----- strings close at the first quote that is not escaped -----

  /** How many backslashes stand immediately before `j`, not looking left of `start`. */
  function BackslashesBefore(text: string, start: nat, j: nat): nat
    requires start <= j <= |text|
  {
    if start < j && text[j - 1] == '\\' then 1 + BackslashesBefore(text, start, j - 1) else 0
  }

  predicate ClosesString(text: string, start: nat, j: nat)
    requires start <= j <= |text|
  {
    j < |text| && text[j] == '"' && BackslashesBefore(text, start, j) % 2 == 0
  }

  lemma {:induction false} StringEndFrom(text: string, start: nat, i: nat, escaped: bool)
    requires start <= i <= |text|
    requires escaped <==> BackslashesBefore(text, start, i) % 2 == 1
    ensures match StringEnd(text, i, escaped)
            case Some(e) => ClosesString(text, start, e - 1) && i < e &&
                            forall j :: i <= j < e - 1 ==> !ClosesString(text, start, j)
            case None => forall j :: i <= j < |text| ==> !ClosesString(text, start, j)
    decreases |text| - i
  {
    if i < |text| && (escaped || text[i] != '"') {
      StringEndFrom(text, start, i + 1, !escaped && text[i] == '\\');
    }
  }

  /**
   An escaped string ends just after the first quote preceded by an even number of backslashes;
   it is unterminated exactly when there is no such quote.
   */
  lemma StringClosesAtFirstFreeQuote(text: string, start: nat, e: nat)
    requires start < e <= |text|
    ensures StringEnd(text, start, false) == Some(e) <==>
            ClosesString(text, start, e - 1) && forall j :: start <= j < e - 1 ==> !ClosesString(text, start, j)
    ensures StringEnd(text, start, false).None? <==> forall j :: start <= j < |text| ==> !ClosesString(text, start, j)
  {
    StringEndFrom(text, start, start, false);
  }
}
