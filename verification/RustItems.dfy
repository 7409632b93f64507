/**
 How attributes, test-support markers and module declarations are written in masked Rust source, told by their
 texts alone, and that the scanner recognizes exactly these.
 */
module RustItems {
  import opened RustMaskTheorems
  import opened TestItems
  import opened Text
  import opened Wrappers

  // ----- white space -----

  predicate AllSpace(s: string, space: CharClass) {
    forall c :: c in s ==> space(c)
  }

  /** White space up to the character `c`, which is not white space. */
  ghost predicate Gap(s: string, i: nat, gap: string, c: char, space: CharClass) {
    AllSpace(gap, space) && !space(c) && Occurs(s, i, gap + [c])
  }

  /** Behind white space stands `c`. */
  ghost predicate Next(s: string, i: nat, c: char, space: CharClass) {
    exists gap :: Gap(s, i, gap, c, space)
  }

  lemma NextIsSkippedTo(s: string, i: nat, c: char, space: CharClass)
    requires i <= |s|
    ensures Next(s, i, c, space) <==> SkipSpace(s, i, space) < |s| && s[SkipSpace(s, i, space)] == c
  {
    var j := SkipSpace(s, i, space);
    if Next(s, i, c, space) {
      var gap :| Gap(s, i, gap, c, space);
      GapIsSkipped(s, i, gap, c, space);
    }
    if j < |s| && s[j] == c {
      SkippedIsSpace(s, i, space);
      GapIsSkipped(s, i, s[i..j], c, space);
    }
  }

  lemma GapIsSkipped(s: string, i: nat, gap: string, c: char, space: CharClass)
    requires i <= |s|
    ensures Gap(s, i, gap, c, space) <==>
            && AllSpace(gap, space) && Occurs(s, i, gap)
            && SkipSpace(s, i, space) == i + |gap| < |s| && s[i + |gap|] == c
  {
    OccursSplit(s, i, gap, [c]);
    CharIsThere(s, i + |gap|, c);
    if Occurs(s, i, gap) && AllSpace(gap, space) {
      forall k | i <= k < i + |gap|
        ensures space(s[k])
      {
        OccursAt(s, i, gap, k - i);
        assert gap[k - i] in gap;
      }
    }
  }

  lemma CharIsThere(s: string, i: nat, c: char)
    ensures Occurs(s, i, [c]) <==> i < |s| && s[i] == c
  {
    if i < |s| {
      assert s[i..i + 1] == [s[i]];
    }
  }

  lemma SkippedIsSpace(s: string, i: nat, space: CharClass)
    requires i <= |s|
    ensures AllSpace(s[i..SkipSpace(s, i, space)], space) && Occurs(s, i, s[i..SkipSpace(s, i, space)])
  {
    var j := SkipSpace(s, i, space);
    forall c | c in s[i..j]
      ensures space(c)
    {
      var k :| 0 <= k < j - i && s[i..j][k] == c;
      assert s[i + k] == c;
    }
  }

  // ----- attributes -----

  /** An attribute begins: a hash sign, white space and an opening bracket. */
  ghost predicate AttributeBegins(s: string, i: nat, space: CharClass) {
    Occurs(s, i, "#") && Next(s, i + 1, '[', space)
  }

  lemma AttributeIsOpened(s: string, i: nat, space: CharClass)
    ensures OpensAttribute(s, i, space) <==> AttributeBegins(s, i, space)
  {
    hide SkipSpace;
    CharIsThere(s, i, '#');
    if i < |s| {
      NextIsSkippedTo(s, i + 1, '[', space);
    }
  }

  /** The word with white space before, between and after its characters. */
  function Spread(word: string, gaps: seq<string>): string
    requires |gaps| == |word| + 1
  {
    gaps[0] + if word == "" then "" else [word[0]] + Spread(word[1..], gaps[1..])
  }

  ghost predicate IsSpread(s: string, word: string, space: CharClass) {
    && (forall c :: c in word ==> !space(c))
    && exists gaps: seq<string> ::
      |gaps| == |word| + 1 && Spread(word, gaps) == s && forall k :: 0 <= k < |gaps| ==> AllSpace(gaps[k], space)
  }

  lemma {:induction false} SpacesAreDropped(gap: string, s: string, space: CharClass)
    requires AllSpace(gap, space)
    ensures WithoutSpace(gap + s, space) == WithoutSpace(s, space)
  {
    if gap == "" {
      assert gap + s == s;
    } else {
      assert (gap + s)[1..] == gap[1..] + s && gap[0] in gap;
      SpacesAreDropped(gap[1..], s, space);
    }
  }

  lemma {:induction false} SpreadIsDropped(word: string, gaps: seq<string>, space: CharClass)
    requires |gaps| == |word| + 1 && (forall c :: c in word ==> !space(c)) && forall k :: 0 <= k < |gaps| ==> AllSpace(gaps[k], space)
    ensures WithoutSpace(Spread(word, gaps), space) == word
    decreases |word|
  {
    hide AllSpace;
    if word == "" {
      assert gaps[0] + "" == gaps[0];
      SpacesAreDropped(gaps[0], "", space);
    } else {
      var rest := [word[0]] + Spread(word[1..], gaps[1..]);
      SpacesAreDropped(gaps[0], rest, space);
      assert rest[1..] == Spread(word[1..], gaps[1..]);
      SpreadIsDropped(word[1..], gaps[1..], space);
    }
  }

  lemma {:induction false} DroppedIsSpread(s: string, space: CharClass) returns (gaps: seq<string>)
    ensures |gaps| == |WithoutSpace(s, space)| + 1 && Spread(WithoutSpace(s, space), gaps) == s
    ensures forall k :: 0 <= k < |gaps| ==> AllSpace(gaps[k], space)
  {
    var word := WithoutSpace(s, space);
    if s == "" {
      gaps := [""];
    } else {
      var rest := DroppedIsSpread(s[1..], space);
      if space(s[0]) {
        gaps := [[s[0]] + rest[0]] + rest[1..];
        assert gaps[1..] == rest[1..];
        assert s == [s[0]] + s[1..];
      } else {
        gaps := [""] + rest;
        assert gaps[1..] == rest && word[1..] == WithoutSpace(s[1..], space);
        assert s == [s[0]] + s[1..];
      }
    }
  }

  lemma WithoutSpaceIsSpread(s: string, word: string, space: CharClass)
    ensures WithoutSpace(s, space) == word <==> IsSpread(s, word, space)
  {
    if WithoutSpace(s, space) == word {
      var gaps := DroppedIsSpread(s, space);
    }
    if IsSpread(s, word, space) {
      var gaps: seq<string> :| |gaps| == |word| + 1 && Spread(word, gaps) == s && forall k :: 0 <= k < |gaps| ==> AllSpace(gaps[k], space);
      SpreadIsDropped(word, gaps, space);
    }
  }

  /** The texts of attributes that mark test support, written without white space. */
  ghost predicate MarksTests(word: string) {
    || word in {"#[cfg(test)]", "#[cfg(feature=\"test-support\")]", "#[cfg(feature=\"fuzz-support\")]",
                "#[cfg(any(test,feature=\"gui-semantic-smoke\"))]"}
    || exists rest :: rest != "" && '\n' !in rest && word == "#[cfg(all(test," + rest + "))]"
  }

  /** The attribute marks test support, however it is spaced out. */
  ghost predicate IsTestSupport(attribute: string, space: CharClass) {
    exists word :: MarksTests(word) && IsSpread(attribute, word, space)
  }

  lemma ConjunctionIsMarked(word: string)
    ensures (StartsWith(word, CFG_ALL_TEST) && EndsWith(word, CFG_ALL_CLOSE)
        && |word| > |CFG_ALL_TEST| + |CFG_ALL_CLOSE| && '\n' !in word) <==>
            exists rest :: rest != "" && '\n' !in rest && word == "#[cfg(all(test," + rest + "))]"
  {
    var front, close := "#[cfg(all(test,", "))]";
    if StartsWith(word, front) && EndsWith(word, close) && |word| > |front| + |close| && '\n' !in word {
      var rest := word[|front|..|word| - |close|];
      assert word == word[..|front|] + rest + word[|word| - |close|..];
      assert forall c :: c in rest ==> c in word;
    }
    if rest :| rest != "" && '\n' !in rest && word == front + rest + close {
      assert word[..|front|] == front && word[|word| - |close|..] == close;
      assert '\n' !in front && '\n' !in close;
    }
  }

  /** The scanner recognizes exactly the attributes that mark test support. */
  lemma TestSupportIsRecognized(attribute: string, space: CharClass)
    ensures IsTestSupportAttribute(attribute, space) <==> IsTestSupport(attribute, space)
  {
    hide IsSpread, WithoutSpace;
    var normalized := WithoutSpace(attribute, space);
    ConjunctionIsMarked(normalized);
    forall word
      ensures IsSpread(attribute, word, space) <==> word == normalized
    {
      WithoutSpaceIsSpread(attribute, word, space);
    }
    assert MarksTests(normalized) <==> IsTestSupportAttribute(attribute, space);
  }

  // ----- module declarations -----

  predicate IsNameStart(c: char) {
    'a' <= c <= 'z' || 'A' <= c <= 'Z' || c == '_'
  }

  predicate IsNameChar(c: char) {
    IsNameStart(c) || '0' <= c <= '9'
  }

  /** A name, with no letter, digit or underscore behind it. */
  ghost predicate Named(s: string, i: nat, e: nat, alnum: CharClass) {
    && i < e <= |s| && IsNameStart(s[i]) && (forall k :: i <= k < e ==> IsNameChar(s[k]))
    && (e < |s| ==> !IsNameChar(s[e]) && !alnum(s[e]))
  }

  ghost predicate HasName(s: string, i: nat, alnum: CharClass) {
    exists e :: Named(s, i, e, alnum)
  }

  /** A raw name, or else a plain one. */
  ghost predicate ModuleNamed(s: string, i: nat, e: nat, alnum: CharClass) {
    if Occurs(s, i, "r#") && HasName(s, i + 2, alnum) then Named(s, i + 2, e, alnum) else Named(s, i, e, alnum)
  }

  /** What may stand before the keyword, and where the keyword then stands. */
  datatype Visibility = Private | Public(gap: string) | Restricted(before: string, inside: string, gap: string)

  function WrittenVisibility(v: Visibility): string {
    match v
    case Private => ""
    case Public(gap) => "pub" + gap
    case Restricted(before, inside, gap) => "pub" + before + "(" + inside + ")" + gap
  }

  ghost predicate IsVisibility(v: Visibility, space: CharClass) {
    match v
    case Private => true
    case Public(gap) => gap != "" && AllSpace(gap, space) && !space('m')
    case Restricted(before, inside, gap) =>
      AllSpace(before, space) && !space('(') && ')' !in inside && gap != "" && AllSpace(gap, space) && !space('m')
  }

  /** Visibility, the keyword and white space lead to `n`. */
  ghost predicate NameBegins(s: string, i: nat, v: Visibility, gap: string, n: nat, space: CharClass) {
    && IsVisibility(v, space) && gap != "" && AllSpace(gap, space)
    && Occurs(s, i, WrittenVisibility(v) + "mod" + gap) && n == i + |WrittenVisibility(v) + "mod" + gap|
    && n < |s| && !space(s[n])
  }

  /** A module is declared at `i`, and its name ends at `e`. */
  ghost predicate ModuleDeclared(s: string, i: nat, e: nat, classes: Classes) {
    exists v, gap, n: nat :: NameBegins(s, i, v, gap, n, classes.space) && ModuleNamed(s, n, e, classes.alnum)
  }

  lemma NameChars(c: char)
    ensures IsNameStart(c) <==> IdentStart(c)
    ensures IsNameChar(c) <==> IdentStart(c) || '0' <= c <= '9'
  {
  }

  lemma {:induction false} RunOfName(s: string, i: nat)
    requires i <= |s|
    ensures forall k :: i <= k < IdentRun(s, i) ==> IsNameChar(s[k])
    ensures IdentRun(s, i) < |s| ==> !IsNameChar(s[IdentRun(s, i)])
    decreases |s| - i
  {
    hide IsNameChar, IdentStart;
    if i < |s| {
      NameChars(s[i]);
      if IdentStart(s[i]) || '0' <= s[i] <= '9' {
        RunOfName(s, i + 1);
      }
    }
  }

  lemma NameIsRead(s: string, i: nat, e: nat, alnum: CharClass)
    requires i <= |s|
    ensures IdentEnd(s, i, alnum) == Some(e) <==> Named(s, i, e, alnum)
  {
    hide IsNameChar, IsNameStart, IdentStart, IdentRun;
    if i < |s| {
      NameChars(s[i]);
      if IsNameStart(s[i]) {
        StartIsChar(s[i]);
      }
      RunOfName(s, i + 1);
      var run := IdentRun(s, i + 1);
      if run < |s| {
        UnderscoreIsChar(s[run]);
      }
      assert Named(s, i, e, alnum) ==> !(e < run) && !(run < e);
    }
  }

  lemma StartIsChar(c: char)
    requires IsNameStart(c)
    ensures IsNameChar(c)
  {
  }

  lemma UnderscoreIsChar(c: char)
    requires !IsNameChar(c)
    ensures c != '_'
  {
    NameChars(c);
  }

  lemma ModuleNameIsRead(s: string, i: nat, e: nat, alnum: CharClass)
    requires i <= |s|
    ensures ModuleNameEnd(s, i, alnum) == Some(e) <==> ModuleNamed(s, i, e, alnum)
  {
    hide Named, IdentEnd;
    NameIsRead(s, i, e, alnum);
    IsOccurrence(s, i, "r#");
    if Occurs(s, i, "r#") {
      NameIsRead(s, i + 2, e, alnum);
      HasNameIsRead(s, i + 2, alnum);
    }
  }

  lemma HasNameIsRead(s: string, i: nat, alnum: CharClass)
    requires i <= |s|
    ensures IdentEnd(s, i, alnum).Some? <==> HasName(s, i, alnum)
  {
    hide Named, IdentEnd;
    if IdentEnd(s, i, alnum).Some? {
      NameIsRead(s, i, IdentEnd(s, i, alnum).value, alnum);
    }
    if e: nat :| Named(s, i, e, alnum) {
      NameIsRead(s, i, e, alnum);
    }
  }

  // ----- where the keyword stands -----

  /** The keyword stands at `p`, after a visibility. */
  ghost predicate KeywordAt(s: string, i: nat, v: Visibility, p: nat, space: CharClass) {
    IsVisibility(v, space) && Occurs(s, i, WrittenVisibility(v)) && p == i + |WrittenVisibility(v)| && Occurs(s, p, "mod")
  }

  lemma ModStarts(s: string, p: nat)
    requires Occurs(s, p, "mod")
    ensures p + 3 <= |s| && s[p] == 'm' && Occurs(s, p, ['m'])
  {
    OccursAt(s, p, "mod", 0);
    CharIsThere(s, p, 'm');
  }

  lemma PublicKeyword(s: string, i: nat, gap: string, p: nat, space: CharClass)
    requires i <= |s|
    requires KeywordAt(s, i, Public(gap), p, space)
    ensures ModKeyword(s, i, space) == Some(p)
  {
    hide Occurs, AllSpace;
    OccursSplit(s, i, "pub", gap);
    IsOccurrence(s, i, "pub");
    ModStarts(s, p);
    OccursSplit(s, i + 3, gap, ['m']);
    GapIsSkipped(s, i + 3, gap, 'm', space);
    IsOccurrence(s, p, "mod");
  }

  lemma IsOccurrence(s: string, i: nat, w: string)
    ensures Occurs(s, i, w) <==> WordAt(s, i, w)
  {
  }

  lemma RestrictedKeyword(s: string, i: nat, before: string, inside: string, gap: string, p: nat, space: CharClass)
    requires i <= |s|
    requires KeywordAt(s, i, Restricted(before, inside, gap), p, space)
    ensures ModKeyword(s, i, space) == Some(p)
  {
    hide Occurs, AllSpace, WrittenVisibility, ModKeyword;
    RestrictedIsWritten(before, inside, gap);
    RestrictedParts(s, i, before, inside, gap);
    RestrictedIsRead(s, i, i + 3 + |before|, i + 4 + |before| + |inside|, before, inside, gap, space);
  }

  lemma RestrictedIsWritten(before: string, inside: string, gap: string)
    ensures WrittenVisibility(Restricted(before, inside, gap)) == "pub" + before + "(" + inside + ")" + gap
    ensures |WrittenVisibility(Restricted(before, inside, gap))| == 5 + |before| + |inside| + |gap|
  {
  }

  lemma RestrictedIsRead(
    s: string, i: nat, k: nat, closing: nat, before: string, inside: string, gap: string, space: CharClass)
    requires i <= |s| && k == i + 3 + |before| && closing == k + 1 + |inside|
    requires AllSpace(before, space) && !space('(') && ')' !in inside && gap != "" && AllSpace(gap, space) && !space('m')
    requires Occurs(s, i, "pub") && Occurs(s, i + 3, before) && Occurs(s, k, "(") && Occurs(s, k + 1, inside)
    requires Occurs(s, closing, ")") && Occurs(s, closing + 1, gap) && Occurs(s, closing + 1 + |gap|, "mod")
    ensures ModKeyword(s, i, space) == Some(closing + 1 + |gap|)
  {
    hide Occurs, AllSpace, IndexOrEnd, SkipSpace, ModKeyword;
    var p := closing + 1 + |gap|;
    IsOccurrence(s, i, "pub");
    IsOccurrence(s, p, "mod");
    CharIsThere(s, k, '(');
    CharIsThere(s, closing, ')');
    OccursSplit(s, i + 3, before, "(");
    GapIsSkipped(s, i + 3, before, '(', space);
    FirstClosing(s, k + 1, inside);
    ModStarts(s, p);
    OccursSplit(s, closing + 1, gap, ['m']);
    GapIsSkipped(s, closing + 1, gap, 'm', space);
    ScannedKeyword(s, i, k, closing, p, space);
  }

  lemma ScannedKeyword(s: string, i: nat, k: nat, closing: nat, p: nat, space: CharClass)
    requires i <= |s| && WordAt(s, i, "pub") && k == SkipSpace(s, i + 3, space) && k < closing < p < |s| && s[k] == '('
    requires IndexOrEnd(s, k + 1, ')') == closing && SkipSpace(s, closing + 1, space) == p > closing + 1 && WordAt(s, p, "mod")
    ensures ModKeyword(s, i, space) == Some(p)
  {
    hide WordAt, IndexOrEnd, SkipSpace;
  }

  lemma RestrictedParts(s: string, i: nat, before: string, inside: string, gap: string)
    ensures Occurs(s, i, "pub" + before + "(" + inside + ")" + gap) <==>
            && Occurs(s, i, "pub") && Occurs(s, i + 3, before) && Occurs(s, i + 3 + |before|, "(")
            && Occurs(s, i + 4 + |before|, inside) && Occurs(s, i + 4 + |before| + |inside|, ")")
            && Occurs(s, i + 5 + |before| + |inside|, gap)
    ensures Occurs(s, i, "pub" + before + "(" + inside + ")" + gap) ==>
              && i + 4 + |before| + |inside| < |s| && s[i + 3 + |before|] == '(' && s[i + 4 + |before| + |inside|] == ')'
  {
    hide Occurs;
    var k, closing := i + 3 + |before|, i + 4 + |before| + |inside|;
    OccursSplit(s, i, "pub" + before + "(" + inside + ")", gap);
    OccursSplit(s, i, "pub" + before + "(" + inside, ")");
    OccursSplit(s, i, "pub" + before + "(", inside);
    OccursSplit(s, i, "pub" + before, "(");
    OccursSplit(s, i, "pub", before);
    CharIsThere(s, k, '(');
    CharIsThere(s, closing, ')');
  }

  lemma FirstClosing(s: string, i: nat, inside: string)
    requires Occurs(s, i, inside) && ')' !in inside && i + |inside| < |s| && s[i + |inside|] == ')'
    ensures IndexOrEnd(s, i, ')') == i + |inside|
  {
    forall k | i <= k < i + |inside|
      ensures s[k] != ')'
    {
      OccursAt(s, i, inside, k - i);
      assert inside[k - i] in inside;
    }
  }

  lemma KeywordIsFound(s: string, i: nat, space: CharClass) returns (v: Visibility)
    requires i <= |s| && ModKeyword(s, i, space).Some?
    ensures KeywordAt(s, i, v, ModKeyword(s, i, space).value, space)
  {
    hide Occurs, AllSpace, IndexOrEnd, SkipSpace;
    var p := ModKeyword(s, i, space).value;
    IsOccurrence(s, i, "pub");
    IsOccurrence(s, p, "mod");
    ModStarts(s, p);
    if !WordAt(s, i, "pub") {
      v := Private;
      NothingOccurs(s, i);
    } else {
      SkippedIsSpace(s, i + 3, space);
      var k := SkipSpace(s, i + 3, space);
      if k < |s| && s[k] == '(' && IndexOrEnd(s, k + 1, ')') < |s| {
        v := RestrictedIsFound(s, i, k, IndexOrEnd(s, k + 1, ')'), p, space);
      } else {
        v := Public(s[i + 3..p]);
        OccursSplit(s, i, "pub", s[i + 3..p]);
      }
    }
  }

  lemma NothingOccurs(s: string, i: nat)
    requires i <= |s|
    ensures Occurs(s, i, "")
  {
  }

  lemma RestrictedIsFound(s: string, i: nat, k: nat, closing: nat, p: nat, space: CharClass) returns (v: Visibility)
    requires i + 3 <= k < closing < p < |s| && Occurs(s, i, "pub") && Occurs(s, p, "mod") && s[p] == 'm'
    requires k == SkipSpace(s, i + 3, space) && s[k] == '(' && closing == IndexOrEnd(s, k + 1, ')')
    requires p == SkipSpace(s, closing + 1, space) && p > closing + 1
    ensures KeywordAt(s, i, v, p, space)
  {
    hide Occurs, AllSpace, IndexOrEnd, SkipSpace;
    var before, inside, gap := s[i + 3..k], s[k + 1..closing], s[closing + 1..p];
    v := Restricted(before, inside, gap);
    SkippedIsSpace(s, i + 3, space);
    SkippedIsSpace(s, closing + 1, space);
    CharIsThere(s, k, '(');
    CharIsThere(s, closing, ')');
    SliceOccurs(s, k + 1, closing);
    RestrictedParts(s, i, before, inside, gap);
    NoClosingInside(s, k + 1, closing);
  }

  lemma SliceOccurs(s: string, i: nat, j: nat)
    requires i <= j <= |s|
    ensures Occurs(s, i, s[i..j])
  {
  }

  lemma NoClosingInside(s: string, i: nat, j: nat)
    requires i <= j <= |s| && forall k :: i <= k < j ==> s[k] != ')'
    ensures ')' !in s[i..j]
  {
  }

  /** The scanner finds the keyword exactly where a visibility, or nothing, leads to it. */
  lemma KeywordIsExact(s: string, i: nat, p: nat, space: CharClass)
    requires i <= |s|
    ensures ModKeyword(s, i, space) == Some(p) <==> exists v :: KeywordAt(s, i, v, p, space)
  {
    hide Occurs, ModKeyword, IsVisibility;
    if ModKeyword(s, i, space) == Some(p) {
      var v := KeywordIsFound(s, i, space);
    }
    if v :| KeywordAt(s, i, v, p, space) {
      KeywordIsRead(s, i, v, p, space);
    }
  }

  lemma KeywordIsRead(s: string, i: nat, v: Visibility, p: nat, space: CharClass)
    requires i <= |s| && KeywordAt(s, i, v, p, space)
    ensures ModKeyword(s, i, space) == Some(p)
  {
    hide Occurs, AllSpace;
    match v {
      case Private =>
        IsOccurrence(s, i, "mod");
        OneWord(s, i, "mod", "pub");
        assert "mod"[0] != "pub"[0];
      case Public(gap) => PublicKeyword(s, i, gap, p, space);
      case Restricted(before, inside, gap) => RestrictedKeyword(s, i, before, inside, gap, p, space);
    }
  }

  lemma OneWord(s: string, i: nat, v: string, w: string)
    requires WordAt(s, i, v) && |v| == |w|
    ensures WordAt(s, i, w) ==> v == w
  {
  }

  // ----- the declaration -----

  lemma NameBeginsAfter(s: string, i: nat, v: Visibility, gap: string, n: nat, space: CharClass)
    ensures NameBegins(s, i, v, gap, n, space) <==>
            && KeywordAt(s, i, v, i + |WrittenVisibility(v)|, space) && gap != "" && AllSpace(gap, space)
            && Occurs(s, i + |WrittenVisibility(v)| + 3, gap) && n == i + |WrittenVisibility(v)| + 3 + |gap|
            && n < |s| && !space(s[n])
  {
    hide Occurs, IsVisibility, AllSpace, WrittenVisibility;
    OccursSplit(s, i, WrittenVisibility(v) + "mod", gap);
    OccursSplit(s, i, WrittenVisibility(v), "mod");
  }

  /** Where the scanner looks for the name. */
  ghost predicate NameScanned(s: string, i: nat, n: nat, space: CharClass)
    requires i <= |s|
  {
    var p := ModKeyword(s, i, space);
    p.Some? && SkipSpace(s, p.value + 3, space) == n > p.value + 3
  }

  lemma NameIsReached(s: string, i: nat, v: Visibility, gap: string, n: nat, space: CharClass)
    requires i <= |s| && NameBegins(s, i, v, gap, n, space)
    ensures NameScanned(s, i, n, space)
  {
    hide Occurs, IsVisibility, AllSpace, WrittenVisibility, NameBegins, ModKeyword, SkipSpace, KeywordAt;
    NameBeginsAfter(s, i, v, gap, n, space);
    var p := i + |WrittenVisibility(v)|;
    KeywordIsRead(s, i, v, p, space);
    CharIsThere(s, n, s[n]);
    OccursSplit(s, p + 3, gap, [s[n]]);
    GapIsSkipped(s, p + 3, gap, s[n], space);
  }

  lemma NameIsLookedFor(s: string, i: nat, n: nat, space: CharClass) returns (v: Visibility, gap: string)
    requires i <= |s| && NameScanned(s, i, n, space) && n < |s|
    ensures NameBegins(s, i, v, gap, n, space)
  {
    hide Occurs, IsVisibility, AllSpace, WrittenVisibility, NameBegins, ModKeyword;
    var p := ModKeyword(s, i, space).value;
    v := KeywordIsFound(s, i, space);
    gap := s[p + 3..n];
    SkippedIsSpace(s, p + 3, space);
    NameBeginsAfter(s, i, v, gap, n, space);
  }

  lemma ModuleIsRead(s: string, i: nat, e: nat, classes: Classes)
    requires i <= |s|
    ensures ModuleDeclared(s, i, e, classes) <==>
            exists n: nat :: NameScanned(s, i, n, classes.space) && n <= |s| && ModuleNameEnd(s, n, classes.alnum) == Some(e)
  {
    hide NameBegins, NameScanned, ModuleNamed, ModuleNameEnd;
    if ModuleDeclared(s, i, e, classes) {
      var v, gap, n: nat :| NameBegins(s, i, v, gap, n, classes.space) && ModuleNamed(s, n, e, classes.alnum);
      NameIsReached(s, i, v, gap, n, classes.space);
      NameBeginsInText(s, i, v, gap, n, classes.space);
      ModuleNameIsRead(s, n, e, classes.alnum);
    }
    if n: nat :| NameScanned(s, i, n, classes.space) && n <= |s| && ModuleNameEnd(s, n, classes.alnum) == Some(e) {
      NameNeedsText(s, n, classes.alnum);
      var v, gap := NameIsLookedFor(s, i, n, classes.space);
      ModuleNameIsRead(s, n, e, classes.alnum);
    }
  }

  lemma NameBeginsInText(s: string, i: nat, v: Visibility, gap: string, n: nat, space: CharClass)
    requires NameBegins(s, i, v, gap, n, space)
    ensures n < |s|
  {
  }

  lemma NameNeedsText(s: string, n: nat, alnum: CharClass)
    requires n <= |s|
    ensures ModuleNameEnd(s, n, alnum).Some? ==> n < |s|
  {
  }

  /** A module whose declaration is followed by `c`. */
  ghost predicate ModuleThen(s: string, i: nat, c: char, classes: Classes) {
    exists e :: ModuleDeclared(s, i, e, classes) && Next(s, e, c, classes.space)
  }

  ghost predicate IsModule(s: string, i: nat, classes: Classes) {
    exists e :: ModuleDeclared(s, i, e, classes)
  }

  /**
   The scanner takes what it reads for an external module exactly when a module declaration and a semicolon stand
   there, for an inline one when an opening brace follows, and for an ambiguous one when neither does.
   */
  lemma DeclarationIsExact(s: string, i: nat, classes: Classes)
    requires i <= |s|
    ensures DeclarationAt(s, i, classes).External? <==> ModuleThen(s, i, ';', classes)
    ensures DeclarationAt(s, i, classes).InlineModule? <==> ModuleThen(s, i, '{', classes)
    ensures DeclarationAt(s, i, classes).Ambiguous? <==>
            IsModule(s, i, classes) && !ModuleThen(s, i, ';', classes) && !ModuleThen(s, i, '{', classes)
    ensures DeclarationAt(s, i, classes).NotModule? <==> !IsModule(s, i, classes)
  {
    hide ModKeyword, ModuleDeclared, ModuleNameEnd, SkipSpace, Next;
    forall e: nat
      ensures ModuleDeclared(s, i, e, classes) <==>
              exists n: nat :: NameScanned(s, i, n, classes.space) && n <= |s| && ModuleNameEnd(s, n, classes.alnum) == Some(e)
    {
      ModuleIsRead(s, i, e, classes);
    }
    var p := ModKeyword(s, i, classes.space);
    if p.Some? && SkipSpace(s, p.value + 3, classes.space) > p.value + 3 {
      var n := SkipSpace(s, p.value + 3, classes.space);
      assert NameScanned(s, i, n, classes.space);
      var e := ModuleNameEnd(s, n, classes.alnum);
      if e.Some? {
        assert ModuleDeclared(s, i, e.value, classes);
        NextIsSkippedTo(s, e.value, ';', classes.space);
        NextIsSkippedTo(s, e.value, '{', classes.space);
      }
    }
  }

  // ----- what an attribute is attached to -----

  /** From `i`, white space and the attributes `passed` lead to `j`, where neither goes on. */
  ghost predicate LeadsTo(s: string, spans: seq<Span>, i: nat, passed: seq<Span>, j: nat, space: CharClass)
    decreases |passed|
  {
    if passed == [] then
      && i <= j <= |s| && AllSpace(s[i..j], space) && (j < |s| ==> !space(s[j])) && forall span :: span in spans ==> span.start != j
    else
      && passed[0] in spans && i <= passed[0].start < |s| && AllSpace(s[i..passed[0].start], space) && !space(s[passed[0].start])
      && LeadsTo(s, spans, passed[0].end, passed[1..], j, space)
  }

  /** The item that follows at `i`, behind white space and further attributes, begins at `j`. */
  ghost predicate ItemBegins(s: string, spans: seq<Span>, i: nat, j: nat, space: CharClass) {
    exists passed :: LeadsTo(s, spans, i, passed, j, space)
  }

  lemma SpaceIsSkipped(s: string, i: nat, j: nat, space: CharClass)
    requires i <= j <= |s|
    ensures AllSpace(s[i..j], space) && (j < |s| ==> !space(s[j])) <==> SkipSpace(s, i, space) == j
  {
    SkippedIsSpace(s, i, space);
    if AllSpace(s[i..j], space) {
      forall k | i <= k < j
        ensures space(s[k])
      {
        assert s[i..j][k - i] in s[i..j];
      }
    }
  }

  lemma {:induction false} ItemIsFound(s: string, spans: seq<Span>, i: nat, space: CharClass) returns (passed: seq<Span>)
    requires i <= |s| && ValidSpans(s, spans)
    ensures LeadsTo(s, spans, i, passed, ItemStart(s, spans, i, space), space)
    decreases |s| - i
  {
    hide SkipSpace;
    var j := SkipSpace(s, i, space);
    SpaceIsSkipped(s, i, j, space);
    var e := SpanEndAt(spans, j);
    if e.None? {
      passed := [];
    } else {
      var rest := ItemIsFound(s, spans, e.value, space);
      passed := [Span(j, e.value)] + rest;
      assert passed[1..] == rest;
    }
  }

  lemma {:induction false} ItemIsReached(s: string, spans: seq<Span>, i: nat, passed: seq<Span>, j: nat, space: CharClass)
    requires i <= |s| && ValidSpans(s, spans) && LeadsTo(s, spans, i, passed, j, space)
    ensures ItemStart(s, spans, i, space) == j
    decreases |passed|
  {
    hide SkipSpace;
    if passed == [] {
      SpaceIsSkipped(s, i, j, space);
    } else {
      var start := passed[0].start;
      SpaceIsSkipped(s, i, start, space);
      SpansDiffer(s, spans, passed[0], SpanEndAt(spans, start));
      ItemIsReached(s, spans, passed[0].end, passed[1..], j, space);
    }
  }

  lemma SpansDiffer(s: string, spans: seq<Span>, span: Span, e: Option<nat>)
    requires ValidSpans(s, spans) && span in spans && e == SpanEndAt(spans, span.start)
    ensures e == Some(span.end)
  {
    var other := Span(span.start, e.value);
    assert other in spans;
    var j :| 0 <= j < |spans| && spans[j] == span;
    var k :| 0 <= k < |spans| && spans[k] == other;
    assert j == k;
  }

  /** The scanner goes to where the item begins. */
  lemma ItemStartIsExact(s: string, spans: seq<Span>, i: nat, j: nat, space: CharClass)
    requires i <= |s| && ValidSpans(s, spans)
    ensures ItemStart(s, spans, i, space) == j <==> ItemBegins(s, spans, i, j, space)
  {
    hide ItemStart, LeadsTo;
    var found := ItemIsFound(s, spans, i, space);
    if passed :| LeadsTo(s, spans, i, passed, j, space) {
      ItemIsReached(s, spans, i, passed, j, space);
    }
  }
}
