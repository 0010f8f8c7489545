/**
 The text cleaner of the preprocessing stage (`clean_text`): a fixed pipeline of six
 regular-expression rewrites, each modelled as a function on strings.
 */
module Cleaner {
  import opened Strings

  /** Inside the printable ASCII range 0x20..0x7E. */
  predicate IsPrintable(c: char) {
    0x20 <= c as int <= 0x7E
  }

  /** The symbols that the third rewrite replaces by a space. */
  predicate IsJunk(c: char) {
    || c == '/' || c == '\\' || c == '|' || c == '*' || c == '~' || c == '`' || c == '@'
    || c == '#' || c == '$' || c == '%' || c == '^' || c == '&' || c == '_' || c == '='
    || c == '+' || c == '[' || c == ']' || c == '{' || c == '}' || c == '<' || c == '>'
  }

  /** The punctuation marks whose runs the fourth rewrite collapses. */
  predicate IsPunct(c: char) {
    c == '!' || c == '?' || c == '.' || c == ',' || c == '-'
  }

  predicate IsLowerLetter(c: char) {
    'a' <= c <= 'z'
  }

  // ---------------------------------------------------------------------------
  // Step 1 and 6: `re.sub(r"\s+", " ", text)`

  /** No two neighbouring characters are both whitespace. */
  predicate NoAdjacentSpace(s: string) {
    forall i :: 0 <= i < |s| - 1 ==> !(IsSpace(s[i]) && IsSpace(s[i + 1]))
  }

  /** No two neighbouring characters are both punctuation marks. */
  predicate NoAdjacentPunct(s: string) {
    forall i :: 0 <= i < |s| - 1 ==> !(IsPunct(s[i]) && IsPunct(s[i + 1]))
  }

  /** Every maximal run of whitespace becomes a single space. */
  function CollapseSpace(s: string): (r: string)
    ensures |s| == 0 <==> |r| == 0
    ensures |s| > 0 ==> r[0] == if IsSpace(s[0]) then ' ' else s[0]
    ensures forall i :: 0 <= i < |r| ==> r[i] == ' ' || (r[i] in s && !IsSpace(r[i]))
    ensures NoAdjacentSpace(r)
    decreases |s|
  {
    if |s| == 0 then ""
    else if IsSpace(s[0]) then
      var rest := DropLeadingSpace(s[1..]);
      " " + CollapseSpace(rest)
    else
      [s[0]] + CollapseSpace(s[1..])
  }

  lemma ConsKeepsPunctApart(c: char, x: string)
    requires NoAdjacentPunct(x)
    requires |x| > 0 ==> !(IsPunct(c) && IsPunct(x[0]))
    ensures NoAdjacentPunct([c] + x)
  {
    var r := [c] + x;
    forall i | 0 <= i < |r| - 1 ensures !(IsPunct(r[i]) && IsPunct(r[i + 1])) {
      if i > 0 {
        assert r[i] == x[i - 1] && r[i + 1] == x[i];
      }
    }
  }

  /** Collapsing keeps apart punctuation marks that were apart. */
  lemma {:induction false} CollapseSpaceKeepsPunctApart(s: string)
    requires NoAdjacentPunct(s)
    ensures NoAdjacentPunct(CollapseSpace(s))
    decreases |s|
  {
    if |s| > 0 {
      if IsSpace(s[0]) {
        var rest := DropLeadingSpace(s[1..]);
        SliceKeepsPunctApart(s, |s| - |rest|, |s|);
        CollapseSpaceKeepsPunctApart(rest);
        ConsKeepsPunctApart(' ', CollapseSpace(rest));
        assert CollapseSpace(s) == [' '] + CollapseSpace(rest);
      } else {
        SliceKeepsPunctApart(s, 1, |s|);
        CollapseSpaceKeepsPunctApart(s[1..]);
        ConsKeepsPunctApart(s[0], CollapseSpace(s[1..]));
        assert CollapseSpace(s) == [s[0]] + CollapseSpace(s[1..]);
      }
    }
  }

  lemma SliceKeepsPunctApart(s: string, a: int, b: int)
    requires 0 <= a <= b <= |s|
    requires NoAdjacentPunct(s)
    ensures NoAdjacentPunct(s[a..b])
  {
    var r := s[a..b];
    forall i | 0 <= i < |r| - 1 ensures !(IsPunct(r[i]) && IsPunct(r[i + 1])) {
      assert r[i] == s[a + i] && r[i + 1] == s[a + i + 1];
    }
  }

  lemma SliceKeepsSpaceApart(s: string, a: int, b: int)
    requires 0 <= a <= b <= |s|
    requires NoAdjacentSpace(s)
    ensures NoAdjacentSpace(s[a..b])
  {
    var r := s[a..b];
    forall i | 0 <= i < |r| - 1 ensures !(IsSpace(r[i]) && IsSpace(r[i + 1])) {
      assert r[i] == s[a + i] && r[i + 1] == s[a + i + 1];
    }
  }

  lemma SliceKeepsPlain(s: string, a: int, b: int)
    requires 0 <= a <= b <= |s|
    requires PlainChars(s)
    ensures PlainChars(s[a..b])
  {
  }

  /** A string whose only whitespace is single spaces is left alone by collapsing. */
  lemma {:induction false} CollapseSpaceIdentity(s: string)
    requires forall i :: 0 <= i < |s| ==> IsSpace(s[i]) ==> s[i] == ' '
    requires NoAdjacentSpace(s)
    ensures CollapseSpace(s) == s
    decreases |s|
  {
    if |s| > 0 {
      if IsSpace(s[0]) {
        assert DropLeadingSpace(s[1..]) == s[1..];
      }
      CollapseSpaceIdentity(s[1..]);
    }
  }

  /** A string of spaces only collapses to at most one space. */
  lemma AllSpaceCollapses(s: string)
    requires forall i :: 0 <= i < |s| ==> s[i] == ' '
    ensures CollapseSpace(s) == "" || CollapseSpace(s) == " "
  {
    if |s| > 0 {
      var rest := DropLeadingSpace(s[1..]);
      assert |rest| == 0;
    }
  }

  // ---------------------------------------------------------------------------
  // Step 2: `re.sub(r"[^\x20-\x7E]", " ", text)`

  function ReplaceNonPrintable(s: string): (r: string)
    ensures |r| == |s|
    ensures forall i :: 0 <= i < |s| ==> r[i] == if IsPrintable(s[i]) then s[i] else ' '
  {
    seq(|s|, i requires 0 <= i < |s| => if IsPrintable(s[i]) then s[i] else ' ')
  }

  // ---------------------------------------------------------------------------
  // Step 3: the junk-symbol class is replaced by spaces

  function ReplaceJunk(s: string): (r: string)
    ensures |r| == |s|
    ensures forall i :: 0 <= i < |s| ==> r[i] == if IsJunk(s[i]) then ' ' else s[i]
  {
    seq(|s|, i requires 0 <= i < |s| => if IsJunk(s[i]) then ' ' else s[i])
  }

  // ---------------------------------------------------------------------------
  // Step 4: `re.sub(r"([!?.,\-]){2,}", r"\1", text)`

  /** Length of the longest prefix made of punctuation marks. */
  function PunctRun(s: string): (n: nat)
    ensures n <= |s|
    ensures forall i :: 0 <= i < n ==> IsPunct(s[i])
    ensures n < |s| ==> !IsPunct(s[n])
    ensures |s| > 0 && IsPunct(s[0]) ==> n > 0
  {
    if |s| == 0 || !IsPunct(s[0]) then 0 else 1 + PunctRun(s[1..])
  }

  /** Every maximal run of punctuation marks becomes its last mark: the group of the
      pattern is repeated, so its back-reference holds the last repetition. */
  function CollapsePunct(s: string): (r: string)
    ensures |s| == 0 <==> |r| == 0
    ensures |s| > 0 ==> (IsPunct(r[0]) <==> IsPunct(s[0]))
    ensures forall i :: 0 <= i < |r| ==> r[i] in s
    ensures NoAdjacentPunct(r)
    decreases |s|
  {
    if |s| == 0 then ""
    else if IsPunct(s[0]) then
      var n := PunctRun(s);
      [s[n - 1]] + CollapsePunct(s[n..])
    else
      [s[0]] + CollapsePunct(s[1..])
  }

  /** A maximal run of marks, mixed or not, is replaced by its last mark and the text
      after it is treated on its own. */
  lemma CollapsePunctRun(run: string, rest: string)
    requires |run| > 0 && forall i :: 0 <= i < |run| ==> IsPunct(run[i])
    requires |rest| > 0 ==> !IsPunct(rest[0])
    ensures CollapsePunct(run + rest) == [run[|run| - 1]] + CollapsePunct(rest)
  {
    PunctRunOfRun(run, rest);
    assert (run + rest)[|run|..] == rest;
  }

  lemma {:induction false} PunctRunOfRun(run: string, rest: string)
    requires forall i :: 0 <= i < |run| ==> IsPunct(run[i])
    requires |rest| > 0 ==> !IsPunct(rest[0])
    ensures PunctRun(run + rest) == |run|
  {
    if |run| > 0 {
      assert (run + rest)[1..] == run[1..] + rest;
      PunctRunOfRun(run[1..], rest);
    } else {
      assert run + rest == rest;
    }
  }

  lemma {:induction false} CollapsePunctIdentity(s: string)
    requires NoAdjacentPunct(s)
    ensures CollapsePunct(s) == s
    decreases |s|
  {
    if |s| > 0 {
      if IsPunct(s[0]) {
        assert PunctRun(s) == 1;
      }
      CollapsePunctIdentity(s[1..]);
    }
  }

  // ---------------------------------------------------------------------------
  // Step 5: `re.sub(r"&[a-z]+;", " ", text)`

  /** Length of the longest prefix of lower-case ASCII letters. */
  function LetterRun(s: string): (n: nat)
    ensures n <= |s|
  {
    if |s| == 0 || !IsLowerLetter(s[0]) then 0 else 1 + LetterRun(s[1..])
  }

  /** `s` starts with an entity `&name;`, whose length is returned. */
  function EntityAt(s: string): (n: nat)
    ensures n <= |s|
    ensures n > 0 ==> s[0] == '&'
  {
    if |s| == 0 || s[0] != '&' then 0
    else
      var k := LetterRun(s[1..]);
      if 0 < k && k + 1 < |s| && s[k + 1] == ';' then k + 2 else 0
  }

  function RemoveEntities(s: string): (r: string)
    decreases |s|
  {
    if |s| == 0 then ""
    else
      var n := EntityAt(s);
      if n > 0 then " " + RemoveEntities(s[n..]) else [s[0]] + RemoveEntities(s[1..])
  }

  /** The entity rewrite cannot fire on text without `&`, and the junk rewrite has
      already turned every `&` into a space, so in the pipeline it never changes anything. */
  lemma {:induction false} RemoveEntitiesWithoutAmpersand(s: string)
    requires '&' !in s
    ensures RemoveEntities(s) == s
    decreases |s|
  {
    if |s| > 0 {
      assert EntityAt(s) == 0;
      RemoveEntitiesWithoutAmpersand(s[1..]);
    }
  }

  // ---------------------------------------------------------------------------
  // The whole pipeline

  function CleanText(text: string): string
  {
    var s1 := CollapseSpace(text);
    var s2 := ReplaceNonPrintable(s1);
    var s3 := ReplaceJunk(s2);
    var s4 := CollapsePunct(s3);
    var s5 := RemoveEntities(s4);
    Strip(CollapseSpace(s5))
  }

  /** Printable ASCII and none of the junk symbols. */
  predicate PlainChars(s: string) {
    forall i :: 0 <= i < |s| ==> IsPrintable(s[i]) && !IsJunk(s[i])
  }

  /** The shape every cleaned text has. */
  predicate IsClean(s: string) {
    && PlainChars(s)
    && NoAdjacentSpace(s)
    && NoAdjacentPunct(s)
    && (|s| > 0 ==> s[0] != ' ' && s[|s| - 1] != ' ')
  }

  lemma PrintableSpace(c: char)
    requires IsPrintable(c) && IsSpace(c)
    ensures c == ' '
  {
  }

  /** The cleaned text is printable ASCII without junk symbols, with no whitespace at
      either end, no whitespace run and no two neighbouring punctuation marks. */
  lemma CleanTextIsClean(text: string)
    ensures IsClean(CleanText(text))
  {
    var s1 := CollapseSpace(text);
    var s2 := ReplaceNonPrintable(s1);
    var s3 := ReplaceJunk(s2);
    assert PlainChars(s3);
    var s4 := CollapsePunct(s3);
    assert PlainChars(s4);
    assert '&' !in s4 by {
      assert IsJunk('&');
    }
    RemoveEntitiesWithoutAmpersand(s4);
    var s6 := CollapseSpace(s4);
    assert PlainChars(s6);
    CollapseSpaceKeepsPunctApart(s4);
    var r := Strip(s6);
    StripIsTrimmedSlice(s6);
    var a, b :| 0 <= a <= b <= |s6| && r == s6[a..b];
    SliceKeepsPlain(s6, a, b);
    SliceKeepsSpaceApart(s6, a, b);
    SliceKeepsPunctApart(s6, a, b);
  }

  lemma PlainIsUnchangedByCharRewrites(c: string)
    requires PlainChars(c)
    ensures ReplaceNonPrintable(c) == c
    ensures ReplaceJunk(c) == c
    ensures '&' !in c
  {
    assert IsJunk('&');
  }

  lemma CleanSpacesAreSpaces(c: string)
    requires PlainChars(c)
    ensures forall i :: 0 <= i < |c| ==> IsSpace(c[i]) ==> c[i] == ' '
  {
    forall i | 0 <= i < |c| && IsSpace(c[i]) ensures c[i] == ' ' {
      PrintableSpace(c[i]);
    }
  }

  /** A text already in clean shape passes through every rewrite unchanged. */
  lemma CleanTextFixesClean(c: string)
    requires IsClean(c)
    ensures CleanText(c) == c
  {
    CleanSpacesAreSpaces(c);
    CollapseSpaceIdentity(c);
    PlainIsUnchangedByCharRewrites(c);
    CollapsePunctIdentity(c);
    RemoveEntitiesWithoutAmpersand(c);
    StripOfTrimmed(c);
  }

  /** Cleaning a cleaned text changes nothing. */
  lemma CleanTextIdempotent(text: string)
    ensures CleanText(CleanText(text)) == CleanText(text)
  {
    CleanTextIsClean(text);
    CleanTextFixesClean(CleanText(text));
  }

  /** Cleaning never fails, and text made only of whitespace, non-printable characters
      and junk symbols cleans to the empty string. */
  lemma JunkOnlyCleansToEmpty(text: string)
    requires forall i :: 0 <= i < |text| ==> IsSpace(text[i]) || !IsPrintable(text[i]) || IsJunk(text[i])
    ensures CleanText(text) == ""
  {
    var s1 := CollapseSpace(text);
    var s2 := ReplaceNonPrintable(s1);
    var s3 := ReplaceJunk(s2);
    assert forall i :: 0 <= i < |s3| ==> s3[i] == ' ';
    assert NoAdjacentPunct(s3);
    CollapsePunctIdentity(s3);
    assert '&' !in s3;
    RemoveEntitiesWithoutAmpersand(s3);
    AllSpaceCollapses(s3);
  }
}
