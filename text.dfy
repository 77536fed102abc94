/** String operations of Python's `str` that the analyzers use: `isspace`/`strip`,
    `lower` and the substring test `word in text`. */
module Text {

  predicate IsAsciiUpper(c: char) { 'A' <= c <= 'Z' }
  predicate IsAsciiLower(c: char) { 'a' <= c <= 'z' }
  predicate IsAsciiDigit(c: char) { '0' <= c <= '9' }

  /** `c.isspace()`: the characters Python treats as whitespace (also `\s` in `re`). */
  predicate IsSpace(c: char)
  {
    || '\t' <= c <= '\r'
    || '\U{1C}' <= c <= '\U{1F}'
    || c == ' '
    || c == '\U{85}'
    || c == '\U{A0}'
    || c == '\U{1680}'
    || '\U{2000}' <= c <= '\U{200A}'
    || c == '\U{2028}'
    || c == '\U{2029}'
    || c == '\U{202F}'
    || c == '\U{205F}'
    || c == '\U{3000}'
  }

  predicate IsBlank(s: string)
  {
    forall i :: 0 <= i < |s| ==> IsSpace(s[i])
  }

  /** End of the run of whitespace that starts at `i`; the `\s+` of `re` is such a run when
      it is not empty. */
  function SpaceRunEnd(s: string, i: nat): (e: nat)
    requires i <= |s|
    ensures i <= e <= |s|
    ensures forall k :: i <= k < e ==> IsSpace(s[k])
    ensures e == |s| || !IsSpace(s[e])
    decreases |s| - i
  {
    if i < |s| && IsSpace(s[i]) then SpaceRunEnd(s, i + 1) else i
  }

  /** Start of the run of whitespace that ends at `j`. */
  function SpaceRunStart(s: string, j: nat): (b: nat)
    requires j <= |s|
    ensures b <= j
    ensures forall k :: b <= k < j ==> IsSpace(s[k])
    ensures b == 0 || !IsSpace(s[b - 1])
  {
    if 0 < j && IsSpace(s[j - 1]) then SpaceRunStart(s, j - 1) else j
  }

  /** `s.lstrip()`: `s` with its leading whitespace removed. */
  function StripLeading(s: string): (r: string)
    ensures |r| <= |s| && r == s[|s| - |r|..]
    ensures forall i :: 0 <= i < |s| - |r| ==> IsSpace(s[i])
    ensures r == [] || !IsSpace(r[0])
    ensures r == [] <==> IsBlank(s)
  {
    s[SpaceRunEnd(s, 0)..]
  }

  /** `s.rstrip()`: `s` with its trailing whitespace removed. */
  function StripTrailing(s: string): (r: string)
    ensures |r| <= |s| && r == s[..|r|]
    ensures forall i :: |r| <= i < |s| ==> IsSpace(s[i])
    ensures r == [] || !IsSpace(r[|r| - 1])
    ensures r == [] <==> IsBlank(s)
  {
    s[..SpaceRunStart(s, |s|)]
  }

  /** `s.strip()`: the slice of `s` left once its leading and its trailing whitespace
      are removed. */
  function Strip(s: string): (r: string)
    ensures r == [] || (!IsSpace(r[0]) && !IsSpace(r[|r| - 1]))
    ensures SpaceRunEnd(s, 0) + |r| <= |s|
    ensures r == s[SpaceRunEnd(s, 0)..SpaceRunEnd(s, 0) + |r|]
    ensures forall k :: 0 <= k < SpaceRunEnd(s, 0) ==> IsSpace(s[k])
    ensures forall k :: SpaceRunEnd(s, 0) + |r| <= k < |s| ==> IsSpace(s[k])
  {
    var i, j := SpaceRunEnd(s, 0), SpaceRunStart(s, |s|);
    if i < j then s[i..j] else []
  }

  /** `s.strip()` is `s.lstrip().rstrip()`. */
  lemma StripComposes(s: string)
    ensures Strip(s) == StripTrailing(StripLeading(s))
  {
  }

  /** `not s.strip()` holds exactly for the strings made of whitespace only. */
  lemma StripEmptyIffBlank(s: string)
    ensures Strip(s) == [] <==> IsBlank(s)
  {
  }

  /** `c.lower()` of one character: ASCII letters are folded here, other characters by
      the runtime. */
  function LowerChar(c: char, lowerNonAscii: char -> string): string
  {
    if IsAsciiUpper(c) then [(c as int + 32) as char]
    else if c as int < 0x80 then [c]
    else lowerNonAscii(c)
  }

  /** `s.lower()`, character by character. CPython also lowers U+03A3 by its context
      (final sigma), which this per-character form does not express; that rule touches
      only non-ASCII characters, so no test for an ASCII cue word depends on it. */
  function Lower(s: string, lowerNonAscii: char -> string): string
  {
    if s == [] then [] else LowerChar(s[0], lowerNonAscii) + Lower(s[1..], lowerNonAscii)
  }

  predicate IsAscii(s: string)
  {
    forall i :: 0 <= i < |s| ==> s[i] as int < 0x80
  }

  /** On ASCII text lowering is character by character and leaves no capital. */
  lemma {:induction false} LowerAscii(s: string, lowerNonAscii: char -> string)
    requires IsAscii(s)
    ensures |Lower(s, lowerNonAscii)| == |s|
    ensures forall i :: 0 <= i < |s| ==>
      Lower(s, lowerNonAscii)[i] == (if IsAsciiUpper(s[i]) then (s[i] as int + 32) as char else s[i])
    ensures forall i :: 0 <= i < |s| ==> !IsAsciiUpper(Lower(s, lowerNonAscii)[i])
  {
    if s != [] {
      var tail := s[1..];
      assert forall i :: 1 <= i < |s| ==> s[i] == tail[i - 1];
      LowerAscii(tail, lowerNonAscii);
      var head := LowerChar(s[0], lowerNonAscii);
      var lowered := Lower(s, lowerNonAscii);
      assert |head| == 1 && !IsAsciiUpper(head[0]);
      assert lowered == head + Lower(tail, lowerNonAscii);
      assert forall i :: 1 <= i < |s| ==> lowered[i] == Lower(tail, lowerNonAscii)[i - 1];
    }
  }

  /** `word` occurs in `text` starting at index `i`. */
  ghost predicate OccursAt(text: string, word: string, i: int)
  {
    0 <= i && i + |word| <= |text| && text[i..i + |word|] == word
  }

  /** `word` occurs somewhere in `text`. */
  ghost predicate Occurs(text: string, word: string)
  {
    exists i :: OccursAt(text, word, i)
  }

  /** `word in text`. */
  predicate Contains(text: string, word: string)
  {
    (|word| <= |text| && text[..|word|] == word) || (text != [] && Contains(text[1..], word))
  }

  lemma {:induction false} ContainsOccurs(text: string, word: string)
    requires Contains(text, word)
    ensures Occurs(text, word)
  {
    if |word| <= |text| && text[..|word|] == word {
      assert OccursAt(text, word, 0);
    } else {
      ContainsOccurs(text[1..], word);
      var i :| OccursAt(text[1..], word, i);
      assert text[1..][i..i + |word|] == text[i + 1..i + 1 + |word|];
      assert OccursAt(text, word, i + 1);
    }
  }

  lemma {:induction false} OccursAtContains(text: string, word: string, i: int)
    requires OccursAt(text, word, i)
    ensures Contains(text, word)
    decreases i
  {
    if i > 0 {
      assert text[1..][i - 1..i - 1 + |word|] == text[i..i + |word|];
      OccursAtContains(text[1..], word, i - 1);
    }
  }

  /** The recursive substring test agrees with the index-based definition, both ways. */
  lemma ContainsIff(text: string, word: string)
    ensures Contains(text, word) <==> Occurs(text, word)
  {
    if Contains(text, word) {
      ContainsOccurs(text, word);
    }
    if Occurs(text, word) {
      var i :| OccursAt(text, word, i);
      OccursAtContains(text, word, i);
    }
  }

  /** `any(word in text for word in words)`. */
  predicate AnyIn(words: seq<string>, text: string)
  {
    exists k :: 0 <= k < |words| && Contains(text, words[k])
  }
}
