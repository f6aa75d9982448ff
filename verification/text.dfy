/**
 Text primitives the watcher relies on: lower-casing a string and testing
 whether one string occurs inside another (Python's `str.lower` and the
 `in` operator on strings).

 Lower-casing is modelled on the ASCII letters only: `A`..`Z` map to
 `a`..`z` and every other character is left alone.
 */
module Text {

  /** True for the ASCII capitals `A`..`Z`. */
  predicate IsUpperAscii(c: char) {
    'A' <= c <= 'Z'
  }

  /** True for the ASCII letters, either case. */
  predicate IsAsciiLetter(c: char) {
    'A' <= c <= 'Z' || 'a' <= c <= 'z'
  }

  /** Lower-cases one character. */
  function LowerChar(c: char): (d: char)
    ensures !IsUpperAscii(d)
    ensures IsUpperAscii(c) ==> d as int == c as int + 32
    ensures !IsUpperAscii(c) ==> d == c
  {
    if IsUpperAscii(c) then (c as int + 32) as char else c
  }

  /** A string with no ASCII capital in it. */
  predicate IsLowered(s: string) {
    forall i :: 0 <= i < |s| ==> !IsUpperAscii(s[i])
  }

  /** Lower-cases a whole string, character by character. */
  function Lower(s: string): (r: string)
    ensures |r| == |s|
    ensures forall i :: 0 <= i < |s| ==> r[i] == LowerChar(s[i])
    ensures IsLowered(r)
  {
    seq(|s|, i requires 0 <= i < |s| => LowerChar(s[i]))
  }

  /**
   Two strings that differ at most in the case of ASCII letters: position by
   position the characters are equal, or both are letters 32 code points apart
   (one capital, the other its small form).
   */
  ghost predicate CaseVariant(a: string, b: string) {
    && |a| == |b|
    && forall i :: 0 <= i < |a| ==>
         || a[i] == b[i]
         || (IsAsciiLetter(a[i]) && IsAsciiLetter(b[i])
             && (a[i] as int - b[i] as int == 32 || b[i] as int - a[i] as int == 32))
  }

  /** `pat` occurs in `text` starting at position `i`. */
  ghost predicate OccursAt(pat: string, text: string, i: int) {
    0 <= i && i + |pat| <= |text| && text[i..i + |pat|] == pat
  }

  /** `pat` occurs in `text` at some position. */
  ghost predicate IsSubstring(pat: string, text: string) {
    exists i :: OccursAt(pat, text, i)
  }

  /**
   Python's `pat in text`: scans `text` left to right for a position where
   `pat` starts.
   */
  function Contains(text: string, pat: string): (r: bool)
    ensures r <==> IsSubstring(pat, text)
    decreases |text|
  {
    if pat <= text then
      assert OccursAt(pat, text, 0);
      true
    else if |text| == 0 then
      false
    else
      var r := Contains(text[1..], pat);
      ShiftSubstring(pat, text);
      r
  }

  /** When `pat` is not a prefix of a non-empty `text`, it occurs in `text`
      exactly when it occurs in `text` without its first character. */
  lemma ShiftSubstring(pat: string, text: string)
    requires |text| > 0 && !(pat <= text)
    ensures IsSubstring(pat, text) <==> IsSubstring(pat, text[1..])
  {
    if IsSubstring(pat, text) {
      var i :| OccursAt(pat, text, i);
      if i == 0 {
        assert false;
      }
      assert text[1..][i - 1..i - 1 + |pat|] == pat;
      assert OccursAt(pat, text[1..], i - 1);
    }
    if IsSubstring(pat, text[1..]) {
      var j :| OccursAt(pat, text[1..], j);
      assert text[j + 1..j + 1 + |pat|] == pat;
      assert OccursAt(pat, text, j + 1);
    }
  }

  /** Lower-casing twice is the same as lower-casing once. */
  lemma LowerIdempotent(s: string)
    ensures Lower(Lower(s)) == Lower(s)
  {
  }

  /** A string without capitals is its own lower-cased form. */
  lemma LowerOfLowered(s: string)
    requires IsLowered(s)
    ensures Lower(s) == s
  {
  }

  /** Lower-casing distributes over concatenation. */
  lemma LowerConcat(a: string, b: string)
    ensures Lower(a + b) == Lower(a) + Lower(b)
  {
  }

  /** Strings that differ only in the case of letters lower-case to the same string. */
  lemma {:induction false} CaseVariantLower(a: string, b: string)
    requires CaseVariant(a, b)
    ensures Lower(a) == Lower(b)
  {
    forall i | 0 <= i < |a|
      ensures Lower(a)[i] == Lower(b)[i]
    {
      if a[i] != b[i] {
        assert IsAsciiLetter(a[i]) && IsAsciiLetter(b[i]);
      }
    }
  }

  /** A string that contains an ASCII capital never occurs in a lower-cased string. */
  lemma UpperNeverInLowered(pat: string, text: string, k: nat)
    requires k < |pat| && IsUpperAscii(pat[k])
    requires IsLowered(text)
    ensures !IsSubstring(pat, text)
  {
    forall i | 0 <= i && i + |pat| <= |text|
      ensures !OccursAt(pat, text, i)
    {
      assert text[i..i + |pat|][k] == text[i + k];
    }
  }

  /** A substring of one part of a concatenation is a substring of the whole. */
  lemma SubstringOfMiddle(pat: string, a: string, b: string, c: string)
    requires IsSubstring(pat, b)
    ensures IsSubstring(pat, a + b + c)
  {
    var i :| OccursAt(pat, b, i);
    var whole := a + b + c;
    assert whole[|a| + i..|a| + i + |pat|] == b[i..i + |pat|];
    assert OccursAt(pat, whole, |a| + i);
  }

  /** Every string occurs in itself. */
  lemma SubstringRefl(s: string)
    ensures IsSubstring(s, s)
  {
    assert OccursAt(s, s, 0);
  }
}
