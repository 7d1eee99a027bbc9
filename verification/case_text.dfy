/**
 * Text primitives used by the question router: ASCII lower-casing (the
 * part of Python's `str.lower()` modelled here) and Python's substring
 * test `keyword in text`.
 */
module CaseText {

  predicate IsUpperChar(c: char) {
    'A' <= c <= 'Z'
  }

  /** True when no character of `s` is an ASCII upper-case letter. */
  predicate IsLowerText(s: string) {
    forall i :: 0 <= i < |s| ==> !IsUpperChar(s[i])
  }

  /** One character of `str.lower()`, restricted to ASCII letters. */
  function LowerChar(c: char): (r: char)
    ensures !IsUpperChar(r)
    ensures IsUpperChar(c) ==> r as int == c as int + 32
    ensures !IsUpperChar(c) ==> r == c
  {
    if IsUpperChar(c) then (c as int + 32) as char else c
  }

  /** `s.lower()`, character by character. */
  function Lower(s: string): (r: string)
    ensures |r| == |s|
    ensures forall i :: 0 <= i < |s| ==> r[i] == LowerChar(s[i])
    ensures IsLowerText(r)
  {
    if s == [] then [] else [LowerChar(s[0])] + Lower(s[1..])
  }

  /** Lower-casing a text that has no upper-case letter leaves it unchanged. */
  lemma LowerOfLowerText(s: string)
    requires IsLowerText(s)
    ensures Lower(s) == s
  {
    assert forall i :: 0 <= i < |s| ==> Lower(s)[i] == s[i];
  }

  /** Lower-casing twice is lower-casing once. */
  lemma LowerIdempotent(s: string)
    ensures Lower(Lower(s)) == Lower(s)
  {
    LowerOfLowerText(Lower(s));
  }

  /** `key` occurs in `text` starting at position `i`. */
  predicate OccursAt(text: string, key: string, i: nat) {
    i + |key| <= |text| && text[i..i + |key|] == key
  }

  /**
   * Python's `key in text` for two strings: scans the start positions of
   * `text` from left to right. The empty key occurs in every text.
   */
  function Contains(text: string, key: string): (r: bool)
    ensures r <==> exists i: nat :: OccursAt(text, key, i)
  {
    if |text| < |key| then
      assert forall i: nat :: !OccursAt(text, key, i);
      false
    else if text[..|key|] == key then
      assert OccursAt(text, key, 0);
      true
    else
      var rest := Contains(text[1..], key);
      assert forall i: nat :: OccursAt(text, key, i + 1) <==> OccursAt(text[1..], key, i) by {
        forall i: nat ensures OccursAt(text, key, i + 1) <==> OccursAt(text[1..], key, i) {
          if i + 1 + |key| <= |text| {
            assert text[1..][i..i + |key|] == text[i + 1..i + 1 + |key|];
          }
        }
      }
      assert !OccursAt(text, key, 0);
      assert (exists i: nat :: OccursAt(text, key, i)) ==> exists i: nat :: OccursAt(text[1..], key, i) by {
        if exists i: nat :: OccursAt(text, key, i) {
          var i: nat :| OccursAt(text, key, i);
          assert i > 0;
          assert OccursAt(text[1..], key, i - 1);
        }
      }
      rest
  }

  /**
   * `key` matches `text` at position `i` when letter case is ignored on
   * both sides.
   */
  predicate CaseInsensitiveAt(text: string, key: string, i: nat) {
    i + |key| <= |text| &&
    forall j :: 0 <= j < |key| ==> LowerChar(text[i + j]) == LowerChar(key[j])
  }

  /**
   * A key holding an ASCII upper-case letter never occurs in a lower-cased
   * text: only the question is lower-cased, never the keyword.
   */
  lemma UpperKeyNeverInLowered(text: string, key: string, j: nat)
    requires j < |key| && IsUpperChar(key[j])
    ensures !Contains(Lower(text), key)
  {
  }

  /**
   * A key without upper-case letters occurs in the lower-cased text exactly
   * when it occurs in the original text up to letter case.
   */
  lemma LowerKeyMatchesAnyCase(text: string, key: string)
    requires IsLowerText(key)
    ensures Contains(Lower(text), key) <==> exists i: nat :: CaseInsensitiveAt(text, key, i)
  {
    var low := Lower(text);
    forall i: nat ensures OccursAt(low, key, i) <==> CaseInsensitiveAt(text, key, i) {
      if i + |key| <= |text| {
        if OccursAt(low, key, i) {
          forall j | 0 <= j < |key| ensures LowerChar(text[i + j]) == LowerChar(key[j]) {
            assert low[i..i + |key|][j] == low[i + j];
          }
        }
        if CaseInsensitiveAt(text, key, i) {
          assert forall j :: 0 <= j < |key| ==> low[i..i + |key|][j] == key[j];
        }
      }
    }
  }
}
