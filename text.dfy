/** String helpers the views rely on: `str(n)` for a non-negative integer,
    `s.isdigit()` followed by `int(s)`, and Django's `icontains` lookup. */
module Text {

  predicate IsDigit(c: char) {
    '0' <= c <= '9'
  }

  /** `s.isdigit()` restricted to ASCII digits: true iff `s` is non-empty and
      every character is a digit. */
  predicate IsDigits(s: string) {
    |s| > 0 && forall i :: 0 <= i < |s| ==> IsDigit(s[i])
  }

  function DigitValue(c: char): (v: nat)
    requires IsDigit(c)
    ensures v < 10
  {
    c as int - '0' as int
  }

  function DigitChar(v: nat): (c: char)
    requires v < 10
    ensures IsDigit(c) && DigitValue(c) == v
  {
    ('0' as int + v) as char
  }

  /** `int(s)` for a string of decimal digits, most significant first. */
  function DecimalValue(s: string): nat
    requires forall i :: 0 <= i < |s| ==> IsDigit(s[i])
  {
    if |s| == 0 then 0 else DecimalValue(s[..|s| - 1]) * 10 + DigitValue(s[|s| - 1])
  }

  /** `str(n)` for `n >= 0`: the shortest decimal rendering, no sign. */
  function NatToString(n: nat): (s: string)
    ensures IsDigits(s)
    ensures |s| > 1 ==> s[0] != '0'
    decreases n
  {
    if n < 10 then [DigitChar(n)] else NatToString(n / 10) + [DigitChar(n % 10)]
  }

  /** Reading back what `str` wrote gives the same number. */
  lemma {:induction false} NatToStringRoundTrip(n: nat)
    ensures DecimalValue(NatToString(n)) == n
    decreases n
  {
    if n >= 10 {
      var s := NatToString(n);
      assert s[..|s| - 1] == NatToString(n / 10);
      NatToStringRoundTrip(n / 10);
    }
  }

  /** Distinct numbers render as distinct strings. */
  lemma NatToStringInjective(m: nat, n: nat)
    requires NatToString(m) == NatToString(n)
    ensures m == n
  {
    NatToStringRoundTrip(m);
    NatToStringRoundTrip(n);
  }

  /** ASCII lower-casing of one character. */
  function LowerChar(c: char): char {
    if 'A' <= c <= 'Z' then (c as int + 32) as char else c
  }

  function Lower(s: string): (r: string)
    ensures |r| == |s|
    ensures forall i :: 0 <= i < |s| ==> r[i] == LowerChar(s[i])
  {
    seq(|s|, i requires 0 <= i < |s| => LowerChar(s[i]))
  }

  /** `needle` occurs in `haystack` starting at position `i`. */
  predicate OccursAt(needle: string, haystack: string, i: int) {
    0 <= i && i + |needle| <= |haystack| && haystack[i..i + |needle|] == needle
  }

  /** Substring search, scanning the haystack left to right. */
  function Contains(haystack: string, needle: string): (b: bool)
    ensures b <==> exists i :: OccursAt(needle, haystack, i)
    decreases |haystack|
  {
    if |needle| <= |haystack| && haystack[..|needle|] == needle then
      assert OccursAt(needle, haystack, 0);
      true
    else if |haystack| == 0 then
      assert forall i :: !OccursAt(needle, haystack, i);
      false
    else
      var rest := Contains(haystack[1..], needle);
      assert forall i :: OccursAt(needle, haystack[1..], i) <==> OccursAt(needle, haystack, i + 1) by {
        forall i ensures OccursAt(needle, haystack[1..], i) <==> OccursAt(needle, haystack, i + 1) {
          if 0 <= i && i + |needle| <= |haystack| - 1 {
            assert haystack[1..][i..i + |needle|] == haystack[i + 1..i + 1 + |needle|];
          }
        }
      }
      assert forall i :: OccursAt(needle, haystack, i) && i > 0 ==> OccursAt(needle, haystack[1..], i - 1);
      rest
  }

  /** Django's `field__icontains=needle`, with ASCII case folding. */
  predicate IContains(haystack: string, needle: string) {
    Contains(Lower(haystack), Lower(needle))
  }

  /** Every string contains the empty string, whatever the case. */
  lemma IContainsEmpty(haystack: string)
    ensures IContains(haystack, "")
  {
    assert OccursAt(Lower(""), Lower(haystack), 0);
  }

  /** A string contains itself, ignoring case. */
  lemma IContainsSelf(s: string)
    ensures IContains(s, s)
  {
    assert Lower(s)[0..|s|] == Lower(s);
    assert OccursAt(Lower(s), Lower(s), 0);
  }
}
