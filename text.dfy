/**
 * Character-level helpers shared by the model: decimal text of numbers (as
 * written by .NET's ToString() for unsigned integers and read back by its
 * parsers), ASCII lower-casing, prefix and substring tests.
 */
module Text {
  import opened Wrappers

  predicate IsDigit(c: char) { '0' <= c <= '9' }

  predicate AllDigits(s: string) { forall i :: 0 <= i < |s| ==> IsDigit(s[i]) }

  function DigitValue(c: char): (d: nat)
    requires IsDigit(c)
    ensures d < 10
  {
    (c as int) - ('0' as int)
  }

  function DigitChar(d: nat): (c: char)
    requires d < 10
    ensures IsDigit(c) && DigitValue(c) == d
  {
    (('0' as int) + d) as char
  }

  /** Decimal text of n, most significant digit first, without leading zeros. */
  function DecimalString(n: nat): (s: string)
    ensures |s| >= 1 && AllDigits(s)
    ensures |s| > 1 ==> s[0] != '0'
    decreases n
  {
    if n < 10 then [DigitChar(n)] else DecimalString(n / 10) + [DigitChar(n % 10)]
  }

  /** Value of a run of decimal digits (leading zeros allowed). */
  function DigitsValue(s: string): nat
    requires AllDigits(s)
  {
    if |s| == 0 then 0 else DigitsValue(s[..|s| - 1]) * 10 + DigitValue(s[|s| - 1])
  }

  /** Reads a non-empty run of decimal digits; anything else is rejected. */
  function ParseDecimal(s: string): (r: Option<nat>)
    ensures r.Some? <==> |s| > 0 && AllDigits(s)
  {
    if |s| > 0 && AllDigits(s) then Some(DigitsValue(s)) else None
  }

  /** Reading the decimal text of a number gives the number back. */
  lemma {:induction false} DigitsValueOfDecimalString(n: nat)
    ensures DigitsValue(DecimalString(n)) == n
    decreases n
  {
    if n >= 10 {
      var prefix := DecimalString(n / 10);
      var s := prefix + [DigitChar(n % 10)];
      assert s[..|s| - 1] == prefix;
      DigitsValueOfDecimalString(n / 10);
    }
  }

  lemma ParseDecimalString(n: nat)
    ensures ParseDecimal(DecimalString(n)) == Some(n)
  {
    DigitsValueOfDecimalString(n);
  }

  function LowerChar(c: char): (l: char)
    ensures !('A' <= l <= 'Z')
  {
    if 'A' <= c <= 'Z' then (c as int + 32) as char else c
  }

  /** ASCII lower-casing, character by character; other characters are kept. */
  function ToLower(s: string): (r: string)
    ensures |r| == |s|
    ensures forall i :: 0 <= i < |s| ==> r[i] == LowerChar(s[i])
  {
    seq(|s|, i requires 0 <= i < |s| => LowerChar(s[i]))
  }

  lemma ToLowerIdempotent(s: string)
    ensures ToLower(ToLower(s)) == ToLower(s)
  {
  }

  predicate StartsWith(s: string, prefix: string)
  {
    |prefix| <= |s| && s[..|prefix|] == prefix
  }

  /** `part` occurs in `s` starting at position k. */
  predicate OccursAt(s: string, part: string, k: int)
  {
    0 <= k <= |s| - |part| && s[k..k + |part|] == part
  }

  /** The occurrences in s after its first character are those in s[1..], shifted by one. */
  lemma OccursAtShift(s: string, part: string, k: int)
    requires |s| > 0 && k >= 1
    ensures OccursAt(s, part, k) <==> OccursAt(s[1..], part, k - 1)
  {
    if 1 <= k <= |s| - |part| {
      var here, there := s[k..k + |part|], s[1..][k - 1..k - 1 + |part|];
      forall i | 0 <= i < |part| ensures here[i] == there[i] {
        assert here[i] == s[k + i];
        assert there[i] == s[1..][k - 1 + i];
      }
      assert here == there;
    }
  }

  /** Ordinal substring test: does `part` occur somewhere in `s`? */
  function Contains(s: string, part: string): (r: bool)
    ensures r <==> exists k :: OccursAt(s, part, k)
    decreases |s|
  {
    if StartsWith(s, part) then
      assert OccursAt(s, part, 0);
      true
    else if |s| == 0 then
      false
    else
      var r := Contains(s[1..], part);
      assert r ==> exists k :: OccursAt(s, part, k) by {
        if r {
          var k' :| OccursAt(s[1..], part, k');
          OccursAtShift(s, part, k' + 1);
        }
      }
      assert (exists k :: OccursAt(s, part, k)) ==> r by {
        if exists k :: OccursAt(s, part, k) {
          var k :| OccursAt(s, part, k);
          assert k != 0;
          OccursAtShift(s, part, k);
        }
      }
      r
  }
}
