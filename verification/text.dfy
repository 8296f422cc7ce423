/** String helpers with the meaning the models need: ASCII case folding, substring and prefix tests,
    whitespace-only inputs, and decimal rendering of counts. */
module Text {
  import opened Optional

  /** ASCII `toLowerCase` / `str.lower()`: only 'A'..'Z' change. */
  function LowerChar(c: char): char
  {
    if 'A' <= c <= 'Z' then (c as int + 32) as char else c
  }

  function Lower(s: string): (r: string)
    ensures |r| == |s|
    ensures forall i :: 0 <= i < |s| ==> r[i] == LowerChar(s[i])
  {
    seq(|s|, i requires 0 <= i < |s| => LowerChar(s[i]))
  }

  /** `sub` occurs in `s` starting at index `i`. */
  predicate OccursAt(s: string, sub: string, i: nat)
  {
    i + |sub| <= |s| && s[i..i + |sub|] == sub
  }

  /** Python's `sub in s` / plain substring search. */
  predicate Contains(s: string, sub: string)
    ensures Contains(s, sub) <==> exists i: nat :: i <= |s| && OccursAt(s, sub, i)
    decreases |s|
  {
    if sub <= s then (assert OccursAt(s, sub, 0); true)
    else if |s| == 0 then false
    else ContainsShift(s, sub); Contains(s[1..], sub)
  }

  /** An occurrence past index 0 is an occurrence in the tail. */
  lemma ContainsShift(s: string, sub: string)
    requires |s| > 0
    requires !(sub <= s)
    ensures (exists i: nat :: i <= |s| && OccursAt(s, sub, i)) <==> (exists j: nat :: j <= |s| - 1 && OccursAt(s[1..], sub, j))
  {
    forall i: nat | i <= |s| && OccursAt(s, sub, i)
      ensures exists j: nat :: j <= |s| - 1 && OccursAt(s[1..], sub, j)
    {
      assert i != 0;
      assert s[1..][i - 1..i - 1 + |sub|] == s[i..i + |sub|];
      assert OccursAt(s[1..], sub, i - 1);
    }
    forall j: nat | j <= |s| - 1 && OccursAt(s[1..], sub, j)
      ensures exists i: nat :: i <= |s| && OccursAt(s, sub, i)
    {
      assert s[1..][j..j + |sub|] == s[j + 1..j + 1 + |sub|];
      assert OccursAt(s, sub, j + 1);
    }
  }

  /** Characters JavaScript's `trim` removes (ASCII whitespace, NBSP, line/paragraph separators, BOM). */
  predicate IsSpace(c: char)
  {
    c == ' ' || c == '\t' || c == '\n' || c == '\r' || c == '\U{000B}' || c == '\U{000C}'
    || c == '\U{00A0}' || c == '\U{2028}' || c == '\U{2029}' || c == '\U{FEFF}'
  }

  /** `!s.trim()`: the string is empty or all whitespace. */
  predicate IsBlank(s: string)
  {
    forall i :: 0 <= i < |s| ==> IsSpace(s[i])
  }

  predicate IsDigit(c: char) { '0' <= c <= '9' }

  function DigitChar(d: nat): (c: char)
    requires d < 10
    ensures IsDigit(c)
  {
    ('0' as int + d) as char
  }

  function DigitValue(c: char): (d: nat)
    requires IsDigit(c)
    ensures d < 10 && DigitChar(d) == c
  {
    c as int - '0' as int
  }

  /** Decimal rendering of a count, as a template literal `${n}` prints it. */
  function NatToString(n: nat): (r: string)
    ensures |r| > 0
    ensures forall i :: 0 <= i < |r| ==> IsDigit(r[i])
    ensures r[0] == '0' ==> n == 0
  {
    if n < 10 then [DigitChar(n)] else NatToString(n / 10) + [DigitChar(n % 10)]
  }

  /** Value of a string of decimal digits, most significant first. */
  function DigitsValue(s: string): nat
    requires forall i :: 0 <= i < |s| ==> IsDigit(s[i])
  {
    if |s| == 0 then 0 else DigitsValue(s[..|s| - 1]) * 10 + DigitValue(s[|s| - 1])
  }

  /** A non-empty digit string with no leading zero, except "0" itself: the form `${n}` prints. */
  predicate IsCanonicalDigits(s: string)
  {
    && |s| > 0
    && (forall i :: 0 <= i < |s| ==> IsDigit(s[i]))
    && (|s| == 1 || s[0] != '0')
  }

  /** Reads back a count exactly as `${n}` prints it; anything else, a leading zero included, is not one. */
  function ParseNat(s: string): (r: Option<nat>)
    ensures r.Some? <==> IsCanonicalDigits(s)
  {
    if IsCanonicalDigits(s) then Some(DigitsValue(s)) else None
  }

  /** Reading a rendered count gives the count back. */
  lemma {:induction false} ParseNatToString(n: nat)
    ensures ParseNat(NatToString(n)) == Some(n)
  {
    var s := NatToString(n);
    if n < 10 {
      assert DigitsValue(s) == DigitsValue(s[..0]) * 10 + DigitValue(s[0]);
    } else {
      ParseNatToString(n / 10);
      assert s[..|s| - 1] == NatToString(n / 10);
    }
  }

  /** Every string that reads as a count is the printing of that count, so the printed form is the only one. */
  lemma {:induction false} ParsedNatIsPrinted(s: string)
    ensures ParseNat(s).Some? ==> NatToString(ParseNat(s).value) == s
    decreases |s|
  {
    if ParseNat(s).Some? && |s| > 1 {
      var front := s[..|s| - 1];
      assert IsCanonicalDigits(front);
      ParsedNatIsPrinted(front);
      DigitsValuePositive(front);
      var v := DigitsValue(s);
      assert v == DigitsValue(front) * 10 + DigitValue(s[|s| - 1]);
      assert v / 10 == DigitsValue(front) && v % 10 == DigitValue(s[|s| - 1]);
      assert s == front + [s[|s| - 1]];
    } else if ParseNat(s).Some? {
      assert DigitsValue(s) == DigitsValue(s[..0]) * 10 + DigitValue(s[0]);
    }
  }

  /** A digit string that does not start with '0' has a positive value. */
  lemma {:induction false} DigitsValuePositive(s: string)
    requires |s| > 0 && s[0] != '0'
    requires forall i :: 0 <= i < |s| ==> IsDigit(s[i])
    ensures DigitsValue(s) > 0
    decreases |s|
  {
    if |s| > 1 {
      DigitsValuePositive(s[..|s| - 1]);
    } else {
      assert DigitsValue(s) == DigitsValue(s[..0]) * 10 + DigitValue(s[0]);
    }
  }
}
