/** Character and number formatting used by the alert engine: ASCII case
    mapping (Python's str.lower and str.capitalize restricted to ASCII) and the
    fixed two-decimal rendering of a percentage. */
module Text {

  predicate IsUpper(c: char) { 'A' <= c <= 'Z' }

  predicate IsLower(c: char) { 'a' <= c <= 'z' }

  function LowerChar(c: char): (d: char)
    ensures !IsUpper(d)
    ensures IsUpper(c) ==> IsLower(d) && d as int - c as int == 'a' as int - 'A' as int
    ensures !IsUpper(c) ==> d == c
  {
    if IsUpper(c) then (c as int + ('a' as int - 'A' as int)) as char else c
  }

  function UpperChar(c: char): (d: char)
    ensures !IsLower(d)
    ensures IsLower(c) ==> IsUpper(d) && c as int - d as int == 'a' as int - 'A' as int
    ensures !IsLower(c) ==> d == c
  {
    if IsLower(c) then (c as int - ('a' as int - 'A' as int)) as char else c
  }

  /** str.lower() on ASCII text: every capital letter replaced by its small letter. */
  function Lower(s: string): (r: string)
    ensures |r| == |s|
    ensures forall i :: 0 <= i < |s| ==> r[i] == LowerChar(s[i])
  {
    seq(|s|, i requires 0 <= i < |s| => LowerChar(s[i]))
  }

  /** A string is in lower case when lowering it changes nothing. */
  predicate IsLowerCase(s: string) { forall i :: 0 <= i < |s| ==> !IsUpper(s[i]) }

  lemma LowerIsLowerCase(s: string)
    ensures IsLowerCase(Lower(s))
    ensures Lower(Lower(s)) == Lower(s)
    ensures IsLowerCase(s) <==> Lower(s) == s
  {
    if IsLowerCase(s) {
      assert forall i :: 0 <= i < |s| ==> Lower(s)[i] == s[i];
    }
    if Lower(s) == s {
      assert forall i :: 0 <= i < |s| ==> !IsUpper(s[i]) by {
        forall i | 0 <= i < |s| ensures !IsUpper(s[i]) {
          assert s[i] == Lower(s)[i] == LowerChar(s[i]);
        }
      }
    }
  }

  /** str.capitalize() on ASCII text: the first letter in upper case, the rest in lower case. */
  function Capitalize(s: string): (r: string)
    ensures |r| == |s|
    ensures |s| > 0 ==> !IsLower(r[0]) && LowerChar(r[0]) == LowerChar(s[0])
    ensures |s| > 0 ==> r[1..] == Lower(s[1..])
  {
    if s == [] then [] else [UpperChar(s[0])] + Lower(s[1..])
  }

  function DigitChar(d: nat): (c: char)
    requires d < 10
    ensures '0' <= c <= '9'
  {
    ('0' as int + d) as char
  }

  function DigitValue(c: char): (d: nat)
    requires '0' <= c <= '9'
    ensures d < 10 && DigitChar(d) == c
  {
    c as int - '0' as int
  }

  predicate IsDigits(s: string) { forall i :: 0 <= i < |s| ==> '0' <= s[i] <= '9' }

  /** Decimal text of a natural number, without leading zeros. */
  function NatToString(n: nat): (s: string)
    ensures |s| > 0 && IsDigits(s)
    ensures |s| > 1 ==> s[0] != '0'
  {
    if n < 10 then [DigitChar(n)] else NatToString(n / 10) + [DigitChar(n % 10)]
  }

  /** The value of a string of decimal digits (the inverse of NatToString). */
  function ParseNat(s: string): nat
    requires IsDigits(s)
  {
    if s == [] then 0 else ParseNat(s[..|s| - 1]) * 10 + DigitValue(s[|s| - 1])
  }

  lemma {:induction false} ParseNatToString(n: nat)
    ensures ParseNat(NatToString(n)) == n
  {
    var s := NatToString(n);
    if n < 10 {
      assert s[..0] == [];
      assert DigitValue(DigitChar(n)) == n;
    } else {
      ParseNatToString(n / 10);
      assert s[..|s| - 1] == NatToString(n / 10);
      assert DigitValue(DigitChar(n % 10)) == n % 10;
    }
  }

  /** x rounded to the nearest hundredth, counted in hundredths; a value exactly
      halfway between two hundredths goes to the even one, as Python's "%.2f" does. */
  function Hundredths(x: real): (h: int)
    ensures h as real - 0.5 <= x * 100.0 <= h as real + 0.5
    ensures (x * 100.0 - h as real == 0.5 || h as real - x * 100.0 == 0.5) ==> h % 2 == 0
  {
    var y := x * 100.0;
    var f := y.Floor;
    if y - f as real < 0.5 then f
    else if y - f as real > 0.5 then f + 1
    else if f % 2 == 0 then f
    else f + 1
  }

  /** Python's "%.2f" for a non-negative number: integer part, a point, two digits. */
  function FormatFixed2(x: real): (s: string)
    requires x >= 0.0
    ensures |s| >= 4 && s[|s| - 3] == '.'
    ensures IsDigits(s[..|s| - 3]) && IsDigits(s[|s| - 2..])
    ensures ParseNat(s[..|s| - 3] + s[|s| - 2..]) == Hundredths(x)
    ensures |s| > 4 ==> s[0] != '0'
  {
    var h: nat := Hundredths(x);
    var s := NatToString(h / 100) + "." + [DigitChar(h / 10 % 10), DigitChar(h % 10)];
    FormatFixed2Digits(h);
    s
  }

  lemma DivModDigits(h: nat)
    ensures (h / 100) * 10 + h / 10 % 10 == h / 10
    ensures (h / 10) * 10 + h % 10 == h
  {
  }

  lemma {:induction false} ParseAppend(p: string, c: char)
    requires IsDigits(p) && '0' <= c <= '9'
    ensures IsDigits(p + [c]) && ParseNat(p + [c]) == ParseNat(p) * 10 + DigitValue(c)
  {
    assert (p + [c])[..|p|] == p;
  }

  lemma FormatFixed2Digits(h: nat)
    ensures var s := NatToString(h / 100) + "." + [DigitChar(h / 10 % 10), DigitChar(h % 10)];
      && s[..|s| - 3] == NatToString(h / 100)
      && s[|s| - 2..] == [DigitChar(h / 10 % 10), DigitChar(h % 10)]
      && IsDigits(s[..|s| - 3] + s[|s| - 2..])
      && ParseNat(s[..|s| - 3] + s[|s| - 2..]) == h
  {
    var p := NatToString(h / 100);
    var d1, d0 := DigitChar(h / 10 % 10), DigitChar(h % 10);
    var s := p + "." + [d1, d0];
    assert s[..|s| - 3] == p;
    assert s[|s| - 2..] == [d1, d0];
    assert s[..|s| - 3] + s[|s| - 2..] == (p + [d1]) + [d0];
    ParseNatToString(h / 100);
    ParseAppend(p, d1);
    ParseAppend(p + [d1], d0);
    DivModDigits(h);
  }
}
