/**
  The C++ `int` and its decimal text: what `std::ostream << int` writes, and
  the digit arithmetic `std::istream >> int` uses to read it back.
*/
module Decimal {

  /** A 32-bit two's-complement `int`, the type of every shape field. */
  newtype int32 = x: int | -0x8000_0000 <= x < 0x8000_0000

  predicate InInt32Range(v: int) {
    -0x8000_0000 <= v < 0x8000_0000
  }

  predicate IsDigit(c: char) {
    '0' <= c <= '9'
  }

  predicate AllDigits(s: string) {
    forall k {:trigger IsDigit(s[k])} :: 0 <= k < |s| ==> IsDigit(s[k])
  }

  function DigitValue(c: char): (d: nat)
    requires IsDigit(c)
    ensures d < 10
  {
    c as int - '0' as int
  }

  function DigitChar(d: nat): (c: char)
    requires d < 10
    ensures IsDigit(c) && DigitValue(c) == d
  {
    ('0' as int + d) as char
  }

  /** The shortest numeral of `n`: decimal digits, most significant first, no leading zero. */
  function NatToDigits(n: nat): (s: string)
    ensures |s| >= 1 && AllDigits(s)
    ensures s[0] == '0' <==> n == 0
    decreases n
  {
    if n < 10 then [DigitChar(n)] else NatToDigits(n / 10) + [DigitChar(n % 10)]
  }

  /** The value of a run of decimal digits, most significant first. */
  function DigitsToNat(s: string): nat
    requires AllDigits(s)
  {
    if s == [] then 0 else DigitsToNat(s[..|s| - 1]) * 10 + DigitValue(s[|s| - 1])
  }

  /** Reading back a numeral gives the number that was written. */
  lemma {:induction false} DigitsRoundTrip(n: nat)
    ensures DigitsToNat(NatToDigits(n)) == n
    decreases n
  {
    if n >= 10 {
      var init := NatToDigits(n / 10);
      var s := init + [DigitChar(n % 10)];
      assert s[..|s| - 1] == init;
      DigitsRoundTrip(n / 10);
    }
  }

  /** The digits of a numeral for `i`: everything after the minus sign, if there is one. */
  function Magnitude(w: string, i: int): string
    requires |w| >= 1
  {
    if i < 0 then w[1..] else w
  }

  /**
    `w` is a numeral for `i`: a minus sign exactly when `i` is negative, then
    at least one decimal digit, and the digits have the value of `i`'s
    magnitude.
  */
  predicate IsNumeralOf(w: string, i: int) {
    |w| >= 1 && (w[0] == '-' <==> i < 0)
    && |Magnitude(w, i)| >= 1 && AllDigits(Magnitude(w, i))
    && DigitsToNat(Magnitude(w, i)) == if i < 0 then -i else i
  }

  /**
    `std::ostream << int`: an optional minus sign, then the shortest numeral of
    the magnitude, so a digit `0` leads only the numeral of 0 itself.
  */
  function IntToDecimal(i: int): (s: string)
    ensures IsNumeralOf(s, i)
    ensures Magnitude(s, i)[0] == '0' ==> s == "0"
  {
    var magnitude := if i < 0 then -i else i;
    var digits := NatToDigits(magnitude);
    DigitsRoundTrip(magnitude);
    assert ("-" + digits)[1..] == digits;
    assert IsDigit(digits[0]);
    if i < 0 then "-" + digits else digits
  }

  /** Each word of `ws` is a numeral for the value at the same place in `vs`. */
  predicate NumeralsOf(ws: seq<string>, vs: seq<int32>) {
    |ws| == |vs| && (ws != [] ==> IsNumeralOf(ws[0], vs[0] as int) && NumeralsOf(ws[1..], vs[1..]))
  }

  /** A numeral holds nothing but its sign and its digits. */
  lemma NumeralCharacters(w: string, i: int)
    requires IsNumeralOf(w, i)
    ensures forall c :: c in w ==> c == '-' || IsDigit(c)
    ensures w[0] == '-' || IsDigit(w[0])
  {
    forall c | c in w ensures c == '-' || IsDigit(c) {
      var k :| 0 <= k < |w| && w[k] == c;
      if i < 0 && k > 0 {
        assert w[k] == Magnitude(w, i)[k - 1];
      } else if i >= 0 {
        assert w[k] == Magnitude(w, i)[k];
      }
    }
    assert w[0] in w;
  }
}
