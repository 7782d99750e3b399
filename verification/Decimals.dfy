/** Decimal numerals. */
module Decimals {
  import opened Bytes

  predicate AllDigits(d: bytes) { forall i :: 0 <= i < |d| ==> IsDigit(d[i]) }

  function DigitValue(b: byte): (v: nat)
    requires IsDigit(b)
    ensures v < 10
  {
    b as int - 48
  }

  function Decimal(d: bytes): nat
    requires AllDigits(d)
  {
    if d == [] then 0 else 10 * Decimal(d[..|d| - 1]) + DigitValue(d[|d| - 1])
  }

  function Numeral(n: nat): (d: bytes)
    ensures d != [] && AllDigits(d)
    ensures d[0] == 48 <==> n == 0
    ensures n == 0 ==> d == [48]
  {
    if n < 10 then [(48 + n) as byte] else Numeral(n / 10) + [(48 + n % 10) as byte]
  }

  lemma {:induction false} DecimalOfNumeral(n: nat)
    ensures Decimal(Numeral(n)) == n
  {
    var d := Numeral(n);
    if n < 10 {
      assert d[..0] == [];
    } else {
      DecimalOfNumeral(n / 10);
      assert d[..|d| - 1] == Numeral(n / 10);
    }
  }

  /**
   * A key that PHP tables take for an integer: "0", or a numeral without a leading zero and with an
   * optional minus sign, that fits a long.
   */
  predicate IsIndex(k: bytes) {
    k == [48] ||
    (var d := if k != [] && k[0] == 45 then k[1..] else k;
     d != [] && d[0] != 48 && AllDigits(d)
     && Decimal(d) <= if k[0] == 45 then 0x8000_0000_0000_0000 else 0x7FFF_FFFF_FFFF_FFFF)
  }

  lemma {:induction false} DecimalIsPositive(d: bytes)
    requires AllDigits(d) && d != [] && d[0] != 48
    ensures Decimal(d) > 0
  {
    if |d| > 1 { DecimalIsPositive(d[..|d| - 1]); } else { assert d[..0] == []; }
  }

  lemma {:induction false} NumeralOfDecimal(d: bytes)
    requires AllDigits(d) && d != [] && d[0] != 48
    ensures Numeral(Decimal(d)) == d
  {
    var n, last := |d| - 1, d[|d| - 1];
    if n == 0 {
      assert d[..0] == [] && Decimal(d) == DigitValue(last);
      assert d == [last];
    } else {
      NumeralOfDecimal(d[..n]);
      DecimalIsPositive(d[..n]);
      var q := Decimal(d[..n]);
      assert Decimal(d) == 10 * q + DigitValue(last);
      assert Decimal(d) / 10 == q && Decimal(d) % 10 == DigitValue(last);
      assert d == d[..n] + [last];
    }
  }

  lemma IndexIsNumeral(k: bytes) returns (n: nat)
    requires IsIndex(k)
    ensures (n <= 0x7FFF_FFFF_FFFF_FFFF && k == Numeral(n)) || (0 < n <= 0x8000_0000_0000_0000 && k == [45] + Numeral(n))
  {
    hide Numeral, Decimal;
    if k == [48] {
      n := 0;
    } else {
      var d := if k[0] == 45 then k[1..] else k;
      NumeralOfDecimal(d);
      DecimalIsPositive(d);
      n := Decimal(d);
      assert k == if k[0] == 45 then [45] + d else d;
    }
  }

  lemma NumeralIsIndex(n: nat)
    ensures n <= 0x7FFF_FFFF_FFFF_FFFF ==> IsIndex(Numeral(n))
    ensures 0 < n <= 0x8000_0000_0000_0000 ==> IsIndex([45] + Numeral(n))
  {
    hide Numeral, Decimal;
    DecimalOfNumeral(n);
    assert ([45] + Numeral(n))[1..] == Numeral(n);
  }

  /** The integer keys are the numerals of the longs. */
  lemma IndexIsNumeralIff(k: bytes)
    ensures IsIndex(k) <==>
      || (exists n: nat :: n <= 0x7FFF_FFFF_FFFF_FFFF && k == Numeral(n))
      || (exists n: nat :: 0 < n <= 0x8000_0000_0000_0000 && k == [45] + Numeral(n))
  {
    hide IsIndex, Numeral;
    if IsIndex(k) { var n := IndexIsNumeral(k); }
    forall n: nat | n <= 0x7FFF_FFFF_FFFF_FFFF && k == Numeral(n) ensures IsIndex(k) { NumeralIsIndex(n); }
    forall n: nat | 0 < n <= 0x8000_0000_0000_0000 && k == [45] + Numeral(n) ensures IsIndex(k) { NumeralIsIndex(n); }
  }
}
