/** Decimal numerals as bytes: how bencode spells a length and an integer. */
module Decimal {
  import opened Options

  type Byte = b: int | 0 <= b < 256

  predicate IsDigit(b: Byte) {
    48 <= b <= 57
  }

  function DigitValue(b: Byte): (r: nat)
    requires IsDigit(b)
    ensures r < 10 && 48 + r == b
  {
    (b as int) - 48
  }

  function Digits(n: nat): (r: seq<Byte>)
    ensures |r| > 0 && forall d | d in r :: IsDigit(d)
    ensures |r| > 1 ==> r[0] != 48
    ensures n > 0 ==> r[0] != 48
  {
    if n < 10 then [48 + n] else Digits(n / 10) + [48 + n % 10]
  }

  function Numeral(ds: seq<Byte>): nat
    requires forall d | d in ds :: IsDigit(d)
  {
    if ds == [] then 0 else 10 * Numeral(ds[..|ds| - 1]) + DigitValue(ds[|ds| - 1])
  }

  /** A numeral nobody could have spelled shorter. */
  predicate Minimal(ds: seq<Byte>) {
    |ds| > 0 && (forall d | d in ds :: IsDigit(d)) && (|ds| > 1 ==> ds[0] != 48)
  }

  lemma {:induction false} NumeralOfDigits(n: nat)
    ensures Numeral(Digits(n)) == n
  {
    if n >= 10 {
      NumeralOfDigits(n / 10);
      assert Digits(n)[..|Digits(n)| - 1] == Digits(n / 10);
    } else {
      assert Digits(n)[..0] == [];
    }
  }

  lemma {:induction false} NumeralIsPositive(ds: seq<Byte>)
    requires Minimal(ds) && ds[0] != 48
    ensures Numeral(ds) > 0
  {
    if |ds| == 1 {
      assert ds[..0] == [];
    } else {
      NumeralIsPositive(ds[..|ds| - 1]);
    }
  }

  lemma {:induction false} DigitsOfNumeral(ds: seq<Byte>)
    requires Minimal(ds)
    ensures Digits(Numeral(ds)) == ds
  {
    var n := |ds| - 1;
    if n == 0 {
      assert ds[..0] == [];
    } else {
      var front := ds[..n];
      DigitsOfNumeral(front);
      NumeralIsPositive(front);
      assert Numeral(ds) == 10 * Numeral(front) + DigitValue(ds[n]);
      assert Numeral(ds) / 10 == Numeral(front) && Numeral(ds) % 10 == DigitValue(ds[n]);
      assert ds == front + [ds[n]];
    }
  }

  /** How many digits a text starts with. */
  function DigitRun(s: seq<Byte>): (k: nat)
    ensures k <= |s| && (forall d | d in s[..k] :: IsDigit(d)) && (k < |s| ==> !IsDigit(s[k]))
  {
    if s == [] || !IsDigit(s[0]) then 0
    else
      var k := 1 + DigitRun(s[1..]);
      assert s[..k] == [s[0]] + s[1..][..k - 1];
      k
  }

  /** A minimal numeral off the front of a text, and what follows it. */
  function ReadNat(s: seq<Byte>): (r: Option<(nat, seq<Byte>)>)
    ensures r.Some? ==> |r.value.1| < |s|
  {
    var k := DigitRun(s);
    if Minimal(s[..k]) then Some((Numeral(s[..k]), s[k..])) else None
  }

  lemma {:induction false} DigitRunOf(ds: seq<Byte>, rest: seq<Byte>)
    requires forall d | d in ds :: IsDigit(d)
    requires rest != [] ==> !IsDigit(rest[0])
    ensures DigitRun(ds + rest) == |ds|
  {
    if ds == [] {
      assert ds + rest == rest;
    } else {
      assert (ds + rest)[1..] == ds[1..] + rest;
      DigitRunOf(ds[1..], rest);
    }
  }

  lemma ReadNatOfDigits(n: nat, rest: seq<Byte>)
    requires rest != [] ==> !IsDigit(rest[0])
    ensures ReadNat(Digits(n) + rest) == Some((n, rest))
  {
    DigitRunOf(Digits(n), rest);
    assert (Digits(n) + rest)[..|Digits(n)|] == Digits(n);
    NumeralOfDigits(n);
  }

  lemma ReadNatReadsDigits(s: seq<Byte>)
    requires ReadNat(s).Some?
    ensures s == Digits(ReadNat(s).value.0) + ReadNat(s).value.1
  {
    DigitsOfNumeral(s[..DigitRun(s)]);
  }
}
