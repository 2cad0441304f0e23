/** Natural numbers written in decimal. */
module Decimals {
  import opened LittleEndian

  predicate IsDigit(b: byte) { 48 <= b <= 57 }

  predicate AllDigits(ds: bytes) {
    forall d :: d in ds ==> IsDigit(d)
  }

  function DecimalValue(ds: bytes): nat
    requires AllDigits(ds)
  {
    if ds == [] then 0 else
      var d := ds[|ds| - 1];
      assert d in ds;
      10 * DecimalValue(ds[..|ds| - 1]) + d - 48
  }

  function Decimal(n: nat): bytes {
    if n < 10 then [48 + n] else Decimal(n / 10) + [48 + n % 10]
  }

  lemma {:induction false} DecimalInverts(n: nat)
    ensures AllDigits(Decimal(n)) && Decimal(n) != [] && DecimalValue(Decimal(n)) == n
    decreases n
  {
    if n < 10 {
      assert Decimal(n)[..0] == [];
    } else {
      DecimalInverts(n / 10);
      assert Decimal(n)[..|Decimal(n)| - 1] == Decimal(n / 10);
    }
  }

  /** And there is no shorter way: no zero comes first, but for zero itself. */
  lemma {:induction false} DecimalStarts(n: nat)
    ensures Decimal(n) != [] && (n > 0 ==> Decimal(n)[0] != 48) && (n < 10 ==> |Decimal(n)| == 1)
    decreases n
  {
    if n >= 10 { DecimalStarts(n / 10); }
  }

  function Pow10(n: nat): nat {
    if n == 0 then 1 else 10 * Pow10(n - 1)
  }

  /** Each digit is worth its place, counted from the end, leading zeros nothing. */
  lemma {:induction false} DigitsArePlaces(d: byte, ds: bytes)
    requires IsDigit(d) && AllDigits(ds)
    ensures AllDigits([d] + ds) && DecimalValue([d] + ds) == (d - 48) * Pow10(|ds|) + DecimalValue(ds)
    decreases |ds|
  {
    var all := [d] + ds;
    if ds == [] {
      assert all[..0] == [];
    } else {
      var init := ds[..|ds| - 1];
      assert all[..|all| - 1] == [d] + init;
      assert forall b :: b in init ==> b in ds;
      assert ds[|ds| - 1] in ds;
      DigitsArePlaces(d, init);
      TenTimes(d - 48, |init|);
    }
  }

  lemma TenTimes(v: nat, n: nat)
    ensures 10 * (v * Pow10(n)) == v * Pow10(n + 1)
  {
    assert Pow10(n + 1) == 10 * Pow10(n);
    assert 10 * (v * Pow10(n)) == v * (10 * Pow10(n));
  }
}
