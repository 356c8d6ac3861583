/** Compact forms of amounts and scripts (src/compressor.cpp, src/compressor.h). */
module Compressor {
  /** The amount without its trailing zeros, of which at most nine are counted from e on. */
  function Mantissa(n: nat, e: nat): nat
    decreases n
  {
    if n > 0 && n % 10 == 0 && e < 9 then Mantissa(n / 10, e + 1) else n
  }

  function Exponent(n: nat, e: nat): nat
    decreases n
  {
    if n > 0 && n % 10 == 0 && e < 9 then Exponent(n / 10, e + 1) else e
  }

  function TimesTen(n: nat, e: nat): nat
    decreases e
  {
    if e == 0 then n else TimesTen(n * 10, e - 1)
  }

  function Packed(m: nat, e: nat): (x: int)
    ensures m > 0 && (e < 9 ==> m % 10 != 0) ==> x > 0
  {
    if e < 9 then 1 + (m / 10 * 9 + m % 10 - 1) * 10 + e else 1 + (m - 1) * 10 + 9
  }

  lemma {:induction false} MantissaIs(n: nat, e: nat)
    requires n > 0 && e <= 9
    ensures var m, x := Mantissa(n, e), Exponent(n, e);
            && m > 0 && e <= x <= 9 && (x < 9 ==> m % 10 != 0) && TimesTen(m, x - e) == n
    decreases n
  {
    if n % 10 == 0 && e < 9 {
      MantissaIs(n / 10, e + 1);
      TimesTenLast(Mantissa(n, e), Exponent(n, e) - e - 1);
    }
  }

  lemma {:induction false} TimesTenLast(m: nat, k: nat)
    ensures TimesTen(m, k + 1) == TimesTen(m, k) * 10
    decreases k
  {
    if k > 0 {
      TimesTenLast(m * 10, k - 1);
    }
  }

  /** Putting the zeros back and taking them off again. */
  lemma {:induction false} MantissaOf(m: nat, k: nat, e: nat)
    requires m > 0 && e + k <= 9 && (e + k < 9 ==> m % 10 != 0)
    ensures TimesTen(m, k) > 0 && Mantissa(TimesTen(m, k), e) == m && Exponent(TimesTen(m, k), e) == e + k
    decreases k
  {
    if k > 0 {
      TimesTenLast(m, k - 1);
      MantissaOf(m, k - 1, e + 1);
    }
  }

  function Compressed(n: nat): nat {
    if n == 0 then 0 else
      MantissaIs(n, 0);
      Packed(Mantissa(n, 0), Exponent(n, 0))
  }

  function UnpackedMantissa(x: nat): nat
    requires x > 0
  {
    var z := (x - 1) / 10;
    if (x - 1) % 10 < 9 then z / 9 * 10 + z % 9 + 1 else z + 1
  }

  function Decompressed(x: nat): nat {
    if x == 0 then 0 else TimesTen(UnpackedMantissa(x), (x - 1) % 10)
  }

  method CompressAmount(amount: nat) returns (x: nat)
    ensures x == Compressed(amount)
  {
    if amount == 0 {
      return 0;
    }
    MantissaIs(amount, 0);
    var n, e := amount, 0;
    while n % 10 == 0 && e < 9
      invariant n > 0 && e <= 9
      invariant Mantissa(n, e) == Mantissa(amount, 0) && Exponent(n, e) == Exponent(amount, 0)
      decreases 9 - e
    {
      n, e := n / 10, e + 1;
    }
    if e < 9 {
      var d := n % 10;
      assert 1 <= d <= 9;
      return 1 + (n / 10 * 9 + d - 1) * 10 + e;
    }
    return 1 + (n - 1) * 10 + 9;
  }

  method DecompressAmount(x: nat) returns (n: nat)
    ensures n == Decompressed(x)
  {
    if x == 0 {
      return 0;
    }
    var e, rest := (x - 1) % 10, (x - 1) / 10;
    if e < 9 {
      n := rest / 9 * 10 + (rest % 9 + 1);
    } else {
      n := rest + 1;
    }
    while e > 0
      invariant 0 <= e <= 9 && TimesTen(n, e) == Decompressed(x)
    {
      n, e := n * 10, e - 1;
    }
  }

  lemma PackedIs(m: nat, e: nat)
    requires m > 0 && e <= 9 && (e < 9 ==> m % 10 != 0)
    ensures UnpackedMantissa(Packed(m, e)) == m && (Packed(m, e) - 1) % 10 == e
  {
    if e < 9 {
      var z := m / 10 * 9 + (m % 10 - 1);
      assert (Packed(m, e) - 1) / 10 == z;
      assert z / 9 == m / 10 && z % 9 == m % 10 - 1;
    }
  }

  lemma UnpackedIs(x: nat)
    requires x > 0
    ensures var m, e := UnpackedMantissa(x), (x - 1) % 10;
            m > 0 && (e < 9 ==> m % 10 != 0) && Packed(m, e) == x
  {
    var z := (x - 1) / 10;
    if (x - 1) % 10 < 9 {
      var m := z / 9 * 10 + z % 9 + 1;
      assert m / 10 == z / 9 && m % 10 == z % 9 + 1;
    }
  }

  /** Amount compression maps the natural numbers one to one onto themselves. */
  lemma AmountRoundTrip(n: nat)
    ensures Decompressed(Compressed(n)) == n
    ensures Compressed(Decompressed(n)) == n
  {
    if n > 0 {
      MantissaIs(n, 0);
      PackedIs(Mantissa(n, 0), Exponent(n, 0));
      UnpackedIs(n);
      MantissaOf(UnpackedMantissa(n), (n - 1) % 10, 0);
    }
  }

  lemma {:induction false} MantissaSmall(n: nat, e: nat)
    requires n > 0 && e <= 9
    ensures Mantissa(n, e) <= n && (Exponent(n, e) > e ==> 10 * Mantissa(n, e) <= n)
    decreases n
  {
    if n % 10 == 0 && e < 9 {
      MantissaSmall(n / 10, e + 1);
    }
  }

  /** Nothing of an amount below 2^60 is lost in 64 bits. */
  lemma CompressedFits(n: nat)
    requires n < 0x1000_0000_0000_0000
    ensures Compressed(n) < 0x1_0000_0000_0000_0000
  {
    if n > 0 {
      MantissaIs(n, 0);
      MantissaSmall(n, 0);
      var m := Mantissa(n, 0);
      assert m / 10 * 90 <= 9 * m && m % 10 <= 9;
    }
  }
}
