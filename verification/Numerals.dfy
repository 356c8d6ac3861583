/** Positional numerals, most significant digit first, and how many digits a number needs. */
module Numerals {

  function Pow(b: nat, k: nat): (p: nat)
    ensures b > 0 ==> p > 0
  {
    if k == 0 then 1 else
      var p := Pow(b, k - 1);
      MulPositive(b, p);
      b * p
  }

  function Pow2(k: nat): (p: nat)
    ensures p > 0
  {
    if k == 0 then 1 else 2 * Pow2(k - 1)
  }

  lemma MulPositive(a: nat, b: nat)
    ensures a * b >= 0 && (a > 0 && b > 0 ==> a * b > 0)
  {
  }

  lemma MulMono(a: nat, b: nat, c: nat)
    requires a <= b
    ensures a * c <= b * c && c * a <= c * b
  {
  }

  lemma MulStrict(a: nat, b: nat, c: nat)
    requires a < b && c > 0
    ensures a * c < b * c && c * a < c * b
  {
  }

  lemma {:induction false} PowAdd(b: nat, i: nat, j: nat)
    ensures Pow(b, i + j) == Pow(b, i) * Pow(b, j)
  {
    if i > 0 {
      PowAdd(b, i - 1, j);
      var p, q := Pow(b, i - 1), Pow(b, j);
      assert (b * p) * q == b * (p * q);
    }
  }

  lemma {:induction false} PowMul(b: nat, i: nat, j: nat)
    ensures Pow(b, i * j) == Pow(Pow(b, i), j)
  {
    if j > 0 {
      PowMul(b, i, j - 1);
      assert i * j == i + i * (j - 1);
      MulPositive(i, j - 1);
      PowAdd(b, i, i * (j - 1));
    } else {
      assert i * j == 0;
    }
  }

  /** Powers grow with the base. */
  lemma {:induction false} PowBase(a: nat, b: nat, k: nat)
    requires a <= b
    ensures Pow(a, k) <= Pow(b, k)
  {
    if k > 0 {
      PowBase(a, b, k - 1);
      MulMono(a, b, Pow(a, k - 1));
      MulMono(Pow(a, k - 1), Pow(b, k - 1), b);
    }
  }

  lemma {:induction false} PowBaseStrict(a: nat, b: nat, k: nat)
    requires a < b && k > 0
    ensures Pow(a, k) < Pow(b, k)
  {
    if k > 1 {
      PowBaseStrict(a, b, k - 1);
      MulMono(a, b, Pow(a, k - 1));
      MulStrict(Pow(a, k - 1), Pow(b, k - 1), b);
    }
  }

  /** Powers grow with the exponent. */
  lemma PowExponent(b: nat, i: nat, j: nat)
    requires b > 0 && i <= j
    ensures Pow(b, i) <= Pow(b, j)
  {
    PowAdd(b, i, j - i);
    MulMono(1, Pow(b, j - i), Pow(b, i));
  }

  predicate AreDigits(s: seq<int>, base: nat) {
    forall i :: 0 <= i < |s| ==> 0 <= s[i] < base
  }

  /** The number that the digits stand for. */
  function Val(s: seq<int>, base: nat): int {
    if s == [] then 0 else s[0] * Pow(base, |s| - 1) + Val(s[1..], base)
  }

  /** One more digit at the end. */
  lemma {:induction false} ValAppend(s: seq<int>, d: int, base: nat)
    ensures Val(s + [d], base) == Val(s, base) * base + d
  {
    if s == [] {
      assert [d][1..] == [];
    } else {
      ValAppend(s[1..], d, base);
      assert (s + [d])[1..] == s[1..] + [d];
      var p := Pow(base, |s| - 1);
      assert s[0] * (base * p) == (s[0] * p) * base;
      Distribute(s[0] * p, Val(s[1..], base), base);
    }
  }

  lemma Distribute(a: int, b: int, c: int)
    ensures (a + b) * c == a * c + b * c
  {
  }

  lemma {:induction false} ValBounds(s: seq<int>, base: nat)
    requires AreDigits(s, base)
    ensures 0 <= Val(s, base) < Pow(base, |s|)
  {
    if s != [] {
      ValBounds(s[1..], base);
      var p := Pow(base, |s| - 1);
      MulMono(s[0], base - 1, p);
      MulPositive(s[0], p);
      assert base * p == (base - 1) * p + p;
    }
  }

  lemma {:induction false} ValZeros(s: seq<int>, base: nat)
    requires forall i :: 0 <= i < |s| ==> s[i] == 0
    ensures Val(s, base) == 0
  {
    if s != [] {
      ValZeros(s[1..], base);
    }
  }

  /** Leading zeros. */
  function Stripped(s: seq<int>): seq<int> {
    if s != [] && s[0] == 0 then Stripped(s[1..]) else s
  }

  function Zeros(s: seq<int>): (z: nat)
    ensures z <= |s|
  {
    if s != [] && s[0] == 0 then 1 + Zeros(s[1..]) else 0
  }

  lemma {:induction false} StrippedVal(s: seq<int>, base: nat)
    ensures Val(Stripped(s), base) == Val(s, base)
    ensures |s| == Zeros(s) + |Stripped(s)| && Stripped(s) == s[Zeros(s)..]
    ensures forall i :: 0 <= i < Zeros(s) ==> s[i] == 0
    ensures Stripped(s) != [] ==> Stripped(s)[0] != 0
  {
    if s != [] && s[0] == 0 {
      StrippedVal(s[1..], base);
    }
  }

  /** The digits of a number without leading zeros. */
  function Canonical(n: nat, base: nat): (s: seq<int>)
    requires base >= 2
    ensures AreDigits(s, base)
    decreases n
  {
    if n == 0 then [] else
      DivSmaller(n, base);
      Canonical(n / base, base) + [n % base]
  }

  lemma DivSmaller(n: nat, base: nat)
    requires base > 0
    ensures base >= 2 && n > 0 ==> n / base < n
    ensures n / base * base + n % base == n
  {
  }

  lemma {:induction false} CanonicalVal(n: nat, base: nat)
    requires base >= 2
    ensures Val(Canonical(n, base), base) == n
    ensures n > 0 ==> Canonical(n, base) != [] && Canonical(n, base)[0] != 0
    decreases n
  {
    if n > 0 {
      DivSmaller(n, base);
      CanonicalVal(n / base, base);
      ValAppend(Canonical(n / base, base), n % base, base);
    }
  }

  lemma BelowOne(x: int, base: nat)
    requires x * base < base
    ensures x <= 0
  {
    if x >= 1 {
      MulMono(1, x, base);
    }
  }

  lemma DivUnique(q: nat, base: nat, d: nat)
    requires d < base
    ensures (q * base + d) / base == q && (q * base + d) % base == d
  {
    var n := q * base + d;
    assert n / base * base + n % base == n;
    var x := n / base - q;
    assert x * base == n / base * base - q * base;
    assert (-x) * base == q * base - n / base * base;
    BelowOne(x, base);
    BelowOne(-x, base);
  }

  /** Digits without a leading zero are the digits of their value. */
  lemma {:induction false} CanonicalIs(s: seq<int>, base: nat)
    requires base >= 2 && AreDigits(s, base) && (s != [] ==> s[0] != 0)
    ensures Val(s, base) >= 0 && Canonical(Val(s, base), base) == s
    decreases |s|
  {
    if s != [] {
      var n := |s| - 1;
      var head := s[..n];
      assert s == head + [s[n]];
      ValAppend(head, s[n], base);
      CanonicalIs(head, base);
      var q := Val(head, base);
      DivUnique(q, base, s[n]);
      if n > 0 {
        LeadingCounts(head, base);
      }
      MulPositive(q, base);
      assert Val(s, base) > 0;
    }
  }

  lemma LeadingCounts(s: seq<int>, base: nat)
    requires base >= 2 && AreDigits(s, base) && s != [] && s[0] != 0
    ensures Val(s, base) > 0
  {
    ValBounds(s[1..], base);
    MulPositive(s[0], Pow(base, |s| - 1));
  }

  /** A number below b1^i fits in j digits of base b2, if powers agree that b1^u <= b2^v and j is at least v/u of i. */
  lemma Fits(b1: nat, i: nat, b2: nat, j: nat, u: nat, v: nat)
    requires b1 > 0 && b2 > 0 && u > 0 && Pow(b1, u) <= Pow(b2, v) && v * i <= u * j
    ensures Pow(b1, i) <= Pow(b2, j)
  {
    FitsRaised(b1, i, b2, j, u, v);
    if Pow(b1, i) > Pow(b2, j) {
      PowBaseStrict(Pow(b2, j), Pow(b1, i), u);
    }
  }

  lemma FitsRaised(b1: nat, i: nat, b2: nat, j: nat, u: nat, v: nat)
    requires b1 > 0 && b2 > 0 && Pow(b1, u) <= Pow(b2, v) && v * i <= u * j
    ensures Pow(Pow(b1, i), u) <= Pow(Pow(b2, j), u)
  {
    MulPositive(v, i);
    MulPositive(u, j);
    PowExponent(b2, v * i, u * j);
    PowBase(Pow(b1, u), Pow(b2, v), i);
    Raised(b1, i, u);
    Raised(b2, j, u);
    PowMul(b2, v, i);
  }

  /** Exponents may be taken in either order. */
  lemma Raised(b: nat, i: nat, u: nat)
    ensures Pow(Pow(b, i), u) == Pow(Pow(b, u), i)
    ensures u * i >= 0 && Pow(Pow(b, i), u) == Pow(b, u * i)
  {
    PowMul(b, i, u);
    PowMul(b, u, i);
    MulPositive(u, i);
    assert i * u == u * i;
  }
}
