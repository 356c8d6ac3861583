/** Base 58 text for byte strings, with and without a checksum (src/base58.cpp). */
module Base58 {
  import opened Transactions
  import opened Numerals

  const ALPHABET: string := "123456789" + "ABCDEFGH" + "JKLMN" + "PQRSTUVWXYZ" + "abcdefghijk" + "mnopqrstuvwxyz"

  /** The character at a place of the alphabet, which leaves out 0, I, O and l. */
  function CharOf(d: int): char
    requires 0 <= d < 58
  {
    if d < 9 then '1' + (d as char)
    else if d < 17 then 'A' + ((d - 9) as char)
    else if d < 22 then 'J' + ((d - 17) as char)
    else if d < 33 then 'P' + ((d - 22) as char)
    else if d < 44 then 'a' + ((d - 33) as char)
    else 'm' + ((d - 44) as char)
  }

  /** A run of neighbouring characters. */
  function Run(first: char, n: nat): (r: string)
    requires first as int + n < 128
    ensures |r| == n && forall i :: 0 <= i < n ==> r[i] == first + (i as char)
  {
    if n == 0 then "" else Run(first, n - 1) + [first + ((n - 1) as char)]
  }

  lemma FirstRuns()
    ensures "123456789" == Run('1', 9) && "ABCDEFGH" == Run('A', 8) && "JKLMN" == Run('J', 5)
  {
  }

  lemma LongRuns()
    ensures "PQRSTUVWXYZ" == Run('P', 11) && "abcdefghijk" == Run('a', 11)
  {
  }

  lemma LastRun()
    ensures "mnopqrstuvwxyz" == Run('m', 14)
  {
  }

  lemma CharIsInAlphabet(d: int)
    requires 0 <= d < 58
    ensures |ALPHABET| == 58 && ALPHABET[d] == CharOf(d)
  {
    FirstRuns();
    LongRuns();
    LastRun();
  }

  /** The place of a character in the alphabet, or -1. */
  function DigitOf(c: char): (d: int)
    ensures -1 <= d < 58
    ensures d >= 0 ==> CharOf(d) == c
  {
    if '1' <= c <= '9' then c as int - '1' as int
    else if 'A' <= c <= 'H' then c as int - 'A' as int + 9
    else if 'J' <= c <= 'N' then c as int - 'J' as int + 17
    else if 'P' <= c <= 'Z' then c as int - 'P' as int + 22
    else if 'a' <= c <= 'k' then c as int - 'a' as int + 33
    else if 'm' <= c <= 'z' then c as int - 'm' as int + 44
    else -1
  }

  predicate IsSpace(c: char) {
    c == ' ' || ('\t' <= c <= '\r')
  }

  lemma DigitOfChar(d: int)
    requires 0 <= d < 58
    ensures DigitOf(CharOf(d)) == d && !IsSpace(CharOf(d)) && (CharOf(d) == '1' <==> d == 0)
  {
  }

  function Text(digits: seq<int>): (s: string)
    requires AreDigits(digits, 58)
    ensures |s| == |digits| && forall i :: 0 <= i < |s| ==> s[i] == CharOf(digits[i])
  {
    seq(|digits|, i requires 0 <= i < |digits| => CharOf(digits[i]))
  }

  function Repeat<T>(x: T, n: nat): (s: seq<T>)
    ensures |s| == n && forall i :: 0 <= i < n ==> s[i] == x
  {
    seq(n, _ => x)
  }

  /** A '1' for every leading zero byte, then the number that the bytes stand for in base 58. */
  function Encode(v: seq<byte>): string {
    ValBounds(v, 256);
    Repeat('1', Zeros(v)) + Text(Canonical(Val(v, 256), 58))
  }

  function LeadingSpaces(s: string): (n: nat)
    ensures n <= |s|
  {
    if s != [] && IsSpace(s[0]) then 1 + LeadingSpaces(s[1..]) else 0
  }

  function LeadingOnes(s: string): (n: nat)
    ensures n <= |s|
  {
    if s != [] && s[0] == '1' then 1 + LeadingOnes(s[1..]) else 0
  }

  /** The digits up to the first space; nothing if some character is not in the alphabet. */
  function WordDigits(s: string): (r: Option<seq<int>>)
    ensures r.Some? ==> AreDigits(r.value, 58) && |r.value| <= |s|
  {
    if s == [] || IsSpace(s[0]) then Some([])
    else if DigitOf(s[0]) < 0 then None
    else
      var rest := WordDigits(s[1..]);
      if rest.None? then None else Some([DigitOf(s[0])] + rest.value)
  }

  function AsBytes(s: seq<int>): (r: seq<byte>)
    requires AreDigits(s, 256)
    ensures r == s
  {
    s
  }

  /** Spaces around the text are allowed; each leading '1' stands for a zero byte. */
  function Decode(s: string): Option<seq<byte>> {
    var t := s[LeadingSpaces(s)..];
    var u := t[LeadingOnes(t)..];
    var d := WordDigits(u);
    if d.None? then None
    else
      var rest := u[|d.value|..];
      if LeadingSpaces(rest) != |rest| then None
      else
        ValBounds(d.value, 58);
        Some(AsBytes(Repeat(0, LeadingOnes(t)) + Canonical(Val(d.value, 58), 256)))
  }

  /** One step of the carry loop on a suffix: digit x, place value p. */
  lemma CarryStep(x: int, p: nat, v: int, v': int, carry: nat, mul: nat, digit: nat, base: nat)
    requires base > 0 && x >= 0 && v' + carry * p == v * mul + digit
    ensures carry + mul * x >= 0
    ensures var t := carry + mul * x;
            t % base * p + v' + t / base * (base * p) == (x * p + v) * mul + digit
  {
    MulPositive(mul, x);
    var t := carry + mul * x;
    DivSmaller(t, base);
    var q, r := t / base, t % base;
    assert q * (base * p) == q * base * p;
    assert (q * base + r) * p == q * base * p + r * p;
    assert t * p == carry * p + mul * x * p;
    assert (x * p + v) * mul == x * p * mul + v * mul;
    assert mul * x * p == x * p * mul;
  }

  /** The digits from i on have been multiplied, the others not yet. */
  ghost predicate Multiplied(now: seq<int>, was: seq<int>, i: nat, carry: nat, mul: nat, digit: nat, base: nat) {
    && |now| == |was| && i <= |was| && now[..i] == was[..i] && AreDigits(now, base)
    && Val(now[i..], base) + carry * Pow(base, |now| - i) == Val(was[i..], base) * mul + digit
  }

  lemma MultipliedStart(s: seq<int>, mul: nat, digit: nat, base: nat)
    requires AreDigits(s, base)
    ensures Multiplied(s, s, |s|, digit, mul, digit, base)
  {
    assert s[|s|..] == [];
  }

  lemma MultipliedStep(now: seq<int>, was: seq<int>, i: nat, carry: nat, mul: nat, digit: nat, base: nat)
    requires base >= 2 && i < |was| && Multiplied(now, was, i + 1, carry, mul, digit, base)
    ensures now[i] >= 0 && carry + mul * now[i] >= 0
    ensures var t := carry + mul * now[i]; Multiplied(now[i := t % base], was, i, t / base, mul, digit, base)
  {
    assert now[i] == now[..i + 1][i] == was[..i + 1][i] == was[i];
    CarryStep(was[i], Pow(base, |was| - i - 1), Val(was[i + 1..], base), Val(now[i + 1..], base), carry, mul, digit,
              base);
    var t := carry + mul * now[i];
    var next := now[i := t % base];
    assert next[i..][1..] == now[i + 1..] && was[i..][1..] == was[i + 1..];
    assert next[..i] == now[..i + 1][..i] && was[..i] == was[..i + 1][..i];
  }

  lemma MultipliedEnd(now: seq<int>, was: seq<int>, carry: nat, mul: nat, digit: nat, base: nat)
    requires base >= 2 && Multiplied(now, was, 0, carry, mul, digit, base)
    requires Val(was, base) * mul + digit < Pow(base, |was|)
    ensures carry == 0 && Val(now, base) == Val(was, base) * mul + digit
  {
    assert now[0..] == now && was[0..] == was;
    ValBounds(now, base);
    NoCarry(Val(now, base), carry, Pow(base, |now|), Val(was, base) * mul + digit);
  }

  /** Multiplies the number in the buffer and adds a digit; nothing is carried out of a buffer that is large enough. */
  method MulAdd(a: array<int>, mul: nat, digit: nat, base: nat)
    requires base >= 2 && AreDigits(a[..], base)
    requires Val(a[..], base) * mul + digit < Pow(base, a.Length)
    modifies a
    ensures AreDigits(a[..], base) && Val(a[..], base) == old(Val(a[..], base)) * mul + digit
  {
    var carry: nat := digit;
    var i := a.Length;
    ghost var s := a[..];
    MultipliedStart(s, mul, digit, base);
    while i > 0
      invariant 0 <= i <= a.Length && Multiplied(a[..], s, i, carry, mul, digit, base)
    {
      i := i - 1;
      MultipliedStep(a[..], s, i, carry, mul, digit, base);
      var t := carry + mul * a[i];
      ghost var next := a[..][i := t % base];
      a[i] := t % base;
      carry := t / base;
      assert a[..] == next;
    }
    MultipliedEnd(a[..], s, carry, mul, digit, base);
    assert carry == 0;
  }

  lemma NoCarry(v: nat, carry: nat, p: nat, x: int)
    requires v + carry * p == x < p
    ensures carry == 0 && v == x
  {
    BelowOne(carry, p);
  }

  /** Feeding one digit more keeps the number within the buffer. */
  lemma FeedFits(done: seq<int>, d: int, total: nat, from: nat, to: nat, size: nat)
    requires from > 0 && to > 0 && AreDigits(done, from) && 0 <= d < from && |done| < total
    requires Pow(from, total) <= Pow(to, size)
    ensures Val(done + [d], from) == Val(done, from) * from + d < Pow(to, size)
  {
    ValAppend(done, d, from);
    ValBounds(done + [d], from);
    PowExponent(from, |done| + 1, total);
  }

  /** 256^19 is below 58^26, so 138 digits are enough for 100 bytes. */
  lemma EncodeFits(n: nat)
    ensures Pow(256, n) <= Pow(58, n * 138 / 100 + 1)
  {
    PowersOf256();
    PowersOf58();
    Fits(256, n, 58, n * 138 / 100 + 1, 19, 26);
  }

  /** 58^86 is below 256^63, so 733 bytes are enough for 1000 digits. */
  lemma DecodeFits(n: nat)
    ensures Pow(58, n) <= Pow(256, n * 733 / 1000 + 1)
  {
    PowersOf256();
    PowersOf58();
    Fits(58, n, 256, n * 733 / 1000 + 1, 86, 63);
  }

  lemma Times(b: nat, i: nat, j: nat, x: nat, y: nat)
    requires Pow(b, i) == x && Pow(b, j) == y
    ensures Pow(b, i + j) == x * y
  {
    PowAdd(b, i, j);
  }

  lemma PowersOf58()
    ensures Pow(58, 26) == 0x13cd125f2165f8510dba46008014a08a4000000
    ensures Pow(58, 86) ==
              0xdcc3c23bd4063c59396bc24ecd785213930f4fbd930aabfd249c487969b307de37ba7858885f972e787bd42c0fd734ce713901364000000000000000000000
  {
    Times(58, 1, 1, 0x3a, 0x3a);
    Times(58, 2, 2, 0xd24, 0xd24);
    Times(58, 4, 4, 0xacad10, 0xacad10);
    Times(58, 8, 8, 0x7479027ea100, 0x7479027ea100);
    Times(58, 16, 8, 0x34fde3761da26b26e1410000, 0x7479027ea100);
    Times(58, 24, 2, 0x181c17963a5226bd66dc1c01d3a7e1000000, 0xd24);
    Times(58, 16, 16, 0x34fde3761da26b26e1410000, 0x34fde3761da26b26e1410000);
    Times(58, 32, 32, 0xaf820335d9b3d9cf58b911d87035677fb7f528100000000,
          0xaf820335d9b3d9cf58b911d87035677fb7f528100000000);
    Times(58, 64, 16, 0x7853026ae25f4ce0c69893e6f1f86f67aef4db69563516064adeb967a9d66f4fe64b09ec94e5010000000000000000,
          0x34fde3761da26b26e1410000);
    Times(58, 80, 4, 0x18e8317038f2b5f61710993d03fb1c9c11f234778836a23f5bffc1d53812d6ec10145f651109c39acc006827e7583a064100000000000000000000, 0xacad10);
    Times(58, 84, 2, 0x10ccd7af523091d57a2c1e9d967c382ae3509d0ce7933a71a0c4f7d13ae0e0a305c34edda4b56415cce5cf0138e91c10ed86511000000000000000000000, 0xd24);
  }

  lemma PowersOf256()
    ensures Pow(256, 19) == 0x100000000000000000000000000000000000000
    ensures Pow(256, 63) ==
              0x1000000000000000000000000000000000000000000000000000000000000000000000000000000000000000000000000000000000000000000000000000000
  {
    Times(256, 1, 1, 0x100, 0x100);
    Times(256, 2, 2, 0x10000, 0x10000);
    Times(256, 4, 4, 0x100000000, 0x100000000);
    Times(256, 8, 8, 0x10000000000000000, 0x10000000000000000);
    Times(256, 16, 2, 0x100000000000000000000000000000000, 0x10000);
    Times(256, 18, 1, 0x1000000000000000000000000000000000000, 0x100);
    Times(256, 16, 16, 0x100000000000000000000000000000000, 0x100000000000000000000000000000000);
    Times(256, 32, 16, 0x10000000000000000000000000000000000000000000000000000000000000000,
          0x100000000000000000000000000000000);
    Times(256, 48, 8, 0x1000000000000000000000000000000000000000000000000000000000000000000000000000000000000000000000000, 0x10000000000000000);
    Times(256, 56, 4, 0x10000000000000000000000000000000000000000000000000000000000000000000000000000000000000000000000000000000000000000, 0x100000000);
    Times(256, 60, 2, 0x1000000000000000000000000000000000000000000000000000000000000000000000000000000000000000000000000000000000000000000000000, 0x10000);
    Times(256, 62, 1, 0x10000000000000000000000000000000000000000000000000000000000000000000000000000000000000000000000000000000000000000000000000000, 0x100);
  }

  /** Counting the leading zeros one by one. */
  lemma {:induction false} ZerosAt(s: seq<int>, z: nat)
    requires z <= |s| && (forall i :: 0 <= i < z ==> s[i] == 0) && (z < |s| ==> s[z] != 0)
    ensures Zeros(s) == z && Stripped(s) == s[z..]
  {
    if z > 0 {
      ZerosAt(s[1..], z - 1);
    }
  }

  method SkipZeros(s: seq<int>) returns (z: nat)
    ensures z == Zeros(s) && Stripped(s) == s[z..]
  {
    z := 0;
    while z < |s| && s[z] == 0
      invariant z <= |s| && forall i :: 0 <= i < z ==> s[i] == 0
    {
      z := z + 1;
    }
    ZerosAt(s, z);
  }

  lemma FeedNext(digits: seq<int>, i: nat, from: nat, to: nat, size: nat)
    requires from > 0 && to > 0 && AreDigits(digits, from) && i < |digits| && Pow(from, |digits|) <= Pow(to, size)
    ensures Val(digits[..i + 1], from) == Val(digits[..i], from) * from + digits[i] < Pow(to, size)
  {
    assert digits[..i + 1] == digits[..i] + [digits[i]];
    FeedFits(digits[..i], digits[i], |digits|, from, to, size);
  }

  /** Writes the digits of a buffer, without leading zeros, as text. */
  method TextOf(a: array<int>) returns (str: string)
    requires AreDigits(a[..], 58)
    ensures Val(a[..], 58) >= 0 && str == Text(Canonical(Val(a[..], 58), 58))
  {
    var z := SkipZeros(a[..]);
    StrippedVal(a[..], 58);
    ghost var digits := Stripped(a[..]);
    ValBounds(digits, 58);
    CanonicalIs(digits, 58);
    str := "";
    var it := z;
    while it < a.Length
      invariant z <= it <= a.Length && |str| == it - z
      invariant forall k :: 0 <= k < |str| ==> str[k] == CharOf(digits[k])
    {
      CharIsInAlphabet(a[it]);
      str := str + [ALPHABET[a[it]]];
      it := it + 1;
    }
    assert str == Text(digits);
  }

  method EncodeBase58(v: seq<byte>) returns (str: string)
    ensures str == Encode(v)
  {
    var zeroes := SkipZeros(v);
    var rest := v[zeroes..];
    var b58 := new int[|rest| * 138 / 100 + 1](_ => 0);
    EncodeFits(|rest|);
    ValZeros(b58[..], 58);
    var i := 0;
    while i < |rest|
      invariant 0 <= i <= |rest| && AreDigits(b58[..], 58) && Val(b58[..], 58) == Val(rest[..i], 256)
    {
      FeedNext(rest, i, 256, 58, b58.Length);
      MulAdd(b58, 256, rest[i], 58);
      i := i + 1;
    }
    assert rest[..i] == rest;
    StrippedVal(v, 256);
    var text := TextOf(b58);
    str := Repeat('1', zeroes) + text;
  }

  method SkipSpaces(s: string) returns (n: nat)
    ensures n == LeadingSpaces(s)
  {
    n := 0;
    while n < |s| && IsSpace(s[n])
      invariant n <= |s| && LeadingSpaces(s) == n + LeadingSpaces(s[n..])
    {
      assert s[n..][1..] == s[n + 1..];
      n := n + 1;
    }
  }

  method SkipOnes(s: string) returns (n: nat)
    ensures n == LeadingOnes(s)
  {
    n := 0;
    while n < |s| && s[n] == '1'
      invariant n <= |s| && LeadingOnes(s) == n + LeadingOnes(s[n..])
    {
      assert s[n..][1..] == s[n + 1..];
      n := n + 1;
    }
  }

  function Prepend(done: seq<int>, r: Option<seq<int>>): Option<seq<int>> {
    if r.None? then None else Some(done + r.value)
  }

  lemma PrependTwice(x: seq<int>, d: int, r: Option<seq<int>>)
    ensures Prepend(x, Prepend([d], r)) == Prepend(x + [d], r)
  {
    if r.Some? {
      assert x + ([d] + r.value) == x + [d] + r.value;
    }
  }

  lemma WordNext(s: string, k: nat, done: seq<int>)
    requires k < |s| && !IsSpace(s[k]) && WordDigits(s) == Prepend(done, WordDigits(s[k..]))
    ensures WordDigits(s) == if DigitOf(s[k]) < 0 then None else Prepend(done + [DigitOf(s[k])], WordDigits(s[k + 1..]))
  {
    WordCons(s[k..]);
    assert s[k..][1..] == s[k + 1..];
    PrependTwice(done, DigitOf(s[k]), WordDigits(s[k + 1..]));
  }

  lemma WordCons(s: string)
    requires s != [] && !IsSpace(s[0])
    ensures WordDigits(s) == if DigitOf(s[0]) < 0 then None else Prepend([DigitOf(s[0])], WordDigits(s[1..]))
  {
  }

  /** The first n characters are digits and the rest of the word follows. */
  ghost predicate ReadSoFar(s: string, n: nat, done: seq<int>) {
    n <= |s| && |done| == n && AreDigits(done, 58) && WordDigits(s) == Prepend(done, WordDigits(s[n..]))
  }

  lemma ReadNothing(s: string)
    ensures ReadSoFar(s, 0, [])
  {
    assert s[0..] == s;
    var r := WordDigits(s);
    if r.Some? {
      assert [] + r.value == r.value;
    }
  }

  lemma ReadOneMore(s: string, n: nat, done: seq<int>)
    requires n < |s| && !IsSpace(s[n]) && ReadSoFar(s, n, done)
    ensures if DigitOf(s[n]) < 0 then WordDigits(s) == None else ReadSoFar(s, n + 1, done + [DigitOf(s[n])])
  {
    WordNext(s, n, done);
  }

  lemma ReadEnd(s: string, n: nat, done: seq<int>)
    requires ReadSoFar(s, n, done) && (n < |s| ==> IsSpace(s[n]))
    ensures WordDigits(s) == Some(done)
  {
    assert done + [] == done;
  }

  method FeedDigit(b256: array<int>, ghost done: seq<int>, d: nat, ghost total: nat)
    requires AreDigits(b256[..], 256) && Val(b256[..], 256) == Val(done, 58)
    requires AreDigits(done, 58) && d < 58 && |done| < total && Pow(58, total) <= Pow(256, b256.Length)
    modifies b256
    ensures AreDigits(b256[..], 256) && Val(b256[..], 256) == Val(done + [d], 58)
  {
    FeedFits(done, d, total, 58, 256, b256.Length);
    MulAdd(b256, 58, d, 256);
  }

  /** Reads the word into a buffer of base 256 digits. */
  method ReadWord(s: string) returns (ok: bool, n: nat, b256: array<int>)
    ensures ok <==> WordDigits(s).Some?
    ensures ok ==>
              n == |WordDigits(s).value| && AreDigits(b256[..], 256) &&
                Val(b256[..], 256) == Val(WordDigits(s).value, 58)
  {
    b256 := new int[|s| * 733 / 1000 + 1](_ => 0);
    DecodeFits(|s|);
    ValZeros(b256[..], 256);
    n := 0;
    ghost var done: seq<int> := [];
    ReadNothing(s);
    while n < |s| && !IsSpace(s[n])
      invariant ReadSoFar(s, n, done) && AreDigits(b256[..], 256) && Val(b256[..], 256) == Val(done, 58)
    {
      ReadOneMore(s, n, done);
      var d := DigitOf(s[n]);
      if d < 0 {
        return false, n, b256;
      }
      FeedDigit(b256, done, d, |s|);
      n, done := n + 1, done + [d];
    }
    ReadEnd(s, n, done);
    ok := true;
  }

  /** Decodes a text without zero characters. */
  method DecodeBase58(psz: string) returns (vch: Option<seq<byte>>)
    ensures vch == Decode(psz)
  {
    var spaces := SkipSpaces(psz);
    var t := psz[spaces..];
    var zeroes := SkipOnes(t);
    var u := t[zeroes..];
    var ok, n, b256 := ReadWord(u);
    if !ok {
      return None;
    }
    var trailing := SkipSpaces(u[n..]);
    if trailing != |u[n..]| {
      return None;
    }
    var it := SkipZeros(b256[..]);
    StrippedVal(b256[..], 256);
    ghost var digits := Stripped(b256[..]);
    ValBounds(digits, 256);
    CanonicalIs(digits, 256);
    vch := Some(AsBytes(Repeat(0, zeroes) + b256[it..]));
  }
}
