/** Variable length integers, and what reading from a stream gives (src/serialize.h). */
module VarInts {
  import opened Transactions
  import opened Numerals

  /** A value and what is left of the stream, or failure at its end. */
  datatype Parsed<+T> = Failed | Parsed(value: T, rest: seq<byte>)

  lemma Regroup<T>(x: seq<T>, y: seq<T>, z: seq<T>)
    ensures x + (y + z) == x + y + z
  {
  }

  /** Base 128, highest digit first; all but the last byte have the high bit set and stand for one more. */
  function VarInt(n: nat, more: bool): (s: seq<byte>)
    ensures s != []
    decreases n
  {
    var b: byte := n % 128 + if more then 128 else 0;
    if n <= 127 then [b] else VarInt(n / 128 - 1, true) + [b]
  }

  /** The last byte first. */
  function Backwards(t: seq<byte>): seq<byte> {
    if t == [] then [] else [t[|t| - 1]] + Backwards(t[..|t| - 1])
  }

  lemma OneMoreDigit(v: nat, tmp: seq<byte>, b: byte)
    requires v > 127 && b == v % 128 + if tmp != [] then 128 else 0
    ensures VarInt(v, tmp != []) + Backwards(tmp) == VarInt(v / 128 - 1, true) + Backwards(tmp + [b])
  {
    assert (tmp + [b])[..|tmp|] == tmp;
  }

  /** A negative number is below 128, so that only its last seven bits are written. */
  function SignedVarInt(n: int): (s: seq<byte>)
    ensures s != []
  {
    if n < 0 then [n % 128] else VarInt(n, false)
  }

  /** Fills a buffer from the lowest digit on and writes it backwards. */
  method WriteVarInt(n: int) returns (s: seq<byte>)
    ensures s == SignedVarInt(n)
  {
    var tmp: seq<byte> := [];
    var v := n;
    while v > 127
      invariant if n < 0 then v == n && tmp == []
                  else v >= 0 && VarInt(n, false) == VarInt(v, tmp != []) + Backwards(tmp)
      decreases v
    {
      var b: byte := v % 128 + if tmp != [] then 128 else 0;
      OneMoreDigit(v, tmp, b);
      tmp, v := tmp + [b], v / 128 - 1;
    }
    s := [v % 128 + if tmp != [] then 128 else 0];
    var len := |tmp|;
    assert tmp[..len] == tmp;
    while len > 0
      invariant 0 <= len <= |tmp| && s + Backwards(tmp[..len]) == SignedVarInt(n)
    {
      len := len - 1;
      assert tmp[..len + 1][..len] == tmp[..len];
      s := s + [tmp[len]];
    }
  }

  /** The unsigned types that numbers are read into. */
  datatype Width = Bits32 | Bits64

  const WIDTH32: nat := 0x1_0000_0000
  const WIDTH64: nat := 0x1_0000_0000_0000_0000

  function Limit(w: Width): nat {
    match w
    case Bits32 => WIDTH32
    case Bits64 => WIDTH64
  }

  function Wrapped(n: nat, w: Width): (r: nat)
    ensures r < Limit(w) && (n < Limit(w) ==> r == n)
  {
    match w
    case Bits32 => n % WIDTH32
    case Bits64 => n % WIDTH64
  }

  /** One digit more. */
  function Shifted(n: nat, b: byte, w: Width): nat {
    Wrapped(n * 128 + b % 128, w)
  }

  /** Reads with n read so far, into an integer type with the given number of values. */
  function ReadFrom(s: seq<byte>, n: nat, w: Width): Parsed<nat>
  {
    if s == [] then Failed
    else
      var m := Shifted(n, s[0], w);
      if s[0] >= 128 then ReadFrom(s[1..], Wrapped(m + 1, w), w) else Parsed(m, s[1..])
  }

  function ReadVarInt(s: seq<byte>, w: Width): Parsed<nat>
  {
    ReadFrom(s, 0, w)
  }

  lemma ReadNext(s: seq<byte>, i: nat, n: nat, w: Width)
    requires i < |s|
    ensures var m := Shifted(n, s[i], w);
            ReadFrom(s[i..], n, w) == if s[i] >= 128 then ReadFrom(s[i + 1..], Wrapped(m + 1, w), w)
              else Parsed(m, s[i + 1..])
  {
    assert s[i..][1..] == s[i + 1..];
  }

  method ReadVarIntFrom(s: seq<byte>, w: Width) returns (r: Parsed<nat>)
    ensures r == ReadVarInt(s, w)
  {
    var n: nat := 0;
    var i := 0;
    while i < |s|
      invariant i <= |s| && ReadVarInt(s, w) == ReadFrom(s[i..], n, w)
    {
      ReadNext(s, i, n, w);
      n := Shifted(n, s[i], w);
      if s[i] < 128 {
        return Parsed(n, s[i + 1..]);
      }
      n, i := Wrapped(n + 1, w), i + 1;
    }
    return Failed;
  }

  lemma ReadByte(b: byte, t: seq<byte>, n: nat, w: Width)
    requires n * 128 + b % 128 + 1 < Limit(w) || (b < 128 && n * 128 + b < Limit(w))
    ensures var m := n * 128 + b % 128;
            ReadFrom([b] + t, n, w) == if b >= 128 then ReadFrom(t, m + 1, w) else Parsed(m, t)
  {
    assert ([b] + t)[1..] == t;
  }

  /** The last digit of a number that needs more than one. */
  lemma LastDigit(n: nat, more: bool, t: seq<byte>) returns (m: nat, b: byte)
    requires n > 127
    ensures m < n && (m + 1) * 128 + b % 128 == n && (b >= 128 <==> more)
    ensures VarInt(n, more) + t == VarInt(m, true) + ([b] + t)
  {
    m, b := n / 128 - 1, n % 128 + if more then 128 else 0;
    assert VarInt(n, more) == VarInt(m, true) + [b];
  }

  /** A number of one digit. */
  lemma OneDigit(n: nat, more: bool)
    requires n <= 127
    ensures VarInt(n, more) == [n + if more then 128 else 0]
  {
  }

  lemma ReadDigit(m: nat, b: byte, n: nat, t: seq<byte>, w: Width)
    requires n + 1 < Limit(w) && (m + 1) * 128 + b % 128 == n && b >= 128
    ensures ReadFrom([b] + t, m + 1, w) == ReadFrom(t, n + 1, w)
  {
    ReadByte(b, t, m + 1, w);
  }

  lemma ReadFirst(n: nat, t: seq<byte>, w: Width)
    requires n <= 127 && n + 1 < Limit(w)
    ensures ReadFrom(VarInt(n, true) + t, 0, w) == ReadFrom(t, n + 1, w)
  {
    OneDigit(n, true);
    ReadByte(n + 128, t, 0, w);
  }

  lemma ReadMore(m: nat, b: byte, n: nat, t: seq<byte>, w: Width)
    requires n + 1 < Limit(w) && (m + 1) * 128 + b % 128 == n && b >= 128
    requires VarInt(n, true) + t == VarInt(m, true) + ([b] + t)
    requires ReadFrom(VarInt(m, true) + ([b] + t), 0, w) == ReadFrom([b] + t, m + 1, w)
    ensures ReadFrom(VarInt(n, true) + t, 0, w) == ReadFrom(t, n + 1, w)
  {
    ReadDigit(m, b, n, t, w);
  }

  /** Reading the digits above the last one leads to the number before the last digit is added. */
  lemma {:induction false} ReadHigh(n: nat, t: seq<byte>, w: Width)
    requires n + 1 < Limit(w)
    ensures ReadFrom(VarInt(n, true) + t, 0, w) == ReadFrom(t, n + 1, w)
    decreases n
  {
    if n <= 127 {
      ReadFirst(n, t, w);
    } else {
      var m, b := LastDigit(n, true, t);
      ReadHigh(m, [b] + t, w);
      ReadMore(m, b, n, t, w);
    }
  }

  /** What is written is read back, and nothing behind it is touched. */
  lemma ReadWritten(n: nat, t: seq<byte>, w: Width)
    requires n < Limit(w)
    ensures ReadVarInt(VarInt(n, false) + t, w) == Parsed(n, t)
  {
    if n <= 127 {
      OneDigit(n, false);
      ReadByte(n, t, 0, w);
    } else {
      var m, b := LastDigit(n, false, t);
      ReadHigh(m, [b] + t, w);
      ReadByte(b, t, m + 1, w);
    }
  }

  const HALF32: nat := 0x8000_0000

  predicate IsInt32(n: int) { -0x8000_0000 <= n < 0x8000_0000 }

  /** A signed 32-bit integer as it is read: the bits of an unsigned one. */
  function Signed(n: nat): int {
    if n < HALF32 then n else n - WIDTH32
  }

  function ReadSigned(s: seq<byte>): Parsed<int> {
    var r := ReadVarInt(s, Bits32);
    if r.Failed? then Failed else Parsed(Signed(r.value), r.rest)
  }

  method ReadSignedFrom(s: seq<byte>) returns (r: Parsed<int>)
    ensures r == ReadSigned(s)
  {
    var u := ReadVarIntFrom(s, Bits32);
    r := if u.Failed? then Failed else Parsed(Signed(u.value), u.rest);
  }

  /** What is read of a signed number that was written. */
  function ReadBack(n: int): (r: nat)
    ensures r == n <==> n >= 0
  {
    if n < 0 then n % 128 else n
  }

  lemma SignedReadWritten(n: int, t: seq<byte>)
    requires IsInt32(n)
    ensures ReadSigned(SignedVarInt(n) + t) == Parsed(ReadBack(n), t)
  {
    if n < 0 {
      OneDigit(n % 128, false);
      assert VarInt(n % 128, false) == SignedVarInt(n);
      ReadWritten(n % 128, t, Bits32);
    } else {
      ReadWritten(n, t, Bits32);
    }
  }

  /** No number is written like the beginning of another. */
  lemma PrefixFree(m: nat, n: nat, s: seq<byte>, t: seq<byte>)
    requires m < WIDTH64 && n < WIDTH64 && VarInt(m, false) + s == VarInt(n, false) + t
    ensures m == n && s == t
  {
    ReadWritten(m, s, Bits64);
    ReadWritten(n, t, Bits64);
  }

  /** A buffer of ten bytes is enough for 64 bits, and one of five for 32. */
  lemma {:induction false} VarIntSize(n: nat, more: bool, bits: nat)
    requires bits >= 1 && n < Pow2(bits)
    ensures |VarInt(n, more)| <= (bits + 6) / 7
    decreases n
  {
    if n > 127 {
      assert Pow2(7) == 128;
      if bits <= 7 {
        PowerGrows(bits, 7);
      } else {
        SevenBits(bits);
        VarIntSize(n / 128 - 1, true, bits - 7);
      }
    }
  }

  lemma SevenBits(k: nat)
    requires k >= 7
    ensures Pow2(k) == 128 * Pow2(k - 7)
  {
    assert Pow2(k) == 2 * Pow2(k - 1);
    assert Pow2(k - 1) == 2 * Pow2(k - 2);
    assert Pow2(k - 2) == 2 * Pow2(k - 3);
    assert Pow2(k - 3) == 2 * Pow2(k - 4);
    assert Pow2(k - 4) == 2 * Pow2(k - 5);
    assert Pow2(k - 5) == 2 * Pow2(k - 6);
    assert Pow2(k - 6) == 2 * Pow2(k - 7);
  }

  lemma {:induction false} PowerGrows(i: nat, j: nat)
    requires i <= j
    ensures Pow2(i) <= Pow2(j)
    decreases j
  {
    if i < j {
      PowerGrows(i, j - 1);
    }
  }
}
