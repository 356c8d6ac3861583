/** Coins in the database: which outputs are unspent, then the unspent outputs (src/coins.h, src/coins.cpp). */
module CoinsCodec {
  import opened Transactions
  import opened Coins
  import opened Numerals
  import opened VarInts
  import opened ScriptCodec

  /** Which outputs are unspent. */
  function Avail(vout: seq<TxOut>): (a: seq<bool>)
    ensures |a| == |vout| && forall i :: 0 <= i < |a| ==> a[i] == !vout[i].IsNull()
  {
    seq(|vout|, i requires 0 <= i < |vout| => !vout[i].IsNull())
  }

  function At(a: seq<bool>, i: nat): bool {
    i < |a| && a[i]
  }

  /** Bits from i on, the lowest first, as a number. */
  function ByteFrom(a: seq<bool>, i: nat, n: nat): (b: nat)
    decreases n
  {
    if n == 0 then 0 else (if At(a, i) then 1 else 0) + 2 * ByteFrom(a, i + 1, n - 1)
  }

  function BitsOf(b: nat, n: nat): (r: seq<bool>)
    ensures |r| == n
  {
    if n == 0 then [] else [b % 2 == 1] + BitsOf(b / 2, n - 1)
  }

  lemma {:induction false} BitsComeBack(a: seq<bool>, i: nat, n: nat)
    ensures forall j {:trigger At(a, j)} :: i <= j < i + n ==> BitsOf(ByteFrom(a, i, n), n)[j - i] == At(a, j)
    ensures ByteFrom(a, i, n) == 0 <==> forall j {:trigger At(a, j)} :: i <= j < i + n ==> !At(a, j)
    decreases n
  {
    if n > 0 {
      BitsComeBack(a, i + 1, n - 1);
      var b := ByteFrom(a, i, n);
      assert b / 2 == ByteFrom(a, i + 1, n - 1) && (b % 2 == 1 <==> At(a, i));
      forall j {:trigger At(a, j)} | i <= j < i + n
        ensures BitsOf(b, n)[j - i] == At(a, j)
      {
        assert j > i ==> BitsOf(b, n)[j - i] == BitsOf(b / 2, n - 1)[j - i - 1];
      }
    }
  }

  lemma {:induction false} ByteFits(a: seq<bool>, i: nat, n: nat)
    ensures ByteFrom(a, i, n) < Pow2(n)
    decreases n
  {
    if n > 0 {
      ByteFits(a, i + 1, n - 1);
    }
  }

  function Byte(a: seq<bool>, i: nat): byte {
    ByteFits(a, i, 8);
    PowerOfEight();
    ByteFrom(a, i, 8)
  }

  lemma PowerOfEight()
    ensures Pow2(8) == 256
  {
  }

  /** The bytes of the mask from output i on, up to the last one that is not zero. */
  function MaskFrom(a: seq<bool>, i: nat): (m: seq<byte>)
    decreases |a| - i
  {
    if i >= |a| then []
    else
      var rest := MaskFrom(a, i + 8);
      if rest == [] && Byte(a, i) == 0 then [] else [Byte(a, i)] + rest
  }

  function NonZero(m: seq<byte>): (n: nat)
    ensures n <= |m|
  {
    if m == [] then 0 else (if m[0] != 0 then 1 else 0) + NonZero(m[1..])
  }

  lemma NonZeroCons(b: byte, m: seq<byte>)
    ensures NonZero([b] + m) == (if b != 0 then 1 else 0) + NonZero(m)
  {
    assert ([b] + m)[1..] == m;
  }

  /** The bits that the reader of a mask collects while it waits for n bytes that are not zero. */
  function ReadMask(t: seq<byte>, n: nat): Parsed<seq<bool>> {
    if n == 0 then Parsed([], t)
    else if t == [] then Failed
    else
      var rest := ReadMask(t[1..], if t[0] != 0 then n - 1 else n);
      if rest.Failed? then Failed else Parsed(BitsOf(t[0], 8) + rest.value, rest.rest)
  }

  /** The bits are those of the availability from i on. */
  ghost predicate SameFrom(bits: seq<bool>, a: seq<bool>, i: nat) {
    forall j {:trigger At(a, j)} :: i <= j ==> At(bits, j - i) == At(a, j)
  }

  lemma PrependByte(a: seq<bool>, i: nat, more: seq<bool>)
    requires SameFrom(more, a, i + 8)
    ensures SameFrom(BitsOf(Byte(a, i), 8) + more, a, i)
  {
    BitsComeBack(a, i, 8);
    var bits := BitsOf(Byte(a, i), 8) + more;
    forall j {:trigger At(a, j)} | i <= j
      ensures At(bits, j - i) == At(a, j)
    {
      assert j >= i + 8 ==> At(bits, j - i) == At(more, j - (i + 8));
    }
  }

  lemma NoBits(a: seq<bool>, i: nat)
    requires MaskFrom(a, i) == []
    ensures SameFrom([], a, i)
  {
    MaskNeedsCount(a, i);
  }

  lemma ReadMaskStep(b: byte, m: seq<byte>, t: seq<byte>, more: seq<bool>)
    requires ReadMask(m + t, NonZero(m)) == Parsed(more, t) && NonZero([b] + m) > 0
    ensures ReadMask([b] + m + t, NonZero([b] + m)) == Parsed(BitsOf(b, 8) + more, t)
  {
    NonZeroCons(b, m);
    assert ([b] + m + t)[1..] == m + t;
  }

  /** The reader stops at the end of the mask and has found all bits. */
  lemma {:induction false} MaskComesBack(a: seq<bool>, i: nat, t: seq<byte>) returns (bits: seq<bool>)
    ensures ReadMask(MaskFrom(a, i) + t, NonZero(MaskFrom(a, i))) == Parsed(bits, t)
    ensures SameFrom(bits, a, i)
    decreases |a| - i
  {
    var m := MaskFrom(a, i);
    if m == [] {
      bits := [];
      NoBits(a, i);
      assert m + t == t;
    } else {
      var rest := MaskFrom(a, i + 8);
      var more := MaskComesBack(a, i + 8, t);
      bits := BitsOf(Byte(a, i), 8) + more;
      PrependByte(a, i, more);
      MaskNeedsCount(a, i);
      ReadMaskStep(Byte(a, i), rest, t, more);
    }
  }

  /** A mask that is not empty has a byte that is not zero; it is empty if no bit is set. */
  lemma {:induction false} MaskNeedsCount(a: seq<bool>, i: nat)
    ensures MaskFrom(a, i) != [] ==> NonZero(MaskFrom(a, i)) > 0
    ensures MaskFrom(a, i) == [] <==> forall j {:trigger At(a, j)} :: i <= j ==> !At(a, j)
    decreases |a| - i
  {
    if i < |a| {
      MaskNeedsCount(a, i + 8);
      NonZeroCons(Byte(a, i), MaskFrom(a, i + 8));
      BitsComeBack(a, i, 8);
    }
  }

  function OutAt(vout: seq<TxOut>, i: nat): TxOut {
    if i < |vout| then vout[i] else NULL_OUT
  }

  /** Spent outputs are null outputs without a script; all others can be stored. */
  predicate AllStorable(vout: seq<TxOut>, curve: Curve) {
    forall i :: 0 <= i < |vout| ==> if vout[i].IsNull() then vout[i] == NULL_OUT else Storable(vout[i], curve)
  }

  function WriteOutsFrom(vout: seq<TxOut>, i: nat, curve: Curve): seq<byte>
    requires AllStorable(vout, curve)
    decreases |vout| - i
  {
    if i >= |vout| then []
    else (if vout[i].IsNull() then [] else WriteOut(vout[i], curve)) + WriteOutsFrom(vout, i + 1, curve)
  }

  function ReadOutsFrom(a: seq<bool>, i: nat, t: seq<byte>, curve: Curve): Parsed<seq<TxOut>>
    decreases |a| - i
  {
    if i >= |a| then Parsed([], t)
    else if !a[i] then
      var rest := ReadOutsFrom(a, i + 1, t, curve);
      if rest.Failed? then Failed else Parsed([NULL_OUT] + rest.value, rest.rest)
    else
      var o := ReadOut(t, curve);
      if o.Failed? then Failed
      else
        var rest := ReadOutsFrom(a, i + 1, o.rest, curve);
        if rest.Failed? then Failed else Parsed([o.value] + rest.value, rest.rest)
  }

  ghost predicate OutsFrom(r: seq<TxOut>, vout: seq<TxOut>, i: nat) {
    forall j {:trigger OutAt(vout, j)} :: i <= j ==> OutAt(r, j - i) == OutAt(vout, j)
  }

  /** The availability found covers all unspent outputs. */
  ghost predicate Covers(a: seq<bool>, vout: seq<TxOut>) {
    forall j {:trigger At(a, j)} {:trigger OutAt(vout, j)} :: 0 <= j ==> At(a, j) == (j < |vout| && !vout[j].IsNull())
  }

  lemma {:induction false} NothingLeft(vout: seq<TxOut>, i: nat, curve: Curve)
    requires AllStorable(vout, curve) && forall j :: i <= j < |vout| ==> vout[j].IsNull()
    ensures WriteOutsFrom(vout, i, curve) == [] && OutsFrom([], vout, i)
    decreases |vout| - i
  {
    if i < |vout| {
      NothingLeft(vout, i + 1, curve);
    }
  }

  lemma OneOut(o: TxOut, r: seq<TxOut>, vout: seq<TxOut>, i: nat)
    requires OutsFrom(r, vout, i + 1) && o == OutAt(vout, i)
    ensures OutsFrom([o] + r, vout, i)
  {
    forall j {:trigger OutAt(vout, j)} | i <= j
      ensures OutAt([o] + r, j - i) == OutAt(vout, j)
    {
      assert j > i ==> OutAt([o] + r, j - i) == OutAt(r, j - (i + 1));
    }
  }

  /** All unspent outputs come back, each at its place. */
  lemma {:induction false} OutsComeBack(vout: seq<TxOut>, a: seq<bool>, i: nat, t: seq<byte>, curve: Curve)
    returns (r: seq<TxOut>)
    requires AllStorable(vout, curve) && Covers(a, vout)
    ensures ReadOutsFrom(a, i, WriteOutsFrom(vout, i, curve) + t, curve) == Parsed(r, t) && OutsFrom(r, vout, i)
    decreases |a| - i
  {
    if i >= |a| {
      r := [];
      forall j | i <= j < |vout|
        ensures vout[j].IsNull()
      {
        assert !At(a, j);
      }
      NothingLeft(vout, i, curve);
      assert [] + t == t;
    } else {
      var more := OutsComeBack(vout, a, i + 1, t, curve);
      var o := OutAt(vout, i);
      assert At(a, i) == a[i];
      r := [o] + more;
      OneOut(o, more, vout, i);
      OneOutRead(vout, a, i, t, more, curve);
    }
  }

  lemma OneOutRead(vout: seq<TxOut>, a: seq<bool>, i: nat, t: seq<byte>, more: seq<TxOut>, curve: Curve)
    requires AllStorable(vout, curve) && i < |a| && a[i] == (i < |vout| && !vout[i].IsNull())
    requires ReadOutsFrom(a, i + 1, WriteOutsFrom(vout, i + 1, curve) + t, curve) == Parsed(more, t)
    ensures ReadOutsFrom(a, i, WriteOutsFrom(vout, i, curve) + t, curve) == Parsed([OutAt(vout, i)] + more, t)
  {
    var rest := WriteOutsFrom(vout, i + 1, curve);
    if a[i] {
      Regroup(WriteOut(vout[i], curve), rest, t);
      OutRoundTrip(vout[i], rest + t, curve);
      ReadPresent(a, i, WriteOut(vout[i], curve) + (rest + t), vout[i], rest + t, more, t, curve);
    } else {
      assert WriteOutsFrom(vout, i, curve) == rest;
    }
  }

  lemma ReadPresent(a: seq<bool>, i: nat, x: seq<byte>, o: TxOut, y: seq<byte>, more: seq<TxOut>, t: seq<byte>,
                    curve: Curve)
    requires i < |a| && a[i] && ReadOut(x, curve) == Parsed(o, y) && ReadOutsFrom(a, i + 1, y, curve) == Parsed(more, t)
    ensures ReadOutsFrom(a, i, x, curve) == Parsed([o] + more, t)
  {
  }

  /** Without the null outputs at the end, a list is known by its outputs at all places. */
  lemma {:induction false} SameTrim(x: seq<TxOut>, y: seq<TxOut>)
    requires forall j {:trigger OutAt(x, j)} {:trigger OutAt(y, j)} :: 0 <= j ==> OutAt(x, j) == OutAt(y, j)
    ensures Trim(x) == Trim(y)
  {
    var p, q := Trim(x), Trim(y);
    assert |p| > 0 ==> OutAt(x, |p| - 1) == OutAt(y, |p| - 1);
    assert |q| > 0 ==> OutAt(x, |q| - 1) == OutAt(y, |q| - 1);
    forall j | 0 <= j < |p| && j < |q|
      ensures p[j] == q[j]
    {
      assert OutAt(x, j) == OutAt(y, j);
    }
  }

  function Flag(b: bool, n: nat): nat {
    if b then n else 0
  }

  /** The header of coins: four flags, and how many mask bytes that are not zero follow. */
  datatype Header = Header(coinBase: bool, coinStake: bool, first: bool, second: bool, count: nat) {
    predicate Possible() { first || second || count > 0 }
  }

  function Flags(h: Header): nat {
    Flag(h.coinBase, 1) + Flag(h.coinStake, 2) + Flag(h.first, 4) + Flag(h.second, 8)
  }

  /** The header code; one mask byte is not counted if neither of the first two outputs is there. */
  function Code(h: Header): nat
    requires h.Possible()
  {
    16 * (h.count - if h.first || h.second then 0 else 1) + Flags(h)
  }

  function HeaderOf(code: nat): Header {
    var first, second := code / 4 % 2 == 1, code / 8 % 2 == 1;
    Header(code % 2 == 1, code / 2 % 2 == 1, first, second, code / 16 + if first || second then 0 else 1)
  }

  lemma HighLow(high: nat, low: nat)
    requires low < 16
    ensures var n := 16 * high + low;
            n / 16 == high && n / 8 == 2 * high + low / 8 && n / 4 == 4 * high + low / 4 && n / 2 == 8 * high + low / 2
  {
  }

  lemma Parity(k: nat, x: nat)
    ensures (2 * k + x) % 2 == x % 2
  {
  }

  lemma FlagsMean(h: Header)
    ensures var low := Flags(h);
            && low < 16 && (low % 2 == 1 <==> h.coinBase) && (low / 2 % 2 == 1 <==> h.coinStake)
            && (low / 4 % 2 == 1 <==> h.first) && (low / 8 % 2 == 1 <==> h.second)
  {
  }

  lemma CodeMeans(h: Header)
    requires h.Possible()
    ensures HeaderOf(Code(h)) == h
  {
    var low := Flags(h);
    var high: nat := h.count - if h.first || h.second then 0 else 1;
    FlagsMean(h);
    HighLow(high, low);
    Parity(8 * high, low);
    Parity(4 * high, low / 2);
    Parity(2 * high, low / 4);
    Parity(high, low / 8);
  }

  function Mask(c: Coins): seq<byte> {
    MaskFrom(Avail(c.vout), 2)
  }

  /** Coins that have an output left. */
  lemma SomethingLeft(c: Coins)
    ensures c.IsPruned() <==> !At(Avail(c.vout), 0) && !At(Avail(c.vout), 1) && NonZero(Mask(c)) == 0
  {
    AllNullMeans(c.vout);
    var a := Avail(c.vout);
    MaskNeedsCount(a, 2);
    if !c.IsPruned() {
      var k :| 0 <= k < |c.vout| && !c.vout[k].IsNull();
      assert At(a, k);
    } else {
      forall j {:trigger At(a, j)} | 2 <= j
        ensures !At(a, j)
      {
      }
    }
  }

  function HeaderFor(c: Coins): (h: Header)
    requires !c.IsPruned()
    ensures h.Possible()
  {
    SomethingLeft(c);
    var a := Avail(c.vout);
    Header(c.coinBase, c.coinStake, At(a, 0), At(a, 1), NonZero(Mask(c)))
  }

  function SerializeCoins(c: Coins, curve: Curve): seq<byte>
    requires !c.IsPruned() && AllStorable(c.vout, curve)
  {
    SignedVarInt(c.version) + VarInt(Code(HeaderFor(c)), false) + Mask(c) + WriteOutsFrom(c.vout, 0, curve) +
      SignedVarInt(c.height)
  }

  function UnserializeOuts(t: seq<byte>, version: int, h: Header, bits: seq<bool>, curve: Curve): Parsed<Coins> {
    var outs := ReadOutsFrom([h.first, h.second] + bits, 0, t, curve);
    if outs.Failed? then Failed
    else
      var height := ReadSigned(outs.rest);
      if height.Failed? then Failed
      else Parsed(Coins(h.coinBase, h.coinStake, outs.value, height.value, version).Cleaned(), height.rest)
  }

  function UnserializeMask(t: seq<byte>, version: int, h: Header, curve: Curve): Parsed<Coins> {
    var bits := ReadMask(t, h.count);
    if bits.Failed? then Failed else UnserializeOuts(bits.rest, version, h, bits.value, curve)
  }

  function UnserializeCode(t: seq<byte>, version: int, curve: Curve): Parsed<Coins> {
    var code := ReadVarInt(t, Bits32);
    if code.Failed? then Failed else UnserializeMask(code.rest, version, HeaderOf(code.value), curve)
  }

  /** Reads until all mask bytes that are not zero have been seen, then the outputs that they announce. */
  function UnserializeCoins(t: seq<byte>, curve: Curve): Parsed<Coins> {
    var version := ReadSigned(t);
    if version.Failed? then Failed else UnserializeCode(version.rest, version.value, curve)
  }

  /** Coins whose numbers have the widths of the format. */
  ghost predicate FitsFormat(c: Coins, curve: Curve) {
    && !c.IsPruned() && AllStorable(c.vout, curve) && |c.vout| < 0x7FFF_FFF0
    && IsInt32(c.version) && IsInt32(c.height)
  }

  lemma {:induction false} MaskSize(a: seq<bool>, i: nat)
    ensures 8 * |MaskFrom(a, i)| <= if i < |a| then |a| - i + 7 else 0
    decreases |a| - i
  {
    if i < |a| {
      MaskSize(a, i + 8);
    }
  }

  lemma CodeFits(c: Coins, curve: Curve)
    requires FitsFormat(c, curve)
    ensures Code(HeaderFor(c)) < WIDTH32
  {
    MaskSize(Avail(c.vout), 2);
  }

  lemma TwoMore(a: seq<bool>, bits: seq<bool>, vout: seq<TxOut>)
    requires a == Avail(vout) && SameFrom(bits, a, 2)
    ensures Covers([At(a, 0), At(a, 1)] + bits, vout)
  {
    var all := [At(a, 0), At(a, 1)] + bits;
    forall j {:trigger At(all, j)} {:trigger OutAt(vout, j)} | 0 <= j
      ensures At(all, j) == (j < |vout| && !vout[j].IsNull())
    {
      assert At(a, j) == (j < |vout| && !vout[j].IsNull());
      assert j >= 2 ==> At(all, j) == At(bits, j - 2);
    }
  }

  lemma FiveParts(v: seq<byte>, c: seq<byte>, m: seq<byte>, o: seq<byte>, h: seq<byte>, t: seq<byte>)
    ensures v + c + m + o + h + t == v + (c + (m + (o + (h + t))))
  {
    Regroup(v + c + m + o, h, t);
    Regroup(v + c + m, o, h + t);
    Regroup(v + c, m, o + (h + t));
    Regroup(v, c, m + (o + (h + t)));
  }

  /** The coins as they are read again: negative numbers have lost all but seven bits. */
  function Back(c: Coins): Coins {
    c.(version := ReadBack(c.version), height := ReadBack(c.height)).Cleaned()
  }

  /** Coins that are not pruned come back without the null outputs at their end, and nothing behind them is touched,
      exactly if version and height are not negative. */
  lemma CoinsRoundTrip(c: Coins, t: seq<byte>, curve: Curve)
    requires FitsFormat(c, curve)
    ensures UnserializeCoins(SerializeCoins(c, curve) + t, curve) == Parsed(Back(c), t)
    ensures Back(c) == c.Cleaned() <==> c.version >= 0 && c.height >= 0
    ensures c.IsTrimmed() ==> c.Cleaned() == c
  {
    var rest := WriteOutsFrom(c.vout, 0, curve) + (SignedVarInt(c.height) + t);
    var tail := VarInt(Code(HeaderFor(c)), false) + (Mask(c) + rest);
    FiveParts(SignedVarInt(c.version), VarInt(Code(HeaderFor(c)), false), Mask(c), WriteOutsFrom(c.vout, 0, curve),
              SignedVarInt(c.height), t);
    SignedReadWritten(c.version, tail);
    CodeRead(c, t, curve);
    if c.IsTrimmed() {
      TrimmedIsFixed(c.vout);
    }
  }

  lemma CodeRead(c: Coins, t: seq<byte>, curve: Curve)
    requires FitsFormat(c, curve)
    ensures UnserializeCode(VarInt(Code(HeaderFor(c)), false) +
                            (Mask(c) + (WriteOutsFrom(c.vout, 0, curve) + (SignedVarInt(c.height) + t))),
                            ReadBack(c.version), curve) == Parsed(Back(c), t)
  {
    CodeFits(c, curve);
    ReadWritten(Code(HeaderFor(c)), Mask(c) + (WriteOutsFrom(c.vout, 0, curve) + (SignedVarInt(c.height) + t)), Bits32);
    CodeMeans(HeaderFor(c));
    MaskRead(c, t, curve);
  }

  lemma MaskRead(c: Coins, t: seq<byte>, curve: Curve)
    requires FitsFormat(c, curve)
    ensures UnserializeMask(Mask(c) + (WriteOutsFrom(c.vout, 0, curve) + (SignedVarInt(c.height) + t)),
                            ReadBack(c.version), HeaderFor(c), curve) == Parsed(Back(c), t)
  {
    var a, tail := Avail(c.vout), WriteOutsFrom(c.vout, 0, curve) + (SignedVarInt(c.height) + t);
    var bits := MaskComesBack(a, 2, tail);
    TwoMore(a, bits, c.vout);
    OutsRead(c, bits, t, curve);
  }

  lemma OutsRead(c: Coins, bits: seq<bool>, t: seq<byte>, curve: Curve)
    requires FitsFormat(c, curve) && Covers([HeaderFor(c).first, HeaderFor(c).second] + bits, c.vout)
    ensures UnserializeOuts(WriteOutsFrom(c.vout, 0, curve) + (SignedVarInt(c.height) + t), ReadBack(c.version),
                            HeaderFor(c), bits, curve) == Parsed(Back(c), t)
  {
    var a := [HeaderFor(c).first, HeaderFor(c).second] + bits;
    var r := OutsComeBack(c.vout, a, 0, SignedVarInt(c.height) + t, curve);
    SignedReadWritten(c.height, t);
    forall j {:trigger OutAt(r, j)} {:trigger OutAt(c.vout, j)} | 0 <= j
      ensures OutAt(r, j) == OutAt(c.vout, j)
    {
      assert OutAt(r, j - 0) == OutAt(c.vout, j);
    }
    SameTrim(r, c.vout);
  }
}
