/** The loops that write coins to a stream and read them from one (src/coins.cpp, src/coins.h), and undo records
    (src/undo.h). */
module CoinsStream {
  import opened Transactions
  import opened Coins
  import opened Numerals
  import opened VarInts
  import opened Compressor
  import opened ScriptCodec
  import opened CoinsCodec

  lemma {:induction false} ByteExtend(a: seq<bool>, i: nat, n: nat)
    ensures ByteFrom(a, i, n + 1) == ByteFrom(a, i, n) + if At(a, i + n) then Pow2(n) else 0
    decreases n
  {
    if n > 0 {
      ByteExtend(a, i + 1, n - 1);
    }
  }

  lemma {:induction false} ByteBeyond(a: seq<bool>, i: nat, n: nat, k: nat)
    requires n <= k && (n == k || |a| <= i + n)
    ensures ByteFrom(a, i, k) == ByteFrom(a, i, n)
    decreases k
  {
    if n < k {
      ByteBeyond(a, i, n, k - 1);
      ByteExtend(a, i, k - 1);
    }
  }

  /** The availability of up to eight outputs as a byte; whether any is there. */
  method AvailByte(vout: seq<TxOut>, from: nat) returns (ch: nat, zero: bool)
    ensures ch == Byte(Avail(vout), from) && (zero <==> ch == 0)
  {
    ghost var a := Avail(vout);
    ch, zero := 0, true;
    var i, bit: nat := 0, 1;
    while i < 8 && from + i < |vout|
      invariant 0 <= i <= 8 && bit == Pow2(i)
      invariant ch == ByteFrom(a, from, i) && (zero <==> ch == 0)
    {
      ByteExtend(a, from, i);
      assert At(a, from + i) == !vout[from + i].IsNull();
      if !vout[from + i].IsNull() {
        ch, zero := ch + bit, false;
      }
      i, bit := i + 1, 2 * bit;
    }
    ByteBeyond(a, from, i, 8);
  }

  lemma MaskStep(a: seq<bool>, i: nat)
    requires i < |a|
    ensures var m, rest := MaskFrom(a, i), MaskFrom(a, i + 8);
            && NonZero(m) == (if Byte(a, i) != 0 then 1 else 0) + NonZero(rest)
            && |m| == if rest == [] && Byte(a, i) == 0 then 0 else 1 + |rest|
  {
    NonZeroCons(Byte(a, i), MaskFrom(a, i + 8));
  }

  /** The mask bytes counted so far, and those that follow from output i on. */
  ghost predicate Counted(a: seq<bool>, b: nat, i: nat, bytes: nat, nonzero: nat) {
    var rest := MaskFrom(a, i);
    && |MaskFrom(a, 2)| == (if rest == [] then bytes else b + |rest|)
    && NonZero(MaskFrom(a, 2)) == nonzero + NonZero(rest)
  }

  lemma CountNext(a: seq<bool>, b: nat, i: nat, bytes: nat, nonzero: nat)
    requires i < |a| && Counted(a, b, i, bytes, nonzero)
    ensures if Byte(a, i) != 0 then Counted(a, b + 1, i + 8, b + 1, nonzero + 1)
            else Counted(a, b + 1, i + 8, bytes, nonzero)
  {
    MaskStep(a, i);
  }

  lemma CountEnds(a: seq<bool>, b: nat, i: nat, bytes: nat, nonzero: nat)
    requires |a| <= i && Counted(a, b, i, bytes, nonzero)
    ensures bytes == |MaskFrom(a, 2)| && nonzero == NonZero(MaskFrom(a, 2))
  {
  }

  /** One byte more. */
  method CountByte(vout: seq<TxOut>, b: nat, i: nat, bytes: nat, nonzero: nat) returns (bytes': nat, nonzero': nat)
    requires i < |vout| && Counted(Avail(vout), b, i, bytes, nonzero)
    ensures Counted(Avail(vout), b + 1, i + 8, bytes', nonzero')
  {
    var ch, zero := AvailByte(vout, i);
    CountNext(Avail(vout), b, i, bytes, nonzero);
    if zero {
      return bytes, nonzero;
    }
    return b + 1, nonzero + 1;
  }

  /** The number of mask bytes and of those that are not zero. */
  method CalcMaskSize(vout: seq<TxOut>) returns (bytes: nat, nonzero: nat)
    ensures bytes == |MaskFrom(Avail(vout), 2)| && nonzero == NonZero(MaskFrom(Avail(vout), 2))
  {
    bytes, nonzero := 0, 0;
    var b: nat := 0;
    CountStarts(Avail(vout));
    var i: nat := 2;
    while i < |vout|
      invariant i == 2 + b * 8 && Counted(Avail(vout), b, i, bytes, nonzero)
    {
      bytes, nonzero := CountByte(vout, b, i, bytes, nonzero);
      b, i := b + 1, i + 8;
    }
    CountEnds(Avail(vout), b, i, bytes, nonzero);
  }

  lemma CountStarts(a: seq<bool>)
    ensures Counted(a, 0, 2, 0, 0)
  {
  }

  lemma {:induction false} MaskAt(a: seq<bool>, i: nat, k: nat)
    requires k < |MaskFrom(a, i)|
    ensures MaskFrom(a, i)[k] == Byte(a, i + k * 8)
    decreases k
  {
    if k > 0 {
      MaskAt(a, i + 8, k - 1);
    }
  }

  lemma MaskGrows(a: seq<bool>, m: seq<byte>, b: nat)
    requires m == MaskFrom(a, 2) && b < |m|
    ensures m[..b] + [Byte(a, 2 + b * 8)] == m[..b + 1]
  {
    MaskAt(a, 2, b);
  }

  method WriteMask(vout: seq<TxOut>, bytes: nat) returns (s: seq<byte>)
    requires bytes == |MaskFrom(Avail(vout), 2)|
    ensures s == MaskFrom(Avail(vout), 2)
  {
    ghost var m := MaskFrom(Avail(vout), 2);
    s := [];
    var b := 0;
    while b < bytes
      invariant 0 <= b <= bytes && s == m[..b]
    {
      var ch, zero := AvailByte(vout, 2 + b * 8);
      MaskGrows(Avail(vout), m, b);
      s, b := s + [ch], b + 1;
    }
  }

  method WriteOneOut(o: TxOut, curve: Curve) returns (s: seq<byte>)
    requires o.value >= 0
    ensures s == WriteOut(o, curve)
  {
    var x := CompressAmount(o.value);
    var amount := WriteVarInt(x);
    s := amount + WriteScript(o.script, curve);
  }

  lemma OutsStep(vout: seq<TxOut>, i: nat, s: seq<byte>, curve: Curve)
    requires AllStorable(vout, curve) && i < |vout|
    ensures s + WriteOutsFrom(vout, i, curve) ==
            (if vout[i].IsNull() then s else s + WriteOut(vout[i], curve)) + WriteOutsFrom(vout, i + 1, curve)
  {
    if !vout[i].IsNull() {
      Regroup(s, WriteOut(vout[i], curve), WriteOutsFrom(vout, i + 1, curve));
    }
  }

  method WriteOuts(vout: seq<TxOut>, curve: Curve) returns (s: seq<byte>)
    requires AllStorable(vout, curve)
    ensures s == WriteOutsFrom(vout, 0, curve)
  {
    s := [];
    var i := 0;
    while i < |vout|
      invariant 0 <= i <= |vout| && s + WriteOutsFrom(vout, i, curve) == WriteOutsFrom(vout, 0, curve)
    {
      OutsStep(vout, i, s, curve);
      if !vout[i].IsNull() {
        var o := WriteOneOut(vout[i], curve);
        s := s + o;
      }
      i := i + 1;
    }
  }

  /** Writes coins that have an output left; the header code is never negative. */
  method Serialize(c: Coins, curve: Curve) returns (s: seq<byte>)
    requires !c.IsPruned() && AllStorable(c.vout, curve)
    ensures s == SerializeCoins(c, curve)
  {
    var bytes, nonzero := CalcMaskSize(c.vout);
    SomethingLeft(c);
    var first := |c.vout| > 0 && !c.vout[0].IsNull();
    var second := |c.vout| > 1 && !c.vout[1].IsNull();
    assert first || second || nonzero > 0;
    var version := WriteVarInt(c.version);
    var code := WriteVarInt(Code(Header(c.coinBase, c.coinStake, first, second, nonzero)));
    var mask := WriteMask(c.vout, bytes);
    var outs := WriteOuts(c.vout, curve);
    var height := WriteVarInt(c.height);
    s := version + code + mask + outs + height;
  }

  function Then<T>(done: seq<T>, r: Parsed<seq<T>>): Parsed<seq<T>> {
    if r.Failed? then Failed else Parsed(done + r.value, r.rest)
  }

  lemma ThenThen<T>(x: seq<T>, y: seq<T>, r: Parsed<seq<T>>)
    ensures Then(x, Then(y, r)) == Then(x + y, r)
  {
    if r.Parsed? {
      assert x + (y + r.value) == x + y + r.value;
    }
  }

  lemma {:induction false} BitAt(b: nat, n: nat, p: nat)
    requires p < n
    ensures BitsOf(b, n)[p] == (b / Pow2(p) % 2 == 1)
    decreases p
  {
    if p > 0 {
      BitAt(b / 2, n - 1, p - 1);
      DivTwice(b, Pow2(p - 1));
    }
  }

  lemma DivTwice(b: nat, p: nat)
    requires p > 0
    ensures b / 2 / p == b / (2 * p)
  {
    var q, r := b / 2 / p, b / 2 % p;
    assert b / 2 == q * p + r;
    var low := 2 * r + b % 2;
    assert b == q * (2 * p) + low && 0 <= low < 2 * p;
    DivUnique(q, 2 * p, low);
  }

  /** The eight bits of a byte. */
  method ReadBits(b: byte) returns (bits: seq<bool>)
    ensures bits == BitsOf(b, 8)
  {
    bits := [];
    var p, place := 0, 1;
    while p < 8
      invariant 0 <= p <= 8 && |bits| == p && place == Pow2(p)
      invariant bits == BitsOf(b, 8)[..p]
    {
      BitAt(b, 8, p);
      bits := bits + [b / place % 2 == 1];
      p, place := p + 1, 2 * place;
    }
  }

  method ReadMaskBytes(t: seq<byte>, count: nat) returns (r: Parsed<seq<bool>>)
    ensures r == ReadMask(t, count)
  {
    var n := count;
    var i := 0;
    var avail: seq<bool> := [];
    assert ReadMask(t, count) == Then(avail, ReadMask(t[0..], n)) by {
      assert t[0..] == t;
      if ReadMask(t, count).Parsed? {
        assert avail + ReadMask(t, count).value == ReadMask(t, count).value;
      }
    }
    while n > 0
      invariant 0 <= i <= |t| && ReadMask(t, count) == Then(avail, ReadMask(t[i..], n))
      decreases |t| - i
    {
      if i == |t| {
        return Failed;
      }
      var bits := ReadBits(t[i]);
      ghost var k: nat := if t[i] != 0 then n - 1 else n;
      assert t[i..][1..] == t[i + 1..];
      ThenThen(avail, bits, ReadMask(t[i + 1..], k));
      avail := avail + bits;
      if t[i] != 0 {
        n := n - 1;
      }
      i := i + 1;
    }
    assert avail + [] == avail;
    return Parsed(avail, t[i..]);
  }

  method ReadOuts(a: seq<bool>, t: seq<byte>, curve: Curve) returns (r: Parsed<seq<TxOut>>)
    ensures r == ReadOutsFrom(a, 0, t, curve)
  {
    var vout: seq<TxOut> := [];
    var rest := t;
    var i := 0;
    assert ReadOutsFrom(a, 0, t, curve) == Then(vout, ReadOutsFrom(a, i, rest, curve)) by {
      if ReadOutsFrom(a, 0, t, curve).Parsed? {
        assert vout + ReadOutsFrom(a, 0, t, curve).value == ReadOutsFrom(a, 0, t, curve).value;
      }
    }
    while i < |a|
      invariant 0 <= i <= |a| && ReadOutsFrom(a, 0, t, curve) == Then(vout, ReadOutsFrom(a, i, rest, curve))
    {
      var o := NULL_OUT;
      ghost var before := rest;
      if a[i] {
        var one := ReadOut(rest, curve);
        if one.Failed? {
          return Failed;
        }
        o, rest := one.value, one.rest;
      }
      assert ReadOutsFrom(a, i, before, curve) == Then([o], ReadOutsFrom(a, i + 1, rest, curve));
      ThenThen(vout, [o], ReadOutsFrom(a, i + 1, rest, curve));
      vout, i := vout + [o], i + 1;
    }
    assert vout + [] == vout;
    return Parsed(vout, rest);
  }

  method Unserialize(t: seq<byte>, curve: Curve) returns (r: Parsed<Coins>)
    ensures r == UnserializeCoins(t, curve)
  {
    var version := ReadSignedFrom(t);
    if version.Failed? {
      return Failed;
    }
    var code := ReadVarIntFrom(version.rest, Bits32);
    if code.Failed? {
      return Failed;
    }
    var h := HeaderOf(code.value);
    var bits := ReadMaskBytes(code.rest, h.count);
    if bits.Failed? {
      return Failed;
    }
    var outs := ReadOuts([h.first, h.second] + bits.value, bits.rest, curve);
    if outs.Failed? {
      return Failed;
    }
    var height := ReadSignedFrom(outs.rest);
    if height.Failed? {
      return Failed;
    }
    var c := Cleanup(Coins(h.coinBase, h.coinStake, outs.value, height.value, version.value));
    return Parsed(c, height.rest);
  }

  datatype UndoHeader = UndoHeader(height: nat, coinBase: bool, coinStake: bool)

  function UndoCode(h: UndoHeader): nat {
    h.height * 4 + Flag(h.coinBase, 2) + Flag(h.coinStake, 1)
  }

  function UndoHeaderOf(code: nat): UndoHeader {
    UndoHeader(code / 4, code / 2 % 2 == 1, code % 2 == 1)
  }

  lemma UndoCodeMeans(h: UndoHeader)
    ensures UndoHeaderOf(UndoCode(h)) == h
  {
    var low := Flag(h.coinBase, 2) + Flag(h.coinStake, 1);
    Quarters(h.height, low);
    Parity(h.height, low / 2);
    Parity(2 * h.height, low);
  }

  lemma Quarters(high: nat, low: nat)
    requires low < 4
    ensures var n := high * 4 + low; n / 4 == high && n / 2 == 2 * high + low / 2
  {
  }

  const HEIGHTS: nat := 0x4000_0000

  /** The code as an unsigned 32-bit integer. */
  function WrittenCode(u: TxInUndo): nat
    requires u.height >= 0
  {
    UndoCode(UndoHeader(u.height, u.coinBase, u.coinStake)) % WIDTH32
  }

  lemma CodeWraps(u: TxInUndo)
    requires u.height >= 0
    ensures UndoHeaderOf(WrittenCode(u)).height < HEIGHTS
    ensures u.height < HEIGHTS ==> UndoHeaderOf(WrittenCode(u)) == UndoHeader(u.height, u.coinBase, u.coinStake)
  {
    UndoCodeMeans(UndoHeader(u.height, u.coinBase, u.coinStake));
    assert WrittenCode(u) < WIDTH32;
  }

  /** An undo record: the version is only written if there is a height. */
  function WriteUndo(u: TxInUndo, curve: Curve): seq<byte>
    requires u.height >= 0 && u.out.value >= 0
  {
    VarInt(WrittenCode(u), false) + (if u.height > 0 then SignedVarInt(u.version) else []) + WriteOut(u.out, curve)
  }

  function ReadUndoOut(t: seq<byte>, h: UndoHeader, version: int, curve: Curve): Parsed<TxInUndo> {
    var o := ReadOut(t, curve);
    if o.Failed? then Failed
    else Parsed(TxInUndo(o.value, h.coinBase, h.coinStake, h.height, version), o.rest)
  }

  function ReadUndoVersion(t: seq<byte>, h: UndoHeader, curve: Curve): Parsed<TxInUndo> {
    if h.height == 0 then ReadUndoOut(t, h, 0, curve)
    else
      var version := ReadSigned(t);
      if version.Failed? then Failed else ReadUndoOut(version.rest, h, version.value, curve)
  }

  /** Reads into a fresh record, whose version is 0. */
  function ReadUndo(t: seq<byte>, curve: Curve): (r: Parsed<TxInUndo>)
    ensures r.Parsed? ==>
              ReadVarInt(t, Bits32).Parsed? && r.value.height == UndoHeaderOf(ReadVarInt(t, Bits32).value).height
  {
    var code := ReadVarInt(t, Bits32);
    if code.Failed? then Failed else ReadUndoVersion(code.rest, UndoHeaderOf(code.value), curve)
  }

  lemma UndoVersionRead(h: UndoHeader, version: int, o: seq<byte>, curve: Curve)
    requires IsInt32(version)
    ensures ReadUndoVersion((if h.height > 0 then SignedVarInt(version) else []) + o, h, curve) ==
            ReadUndoOut(o, h, if h.height > 0 then ReadBack(version) else 0, curve)
  {
    if h.height > 0 {
      SignedReadWritten(version, o);
    } else {
      assert [] + o == o;
    }
  }

  /** What an undo record comes back as: the version is only kept with a height, and then not a negative one. */
  function Reread(u: TxInUndo): TxInUndo {
    u.(version := if u.height > 0 then ReadBack(u.version) else 0)
  }

  /** Unless its height is too large for the code. */
  lemma UndoReadBack(u: TxInUndo, t: seq<byte>, curve: Curve)
    requires 0 <= u.height < HEIGHTS && IsInt32(u.version) && Storable(u.out, curve)
    ensures ReadUndo(WriteUndo(u, curve) + t, curve) == Parsed(Reread(u), t)
  {
    var h := UndoHeader(u.height, u.coinBase, u.coinStake);
    var c, o := VarInt(WrittenCode(u), false), WriteOut(u.out, curve);
    var v := if h.height > 0 then SignedVarInt(u.version) else [];
    Regroup(c + v, o, t);
    Regroup(c, v, o + t);
    ReadWritten(WrittenCode(u), v + (o + t), Bits32);
    CodeWraps(u);
    UndoVersionRead(h, u.version, o + t, curve);
    OutRoundTrip(u.out, t, curve);
  }

  /** An undo record comes back exactly if its height fits, and its version is not negative or, without a height,
      is 0. */
  lemma UndoRoundTrip(u: TxInUndo, t: seq<byte>, curve: Curve)
    requires 0 <= u.height < WIDTH32 && IsInt32(u.version) && Storable(u.out, curve)
    ensures ReadUndo(WriteUndo(u, curve) + t, curve) == Parsed(u, t)
            <==> u.height < HEIGHTS && if u.height > 0 then u.version >= 0 else u.version == 0
  {
    if u.height < HEIGHTS {
      UndoReadBack(u, t, curve);
    } else {
      var c, o := VarInt(WrittenCode(u), false), WriteOut(u.out, curve);
      var v := if u.height > 0 then SignedVarInt(u.version) else [];
      Regroup(c + v, o, t);
      Regroup(c, v, o + t);
      ReadWritten(WrittenCode(u), v + (o + t), Bits32);
      CodeWraps(u);
    }
  }
}
