/** Scripts and outputs in a stream: the common scripts in 21 or 33 bytes, all others with their length
    (src/compressor.cpp, src/compressor.h). */
module ScriptCodec {
  import opened Transactions
  import opened VarInts
  import opened Compressor

  const OP_DUP: byte := 0x76
  const OP_EQUAL: byte := 0x87
  const OP_EQUALVERIFY: byte := 0x88
  const OP_HASH160: byte := 0xa9
  const OP_CHECKSIG: byte := 0xac
  const SPECIAL_SCRIPTS: nat := 6

  /** Public key arithmetic: which full keys are points, and the full key of a short one. */
  datatype Curve = Curve(valid: seq<byte> -> bool, expand: seq<byte> -> Option<seq<byte>>)

  predicate IsToKeyID(s: Script) {
    |s| == 25 && s[0] == OP_DUP && s[1] == OP_HASH160 && s[2] == 20 && s[23] == OP_EQUALVERIFY && s[24] == OP_CHECKSIG
  }

  predicate IsToScriptID(s: Script) {
    |s| == 23 && s[0] == OP_HASH160 && s[1] == 20 && s[22] == OP_EQUAL
  }

  predicate IsToShortKey(s: Script) {
    |s| == 35 && s[0] == 33 && s[34] == OP_CHECKSIG && (s[1] == 2 || s[1] == 3)
  }

  predicate IsToFullKey(s: Script, curve: Curve) {
    |s| == 67 && s[0] == 65 && s[66] == OP_CHECKSIG && s[1] == 4 && curve.valid(s[1..66])
  }

  /** The short form, whose first byte says which it is. */
  function Compress(s: Script, curve: Curve): (r: Option<seq<byte>>)
    ensures r.Some? ==> |r.value| > 0 && r.value[0] < 6 && |r.value| == 1 + GetSpecialSize(r.value[0])
  {
    if IsToKeyID(s) then Some([0] + s[3..23])
    else if IsToScriptID(s) then Some([1] + s[2..22])
    else if IsToShortKey(s) then Some([s[1]] + s[2..34])
    else if IsToFullKey(s, curve) then Some([4 + s[65] % 2] + s[2..34])
    else None
  }

  function GetSpecialSize(size: nat): nat {
    if size <= 1 then 20 else if size <= 5 then 32 else 0
  }

  function Decompress(size: nat, data: seq<byte>, curve: Curve): Option<Script>
    requires size < SPECIAL_SCRIPTS && |data| == GetSpecialSize(size)
  {
    if size == 0 then Some([OP_DUP, OP_HASH160, 20] + data + [OP_EQUALVERIFY, OP_CHECKSIG])
    else if size == 1 then Some([OP_HASH160, 20] + data + [OP_EQUAL])
    else if size <= 3 then Some([33, size] + data + [OP_CHECKSIG])
    else
      var key := curve.expand([size - 2] + data);
      if key.None? then None else Some([65] + key.value + [OP_CHECKSIG])
  }

  function WriteScript(s: Script, curve: Curve): seq<byte> {
    var short := Compress(s, curve);
    if short.Some? then short.value else VarInt(|s| + SPECIAL_SCRIPTS, false) + s
  }

  /** The first n bytes and the rest. */
  function Take(s: seq<byte>, n: nat): Parsed<seq<byte>> {
    if |s| < n then Failed else Parsed(s[..n], s[n..])
  }

  /** A key that cannot be expanded leaves the script empty; an overlong script becomes one that cannot be spent. */
  function ReadScript(t: seq<byte>, curve: Curve): Parsed<Script> {
    var size := ReadVarInt(t, Bits32);
    if size.Failed? then Failed
    else if size.value < SPECIAL_SCRIPTS then
      var data := Take(size.rest, GetSpecialSize(size.value));
      if data.Failed? then Failed
      else
        var s := Decompress(size.value, data.value, curve);
        Parsed(if s.Some? then s.value else [], data.rest)
    else
      var n := size.value - SPECIAL_SCRIPTS;
      var data := Take(size.rest, n);
      if data.Failed? then Failed
      else if n > MAX_SCRIPT_SIZE then Parsed([OP_RETURN], data.rest)
      else data
  }

  /** The curve expands the short form of a valid full key to that key. */
  predicate KeyComesBack(s: Script, curve: Curve) {
    IsToFullKey(s, curve) ==> curve.expand([2 + s[65] % 2] + s[2..34]) == Some(s[1..66])
  }

  lemma DecompressCompress(s: Script, curve: Curve)
    requires Compress(s, curve).Some? && KeyComesBack(s, curve)
    ensures var c := Compress(s, curve).value; Decompress(c[0], c[1..], curve) == Some(s)
  {
    var c := Compress(s, curve).value;
    if IsToKeyID(s) {
      assert c[1..] == s[3..23];
      assert s == [OP_DUP, OP_HASH160, 20] + s[3..23] + [OP_EQUALVERIFY, OP_CHECKSIG];
    } else if IsToScriptID(s) {
      assert c[1..] == s[2..22];
      assert s == [OP_HASH160, 20] + s[2..22] + [OP_EQUAL];
    } else if IsToShortKey(s) {
      assert c[1..] == s[2..34];
      assert s == [33, s[1]] + s[2..34] + [OP_CHECKSIG];
    } else {
      assert c[1..] == s[2..34];
      assert s == [65] + s[1..66] + [OP_CHECKSIG];
    }
  }

  lemma TakeWritten(s: seq<byte>, t: seq<byte>)
    ensures Take(s + t, |s|) == Parsed(s, t)
  {
  }

  /**
   * A script is read back exactly if it has at most the allowed size; a longer one comes back as one that cannot be
   * spent. Nothing behind it is touched.
   */
  lemma ScriptRoundTrip(s: Script, t: seq<byte>, curve: Curve)
    requires |s| + SPECIAL_SCRIPTS < WIDTH32 && KeyComesBack(s, curve)
    ensures ReadScript(WriteScript(s, curve) + t, curve) == Parsed(if |s| <= MAX_SCRIPT_SIZE then s else [OP_RETURN], t)
  {
    var short := Compress(s, curve);
    if short.Some? {
      var c := short.value;
      DecompressCompress(s, curve);
      assert c + t == VarInt(c[0], false) + (c[1..] + t);
      ReadWritten(c[0], c[1..] + t, Bits32);
      TakeWritten(c[1..], t);
    } else {
      assert WriteScript(s, curve) + t == VarInt(|s| + SPECIAL_SCRIPTS, false) + (s + t);
      ReadWritten(|s| + SPECIAL_SCRIPTS, s + t, Bits32);
      TakeWritten(s, t);
    }
  }

  /** An output: its amount and its script. */
  function WriteOut(o: TxOut, curve: Curve): seq<byte>
    requires o.value >= 0
  {
    VarInt(Compressed(o.value), false) + WriteScript(o.script, curve)
  }

  function ReadOut(t: seq<byte>, curve: Curve): Parsed<TxOut> {
    var x := ReadVarInt(t, Bits64);
    if x.Failed? then Failed
    else
      var s := ReadScript(x.rest, curve);
      if s.Failed? then Failed else Parsed(TxOut(Decompressed(x.value), s.value), s.rest)
  }

  /** What an output needs in order to survive: an amount below 2^60 and a script of allowed size. */
  predicate Storable(o: TxOut, curve: Curve) {
    0 <= o.value < 0x1000_0000_0000_0000 && |o.script| <= MAX_SCRIPT_SIZE && KeyComesBack(o.script, curve)
  }

  lemma OutRoundTrip(o: TxOut, t: seq<byte>, curve: Curve)
    requires Storable(o, curve)
    ensures ReadOut(WriteOut(o, curve) + t, curve) == Parsed(o, t)
  {
    var s := WriteScript(o.script, curve);
    assert WriteOut(o, curve) + t == VarInt(Compressed(o.value), false) + (s + t);
    CompressedFits(o.value);
    ReadWritten(Compressed(o.value), s + t, Bits64);
    ScriptRoundTrip(o.script, t, curve);
    AmountRoundTrip(o.value);
  }
}
