/** The undo data of a block in its file: vectors with their sizes, and a checksum (src/serialize.h, src/undo.h,
    src/main.cpp). */
module UndoFile {
  import opened Transactions
  import opened Coins
  import opened Numerals
  import opened VarInts
  import opened ScriptCodec
  import opened CoinsStream
  import opened Utxo
  import opened UndoReread

  const MAX_SIZE: nat := 0x0200_0000

  // ---- Sizes ----

  /** The lowest byte first. */
  function LittleEndian(n: nat, k: nat): (s: seq<byte>)
    ensures |s| == k
  {
    if k == 0 then [] else [n % 256] + LittleEndian(n / 256, k - 1)
  }

  function FromLittleEndian(s: seq<byte>): nat {
    if s == [] then 0 else s[0] + 256 * FromLittleEndian(s[1..])
  }

  lemma {:induction false} LittleEndianRead(n: nat, k: nat)
    requires n < Pow(256, k)
    ensures FromLittleEndian(LittleEndian(n, k)) == n
  {
    if k > 0 {
      LittleEndianRead(n / 256, k - 1);
    }
  }

  lemma LowByte(b: byte, n: nat)
    ensures (b + 256 * n) % 256 == b && (b + 256 * n) / 256 == n
  {
  }

  lemma {:induction false} LittleEndianWritten(s: seq<byte>)
    ensures FromLittleEndian(s) < Pow(256, |s|) && LittleEndian(FromLittleEndian(s), |s|) == s
  {
    if s != [] {
      LittleEndianWritten(s[1..]);
      LowByte(s[0], FromLittleEndian(s[1..]));
      assert s == [s[0]] + s[1..];
    }
  }

  /** How many bytes follow the first one. */
  function Following(first: byte): nat {
    if first < 253 then 0 else if first == 253 then 2 else if first == 254 then 4 else 8
  }

  /** The least size that is written with so many bytes. */
  function LeastSize(first: byte): nat {
    if first < 253 then first else if first == 253 then 253 else if first == 254 then 0x1_0000 else WIDTH32
  }

  function FirstByte(n: nat): byte {
    if n < 253 then n else if n <= 0xFFFF then 253 else if n < WIDTH32 then 254 else 255
  }

  function CompactSize(n: nat): (s: seq<byte>)
    requires n < WIDTH64
    ensures |s| == 1 + Following(FirstByte(n))
  {
    [FirstByte(n)] + LittleEndian(n, Following(FirstByte(n)))
  }

  /** Fails on a size that fewer bytes would hold, and on one above MAX_SIZE. */
  function ReadCompactSize(t: seq<byte>): (r: Parsed<nat>)
    ensures r.Parsed? ==> r.value <= MAX_SIZE
  {
    if t == [] || |t| < 1 + Following(t[0]) then Failed
    else
      var k := Following(t[0]);
      var n := if k == 0 then t[0] else FromLittleEndian(t[1..1 + k]);
      if n < LeastSize(t[0]) || n > MAX_SIZE then Failed else Parsed(n, t[1 + k..])
  }

  lemma PowersOf256()
    ensures Pow(256, 2) == 0x1_0000 && Pow(256, 4) == WIDTH32 && Pow(256, 8) == WIDTH64
  {
    assert Pow(256, 1) == 256 * Pow(256, 0);
  }

  /** A size comes back exactly if it is not above MAX_SIZE. */
  lemma SizeRoundTrip(n: nat, t: seq<byte>)
    requires n < WIDTH64
    ensures ReadCompactSize(CompactSize(n) + t) == if n <= MAX_SIZE then Parsed(n, t) else Failed
  {
    var first := FirstByte(n);
    var k := Following(first);
    var s := CompactSize(n) + t;
    PowersOf256();
    assert s[0] == first && s[1..1 + k] == LittleEndian(n, k) && s[1 + k..] == t;
    if k > 0 {
      LittleEndianRead(n, k);
    }
  }

  /** No size is read from any other bytes than those it is written as. */
  lemma SizeUnique(s: seq<byte>)
    requires ReadCompactSize(s).Parsed?
    ensures var Parsed(n, t) := ReadCompactSize(s); n < WIDTH64 && s == CompactSize(n) + t
  {
    var k := Following(s[0]);
    PowersOf256();
    if k > 0 {
      LittleEndianWritten(s[1..1 + k]);
    }
    assert s == [s[0]] + s[1..1 + k] + s[1 + k..];
  }

  // ---- Records ----

  /** Records as UpdateCoins leaves them can be written. */
  predicate Writable(us: TxUndo) {
    |us| < WIDTH64 && forall i :: 0 <= i < |us| ==> us[i].height >= 0 && us[i].out.value >= 0
  }

  predicate AllWritable(v: seq<TxUndo>) {
    |v| < WIDTH64 && forall i :: 0 <= i < |v| ==> Writable(v[i])
  }

  /** What a record needs in order to survive, apart from its version. */
  predicate Keepable(u: TxInUndo, curve: Curve) {
    0 <= u.height < HEIGHTS && IsInt32(u.version) && Storable(u.out, curve)
  }

  predicate TxKeepable(us: TxUndo, curve: Curve) {
    |us| <= MAX_SIZE && forall i :: 0 <= i < |us| ==> Keepable(us[i], curve)
  }

  predicate BlockKeepable(v: seq<TxUndo>, curve: Curve) {
    |v| <= MAX_SIZE && forall i :: 0 <= i < |v| ==> TxKeepable(v[i], curve)
  }

  function WriteRecords(us: TxUndo, curve: Curve): seq<byte>
    requires Writable(us)
  {
    if us == [] then [] else WriteUndo(us[0], curve) + WriteRecords(us[1..], curve)
  }

  function WriteTxUndo(us: TxUndo, curve: Curve): seq<byte>
    requires Writable(us)
  {
    CompactSize(|us|) + WriteRecords(us, curve)
  }

  function WriteTxUndos(v: seq<TxUndo>, curve: Curve): seq<byte>
    requires AllWritable(v)
  {
    if v == [] then [] else WriteTxUndo(v[0], curve) + WriteTxUndos(v[1..], curve)
  }

  function WriteBlockUndo(v: seq<TxUndo>, curve: Curve): seq<byte>
    requires AllWritable(v)
  {
    CompactSize(|v|) + WriteTxUndos(v, curve)
  }

  function ReadRecords(n: nat, t: seq<byte>, curve: Curve): (r: Parsed<TxUndo>)
    ensures r.Parsed? ==> |r.value| == n && forall i :: 0 <= i < n ==>
              r.value[i].height >= 0 && r.value[i].out.value >= 0
  {
    if n == 0 then Parsed([], t)
    else
      var u := ReadUndo(t, curve);
      if u.Failed? then Failed
      else
        var us := ReadRecords(n - 1, u.rest, curve);
        if us.Failed? then Failed else Parsed([u.value] + us.value, us.rest)
  }

  function ReadTxUndo(t: seq<byte>, curve: Curve): (r: Parsed<TxUndo>)
    ensures r.Parsed? ==> Writable(r.value)
  {
    var n := ReadCompactSize(t);
    if n.Failed? then Failed else ReadRecords(n.value, n.rest, curve)
  }

  function ReadTxUndos(n: nat, t: seq<byte>, curve: Curve): (r: Parsed<seq<TxUndo>>)
    ensures r.Parsed? ==> |r.value| == n && forall i :: 0 <= i < n ==> Writable(r.value[i])
  {
    if n == 0 then Parsed([], t)
    else
      var us := ReadTxUndo(t, curve);
      if us.Failed? then Failed
      else
        var v := ReadTxUndos(n - 1, us.rest, curve);
        if v.Failed? then Failed else Parsed([us.value] + v.value, v.rest)
  }

  function ReadBlockUndo(t: seq<byte>, curve: Curve): (r: Parsed<seq<TxUndo>>)
    ensures r.Parsed? ==> AllWritable(r.value)
  {
    var n := ReadCompactSize(t);
    if n.Failed? then Failed else ReadTxUndos(n.value, n.rest, curve)
  }

  lemma RecordsStep(n: nat, s: seq<byte>, u: TxInUndo, t: seq<byte>, curve: Curve)
    requires n > 0 && ReadUndo(s, curve) == Parsed(u, t)
    ensures ReadRecords(n, s, curve) ==
            match ReadRecords(n - 1, t, curve)
            case Failed => Failed
            case Parsed(us, rest) => Parsed([u] + us, rest)
  {
  }

  lemma {:induction false} RecordsRead(us: TxUndo, t: seq<byte>, curve: Curve)
    requires TxKeepable(us, curve)
    ensures ReadRecords(|us|, WriteRecords(us, curve) + t, curve) == Parsed(RereadTx(us), t)
  {
    if us == [] {
      assert [] + t == t;
    } else {
      var rest := WriteRecords(us[1..], curve);
      Regroup(WriteUndo(us[0], curve), rest, t);
      UndoReadBack(us[0], rest + t, curve);
      RecordsStep(|us|, WriteRecords(us, curve) + t, Reread(us[0]), rest + t, curve);
      RecordsRead(us[1..], t, curve);
      RereadTxHead(us);
    }
  }

  lemma TxUndoRead(us: TxUndo, t: seq<byte>, curve: Curve)
    requires TxKeepable(us, curve)
    ensures ReadTxUndo(WriteTxUndo(us, curve) + t, curve) == Parsed(RereadTx(us), t)
  {
    Regroup(CompactSize(|us|), WriteRecords(us, curve), t);
    SizeRoundTrip(|us|, WriteRecords(us, curve) + t);
    RecordsRead(us, t, curve);
  }

  lemma TxUndosStep(n: nat, s: seq<byte>, us: TxUndo, t: seq<byte>, curve: Curve)
    requires n > 0 && ReadTxUndo(s, curve) == Parsed(us, t)
    ensures ReadTxUndos(n, s, curve) ==
            match ReadTxUndos(n - 1, t, curve)
            case Failed => Failed
            case Parsed(v, rest) => Parsed([us] + v, rest)
  {
  }

  lemma {:induction false} TxUndosRead(v: seq<TxUndo>, t: seq<byte>, curve: Curve)
    requires BlockKeepable(v, curve)
    ensures ReadTxUndos(|v|, WriteTxUndos(v, curve) + t, curve) == Parsed(RereadBlock(v), t)
  {
    if v == [] {
      assert [] + t == t;
    } else {
      var rest := WriteTxUndos(v[1..], curve);
      Regroup(WriteTxUndo(v[0], curve), rest, t);
      TxUndoRead(v[0], rest + t, curve);
      TxUndosStep(|v|, WriteTxUndos(v, curve) + t, RereadTx(v[0]), rest + t, curve);
      TxUndosRead(v[1..], t, curve);
      RereadBlockHead(v);
    }
  }

  lemma BlockUndoRead(v: seq<TxUndo>, t: seq<byte>, curve: Curve)
    requires BlockKeepable(v, curve)
    ensures ReadBlockUndo(WriteBlockUndo(v, curve) + t, curve) == Parsed(RereadBlock(v), t)
  {
    Regroup(CompactSize(|v|), WriteTxUndos(v, curve), t);
    SizeRoundTrip(|v|, WriteTxUndos(v, curve) + t);
    TxUndosRead(v, t, curve);
  }

  // ---- The loops ----

  lemma RecordWritten(s: seq<byte>, us: TxUndo, curve: Curve)
    requires Writable(us) && us != []
    ensures s + WriteRecords(us, curve) == s + WriteUndo(us[0], curve) + WriteRecords(us[1..], curve)
  {
    Regroup(s, WriteUndo(us[0], curve), WriteRecords(us[1..], curve));
  }

  lemma TxUndoWritten(s: seq<byte>, v: seq<TxUndo>, curve: Curve)
    requires AllWritable(v) && v != []
    ensures s + WriteTxUndos(v, curve) == s + WriteTxUndo(v[0], curve) + WriteTxUndos(v[1..], curve)
  {
    Regroup(s, WriteTxUndo(v[0], curve), WriteTxUndos(v[1..], curve));
  }

  method SerializeTxUndo(us: TxUndo, curve: Curve) returns (s: seq<byte>)
    requires Writable(us)
    ensures s == WriteTxUndo(us, curve)
  {
    s := CompactSize(|us|);
    var left := us;
    while left != []
      invariant Writable(left) && s + WriteRecords(left, curve) == WriteTxUndo(us, curve)
    {
      RecordWritten(s, left, curve);
      s, left := s + WriteUndo(left[0], curve), left[1..];
    }
    assert s + [] == s;
  }

  method SerializeBlockUndo(v: seq<TxUndo>, curve: Curve) returns (s: seq<byte>)
    requires AllWritable(v)
    ensures s == WriteBlockUndo(v, curve)
  {
    s := CompactSize(|v|);
    var left := v;
    while left != []
      invariant AllWritable(left) && s + WriteTxUndos(left, curve) == WriteBlockUndo(v, curve)
    {
      TxUndoWritten(s, left, curve);
      var one := SerializeTxUndo(left[0], curve);
      s, left := s + one, left[1..];
    }
    assert s + [] == s;
  }

  /** What reading n more elements adds to those read so far. */
  function After<T>(done: seq<T>, r: Parsed<seq<T>>): Parsed<seq<T>> {
    if r.Failed? then Failed else Parsed(done + r.value, r.rest)
  }

  lemma RecordsAfter(done: TxUndo, n: nat, less: nat, t: seq<byte>, curve: Curve)
    requires n == less + 1
    ensures var u := ReadUndo(t, curve);
            After(done, ReadRecords(n, t, curve)) ==
            if u.Failed? then Failed else After(done + [u.value], ReadRecords(less, u.rest, curve))
  {
    var u := ReadUndo(t, curve);
    if u.Parsed? {
      RecordsStep(n, t, u.value, u.rest, curve);
      var us := ReadRecords(less, u.rest, curve);
      if us.Parsed? {
        Regroup(done, [u.value], us.value);
      }
    }
  }

  lemma TxUndosAfter(done: seq<TxUndo>, n: nat, less: nat, t: seq<byte>, curve: Curve)
    requires n == less + 1
    ensures var us := ReadTxUndo(t, curve);
            After(done, ReadTxUndos(n, t, curve)) ==
            if us.Failed? then Failed else After(done + [us.value], ReadTxUndos(less, us.rest, curve))
  {
    var us := ReadTxUndo(t, curve);
    if us.Parsed? {
      TxUndosStep(n, t, us.value, us.rest, curve);
      var v := ReadTxUndos(less, us.rest, curve);
      if v.Parsed? {
        Regroup(done, [us.value], v.value);
      }
    }
  }

  lemma NothingBefore<T>(r: Parsed<seq<T>>)
    ensures After([], r) == r
  {
    if r.Parsed? {
      assert [] + r.value == r.value;
    }
  }

  lemma NothingAfter<T>(done: seq<T>, rest: seq<byte>)
    ensures After(done, Parsed([], rest)) == Parsed(done, rest)
  {
    assert done + [] == done;
  }

  method UnserializeRecords(n: nat, t: seq<byte>, curve: Curve) returns (r: Parsed<TxUndo>)
    ensures r == ReadRecords(n, t, curve)
  {
    var us: TxUndo, rest, left := [], t, n;
    ghost var all := ReadRecords(n, t, curve);
    NothingBefore(all);
    while left > 0
      invariant all == After(us, ReadRecords(left, rest, curve))
    {
      var less := left - 1;
      RecordsAfter(us, left, less, rest, curve);
      var u := ReadUndo(rest, curve);
      if u.Failed? {
        return Failed;
      }
      us, rest, left := us + [u.value], u.rest, less;
    }
    NothingAfter(us, rest);
    return Parsed(us, rest);
  }

  method UnserializeTxUndo(t: seq<byte>, curve: Curve) returns (r: Parsed<TxUndo>)
    ensures r == ReadTxUndo(t, curve)
  {
    var n := ReadCompactSize(t);
    if n.Failed? {
      return Failed;
    }
    r := UnserializeRecords(n.value, n.rest, curve);
  }

  method UnserializeTxUndos(n: nat, t: seq<byte>, curve: Curve) returns (r: Parsed<seq<TxUndo>>)
    ensures r == ReadTxUndos(n, t, curve)
  {
    var v: seq<TxUndo>, rest, left := [], t, n;
    ghost var all := ReadTxUndos(n, t, curve);
    NothingBefore(all);
    while left > 0
      invariant all == After(v, ReadTxUndos(left, rest, curve))
    {
      var less := left - 1;
      TxUndosAfter(v, left, less, rest, curve);
      var us := UnserializeTxUndo(rest, curve);
      if us.Failed? {
        return Failed;
      }
      v, rest, left := v + [us.value], us.rest, less;
    }
    NothingAfter(v, rest);
    return Parsed(v, rest);
  }

  method UnserializeBlockUndo(t: seq<byte>, curve: Curve) returns (r: Parsed<seq<TxUndo>>)
    ensures r == ReadBlockUndo(t, curve)
  {
    var n := ReadCompactSize(t);
    if n.Failed? {
      return Failed;
    }
    r := UnserializeTxUndos(n.value, n.rest, curve);
  }

  // ---- The checksum ----

  /** A record that was read back is written as before, even if its version changed. */
  lemma RecordRewritten(u: TxInUndo, curve: Curve)
    requires u.height >= 0 && u.out.value >= 0
    ensures WriteUndo(Reread(u), curve) == WriteUndo(u, curve)
  {
    assert SignedVarInt(ReadBack(u.version)) == SignedVarInt(u.version);
  }

  lemma {:induction false} RecordsRewritten(us: TxUndo, curve: Curve)
    requires Writable(us)
    ensures Writable(RereadTx(us)) && WriteRecords(RereadTx(us), curve) == WriteRecords(us, curve)
  {
    if us != [] {
      RecordRewritten(us[0], curve);
      RecordsRewritten(us[1..], curve);
      RereadTxHead(us);
    }
  }

  lemma {:induction false} TxUndosRewritten(v: seq<TxUndo>, curve: Curve)
    requires AllWritable(v)
    ensures AllWritable(RereadBlock(v)) && WriteTxUndos(RereadBlock(v), curve) == WriteTxUndos(v, curve)
  {
    if v != [] {
      RecordsRewritten(v[0], curve);
      TxUndosRewritten(v[1..], curve);
      RereadBlockHead(v);
    }
  }

  type Digest = d: seq<byte> | |d| == 32 witness seq(32, _ => 0)

  /** The undo data and a checksum over the block before and the data. */
  function WriteToDisk(v: seq<TxUndo>, hashBlock: Hash, curve: Curve, hash: (Hash, seq<byte>) -> Digest): seq<byte>
    requires AllWritable(v)
  {
    WriteBlockUndo(v, curve) + hash(hashBlock, WriteBlockUndo(v, curve))
  }

  /** The checksum is taken over what was read, written once more. */
  function ReadFromDisk(s: seq<byte>, hashBlock: Hash, curve: Curve, hash: (Hash, seq<byte>) -> Digest):
    Option<seq<TxUndo>>
  {
    var r := ReadBlockUndo(s, curve);
    if r.Failed? || |r.rest| < 32 || r.rest[..32] != hash(hashBlock, WriteBlockUndo(r.value, curve)) then None
    else Some(r.value)
  }

  method WriteUndoFile(v: seq<TxUndo>, hashBlock: Hash, curve: Curve, hash: (Hash, seq<byte>) -> Digest)
    returns (s: seq<byte>)
    requires AllWritable(v)
    ensures s == WriteToDisk(v, hashBlock, curve, hash)
  {
    s := SerializeBlockUndo(v, curve);
    s := s + hash(hashBlock, s);
  }

  method ReadUndoFile(s: seq<byte>, hashBlock: Hash, curve: Curve, hash: (Hash, seq<byte>) -> Digest)
    returns (v: Option<seq<TxUndo>>)
    ensures v == ReadFromDisk(s, hashBlock, curve, hash)
  {
    var r := UnserializeBlockUndo(s, curve);
    if r.Failed? || |r.rest| < 32 {
      return None;
    }
    var bytes := SerializeBlockUndo(r.value, curve);
    return if r.rest[..32] != hash(hashBlock, bytes) then None else Some(r.value);
  }

  /**
   * What was written is read back, whatever follows it in the file and whatever the checksum is. Negative versions are
   * changed, and the checksum does not notice: it comes back exactly if no record with a height has one.
   */
  lemma FileRoundTrip(v: seq<TxUndo>, hashBlock: Hash, t: seq<byte>, curve: Curve, hash: (Hash, seq<byte>) -> Digest)
    requires BlockKeepable(v, curve)
    ensures ReadFromDisk(WriteToDisk(v, hashBlock, curve, hash) + t, hashBlock, curve, hash) == Some(RereadBlock(v))
    ensures RereadBlock(v) == v <==> forall i, j :: 0 <= i < |v| && 0 <= j < |v[i]| ==>
              if v[i][j].height > 0 then v[i][j].version >= 0 else v[i][j].version == 0
  {
    var bytes := WriteBlockUndo(v, curve);
    var digest := hash(hashBlock, bytes);
    Regroup(bytes, digest, t);
    BlockUndoRead(v, digest + t, curve);
    TxUndosRewritten(v, curve);
    assert (digest + t)[..32] == digest;
    assert WriteBlockUndo(RereadBlock(v), curve) == bytes;
    RereadSame(v);
  }

  lemma RereadSame(v: seq<TxUndo>)
    ensures RereadBlock(v) == v <==> forall i, j :: 0 <= i < |v| && 0 <= j < |v[i]| ==>
              if v[i][j].height > 0 then v[i][j].version >= 0 else v[i][j].version == 0
  {
    forall i, j | 0 <= i < |v| && 0 <= j < |v[i]|
      ensures Reread(v[i][j]) == v[i][j] <==>
                if v[i][j].height > 0 then v[i][j].version >= 0 else v[i][j].version == 0
    {
    }
    if forall i, j :: 0 <= i < |v| && 0 <= j < |v[i]| ==> Reread(v[i][j]) == v[i][j] {
      forall i | 0 <= i < |v|
        ensures RereadTx(v[i]) == v[i]
      {
      }
    } else {
      var i, j :| 0 <= i < |v| && 0 <= j < |v[i]| && Reread(v[i][j]) != v[i][j];
      assert RereadTx(v[i])[j] != v[i][j];
    }
  }
}
