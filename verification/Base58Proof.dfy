/** Encoding and decoding base 58 undo each other (src/base58.cpp). */
module Base58Proof {
  import opened Transactions
  import opened Numerals
  import opened Base58

  lemma {:induction false} OnesThen(s: string, z: nat)
    requires z <= |s| && (forall i :: 0 <= i < z ==> s[i] == '1') && (z < |s| ==> s[z] != '1')
    ensures LeadingOnes(s) == z
  {
    if z > 0 {
      OnesThen(s[1..], z - 1);
    }
  }

  lemma {:induction false} OnesAre(s: string)
    ensures var z := LeadingOnes(s); (forall i :: 0 <= i < z ==> s[i] == '1') && (z < |s| ==> s[z] != '1')
  {
    if s != [] && s[0] == '1' {
      OnesAre(s[1..]);
    }
  }

  lemma {:induction false} TextDigits(d: seq<int>)
    requires AreDigits(d, 58)
    ensures WordDigits(Text(d)) == Some(d)
  {
    if d != [] {
      DigitOfChar(d[0]);
      assert Text(d)[1..] == Text(d[1..]);
      TextDigits(d[1..]);
      assert d == [d[0]] + d[1..];
    }
  }

  /** Without spaces, the digits are those of the whole text. */
  lemma {:induction false} DigitsText(s: string)
    requires WordDigits(s).Some? && forall i :: 0 <= i < |s| ==> !IsSpace(s[i])
    ensures Text(WordDigits(s).value) == s
  {
    if s != [] {
      DigitsText(s[1..]);
      var d := WordDigits(s).value;
      assert d == [DigitOf(s[0])] + WordDigits(s[1..]).value;
      assert s == [s[0]] + s[1..];
      assert Text(d)[1..] == Text(d[1..]);
    }
  }

  lemma SplitZeros(s: seq<int>)
    ensures s == Repeat(0, Zeros(s)) + Stripped(s)
  {
    StrippedVal(s, 256);
    assert s[..Zeros(s)] == Repeat(0, Zeros(s));
  }

  lemma {:induction false} StrippedDigits(s: seq<int>, base: nat)
    requires AreDigits(s, base)
    ensures AreDigits(Stripped(s), base)
  {
    if s != [] && s[0] == 0 {
      StrippedDigits(s[1..], base);
    }
  }

  /** Leading zeros and the canonical digits of the value are the bytes themselves. */
  lemma SplitBytes(v: seq<int>)
    requires AreDigits(v, 256)
    ensures Val(v, 256) >= 0 && v == Repeat(0, Zeros(v)) + Canonical(Val(v, 256), 256)
  {
    StrippedVal(v, 256);
    StrippedDigits(v, 256);
    CanonicalIs(Stripped(v), 256);
    SplitZeros(v);
  }

  /** Every byte string comes back. */
  lemma DecodeEncode(v: seq<byte>)
    ensures Decode(Encode(v)) == Some(v)
  {
    ValBounds(v, 256);
    var z, n := Zeros(v), Val(v, 256);
    var d := Canonical(n, 58);
    var s := Encode(v);
    CanonicalVal(n, 58);
    if d != [] {
      DigitOfChar(d[0]);
      assert s[z] == Text(d)[0];
    }
    OnesThen(s, z);
    assert LeadingSpaces(s) == 0;
    assert s[0..] == s && s[z..] == Text(d);
    TextDigits(d);
    assert Text(d)[|d|..] == [];
    SplitBytes(v);
  }

  /** A text without spaces that can be decoded is the text of what it decodes to. */
  lemma EncodeDecode(s: string)
    requires Decode(s).Some? && forall i :: 0 <= i < |s| ==> !IsSpace(s[i])
    ensures Encode(Decode(s).value) == s
  {
    assert LeadingSpaces(s) == 0 && s[0..] == s;
    var z := LeadingOnes(s);
    var u := s[z..];
    OnesAre(s);
    var d := WordDigits(u).value;
    WholeWord(u);
    DigitsText(u);
    if d != [] {
      assert u[0] == Text(d)[0] == CharOf(d[0]);
      DigitOfChar(d[0]);
    }
    ValBounds(d, 58);
    var n := Val(d, 58);
    var tail := Canonical(n, 256);
    var v := Repeat(0, z) + tail;
    CanonicalVal(n, 256);
    ZerosAt(v, z);
    StrippedVal(v, 256);
    assert v[z..] == tail;
    CanonicalIs(d, 58);
    assert s == Repeat('1', z) + u;
  }

  /** Without spaces, what can be decoded is one word. */
  lemma WholeWord(u: string)
    requires WordDigits(u).Some? && forall i :: 0 <= i < |u| ==> !IsSpace(u[i])
    ensures |WordDigits(u).value| == |u|
  {
    DigitsText(u);
  }

  /** Exactly the texts over the alphabet can be decoded, apart from spaces around them. */
  lemma {:induction false} DecodableWords(s: string)
    requires forall i :: 0 <= i < |s| ==> !IsSpace(s[i])
    ensures WordDigits(s).Some? <==> forall i :: 0 <= i < |s| ==> DigitOf(s[i]) >= 0
  {
    if s != [] {
      DecodableWords(s[1..]);
      if DigitOf(s[0]) >= 0 && WordDigits(s[1..]).Some? {
        forall i | 0 <= i < |s|
          ensures DigitOf(s[i]) >= 0
        {
          assert i > 0 ==> s[i] == s[1..][i - 1];
        }
      }
    }
  }

  lemma Decodable(s: string)
    requires forall i :: 0 <= i < |s| ==> !IsSpace(s[i])
    ensures Decode(s).Some? <==> forall i :: 0 <= i < |s| ==> DigitOf(s[i]) >= 0
  {
    assert LeadingSpaces(s) == 0 && s[0..] == s;
    var z := LeadingOnes(s);
    var u := s[z..];
    OnesAre(s);
    DecodableWords(u);
    if WordDigits(u).Some? {
      WholeWord(u);
      forall i | 0 <= i < |s|
        ensures DigitOf(s[i]) >= 0
      {
        assert i >= z ==> s[i] == u[i - z];
      }
    }
  }

  /** The first four bytes of the hash of some bytes. */
  datatype Checksum = Checksum(b0: byte, b1: byte, b2: byte, b3: byte)

  function Bytes(c: Checksum): (b: seq<byte>)
    ensures |b| == 4
  {
    [c.b0, c.b1, c.b2, c.b3]
  }

  function DecodeCheck(s: string, hash: seq<byte> -> Checksum): Option<seq<byte>> {
    var d := Decode(s);
    if d.None? || |d.value| < 4 then None
    else
      var v := d.value[..|d.value| - 4];
      if d.value[|d.value| - 4..] != Bytes(hash(v)) then None else Some(v)
  }

  /** The result is cleared when the text, its length or its checksum is wrong. */
  method DecodeBase58Check(psz: string, hash: seq<byte> -> Checksum) returns (vch: Option<seq<byte>>)
    ensures vch == DecodeCheck(psz, hash)
  {
    vch := DecodeBase58(psz);
    if vch.None? || |vch.value| < 4 {
      return None;
    }
    var size := |vch.value| - 4;
    var sum := Bytes(hash(vch.value[..size]));
    if vch.value[size..] != sum {
      return None;
    }
    return Some(vch.value[..size]);
  }

  lemma CheckRoundTrip(v: seq<byte>, hash: seq<byte> -> Checksum)
    ensures DecodeCheck(Encode(v + Bytes(hash(v))), hash) == Some(v)
  {
    DecodeEncode(v + Bytes(hash(v)));
  }

  /** The bytes with their checksum, as a text that decodes to the bytes. */
  method EncodeBase58Check(v: seq<byte>, hash: seq<byte> -> Checksum) returns (str: string)
    ensures str == Encode(v + Bytes(hash(v))) && DecodeCheck(str, hash) == Some(v)
  {
    CheckRoundTrip(v, hash);
    str := EncodeBase58(v + Bytes(hash(v)));
  }

  /** Exactly one text without spaces decodes to some bytes with a right checksum. */
  lemma CheckUnique(s: string, v: seq<byte>, hash: seq<byte> -> Checksum)
    requires forall i :: 0 <= i < |s| ==> !IsSpace(s[i])
    ensures DecodeCheck(s, hash) == Some(v) <==> s == Encode(v + Bytes(hash(v)))
  {
    if DecodeCheck(s, hash) == Some(v) {
      EncodeDecode(s);
      var d := Decode(s).value;
      assert d == d[..|d| - 4] + d[|d| - 4..];
    }
    CheckRoundTrip(v, hash);
  }

  /** Spaces around a text make no difference. */
  lemma SpacesAround(a: string, s: string, b: string)
    requires (forall i :: 0 <= i < |a| ==> IsSpace(a[i])) && (forall i :: 0 <= i < |b| ==> IsSpace(b[i]))
    requires forall i :: 0 <= i < |s| ==> !IsSpace(s[i])
    ensures Decode(a + s + b) == Decode(s)
  {
    var x := a + s + b;
    if s == [] {
      AllSpaces(x);
      assert x[|x|..] == s;
    } else {
      SpacesThen(x, |a|);
      assert x[|a|..] == s + b;
      SpacesBehind(s, b);
    }
  }

  lemma SpacesBehind(s: string, b: string)
    requires s != [] && (forall i :: 0 <= i < |s| ==> !IsSpace(s[i])) && (forall i :: 0 <= i < |b| ==> IsSpace(b[i]))
    ensures LeadingSpaces(s) == 0 && s[0..] == s
    ensures LeadingOnes(s + b) == LeadingOnes(s)
    ensures var u, v := s[LeadingOnes(s)..], (s + b)[LeadingOnes(s)..];
            && WordDigits(v) == WordDigits(u)
            && (WordDigits(u).Some? ==>
                var n := |WordDigits(u).value|; n <= |u| && u[n..] == [] && v[n..] == b && LeadingSpaces(b) == |b|)
  {
    var z := LeadingOnes(s);
    OnesAre(s);
    assert z == |s| && |b| > 0 ==> (s + b)[z] == b[0];
    OnesThen(s + b, z);
    var u := s[z..];
    assert (s + b)[z..] == u + b;
    WordThenSpaces(u, b);
    if WordDigits(u).Some? {
      WholeWord(u);
      AllSpaces(b);
    }
  }

  lemma {:induction false} SpacesThen(s: string, n: nat)
    requires n <= |s| && (forall i :: 0 <= i < n ==> IsSpace(s[i])) && (n < |s| ==> !IsSpace(s[n]))
    ensures LeadingSpaces(s) == n
  {
    if n > 0 {
      SpacesThen(s[1..], n - 1);
    }
  }

  lemma AllSpaces(b: string)
    requires forall i :: 0 <= i < |b| ==> IsSpace(b[i])
    ensures LeadingSpaces(b) == |b|
  {
    SpacesThen(b, |b|);
  }

  lemma {:induction false} WordThenSpaces(s: string, b: string)
    requires (forall i :: 0 <= i < |s| ==> !IsSpace(s[i])) && (forall i :: 0 <= i < |b| ==> IsSpace(b[i]))
    ensures WordDigits(s + b) == WordDigits(s)
  {
    if s == [] {
      assert s + b == b;
    } else {
      assert (s + b)[1..] == s[1..] + b;
      WordThenSpaces(s[1..], b);
    }
  }
}
