/** The AudioSpecificConfig of section 1.6.2.1 of ISO/IEC 14496-3: what a codec is
    configured with, as bits. */
module AacConfig {
  import opened Bits

  const TYPE_LD: byte := 23
  const TYPE_ESCAPE: byte := 31
  const TYPE_ELD: byte := 39

  const SAMPLE_RATES: seq<nat> := [
    96000, 88200, 64000, 48000, 44100, 32000, 24000, 22050, 16000, 12000, 11025, 8000, 7350,
    0, 0, 0
  ]

  type uint32 = x: int | 0 <= x < 0x1_0000_0000

  datatype Config = Config(objType: byte, freqIdx: byte, channels: byte, sampleRate: uint32)

  /** The first position of `v` in `s` from `i` on, or -1. */
  function IndexFrom(s: seq<nat>, v: nat, i: nat): (r: int)
    requires i <= |s|
    ensures r == -1 || i <= r < |s|
    ensures r >= 0 ==> s[r] == v
    ensures r == -1 <==> forall j :: i <= j < |s| ==> s[j] != v
    decreases |s| - i
  {
    if i == |s| then -1 else if s[i] == v then i else IndexFrom(s, v, i + 1)
  }

  method IndexUint32(s: seq<nat>, v: nat) returns (r: int)
    ensures r == IndexFrom(s, v, 0)
  {
    var i := 0;
    while i < |s|
      invariant 0 <= i <= |s| && IndexFrom(s, v, 0) == IndexFrom(s, v, i)
    {
      if v == s[i] {
        return i;
      }
      i := i + 1;
    }
    return -1;
  }

  function TypeBits(objType: byte): (r: seq<bool>) {
    if objType < TYPE_ESCAPE then ToBits(objType, 5)
    else ToBits(TYPE_ESCAPE, 5) + ToBits((objType + 224) % 256, 6)
  }

  /** A rate as its place in a table, or behind an escape value. */
  function RateIn(table: seq<nat>, sampleRate: uint32): (r: seq<bool>) {
    var i := IndexFrom(table, sampleRate, 0);
    if i >= 0 then ToBits(i, 4) else ToBits(0xF, 4) + ToBits(sampleRate, 24)
  }

  function RateBits(sampleRate: uint32): (r: seq<bool>) {
    RateIn(SAMPLE_RATES, sampleRate)
  }

  function ExtraBits(objType: byte, shortFrame: bool): seq<bool> {
    if objType == TYPE_LD then [shortFrame, false, false] + ToBits(0, 2)
    else if objType == TYPE_ELD then [shortFrame] + ToBits(0, 3) + [false] + ToBits(0, 4) + ToBits(0, 2)
    else []
  }

  function ConfigBits(objType: byte, sampleRate: uint32, channels: byte, shortFrame: bool): seq<bool> {
    TypeBits(objType) + RateBits(sampleRate) + ToBits(channels, 4) + ExtraBits(objType, shortFrame)
  }

  /** An escape value and the number behind it. */
  method WriteEscaped(wr: Writer, escape: nat, n: nat, v: nat, m: nat)
    requires wr.Valid()
    modifies wr
    ensures wr.Valid() && wr.content == old(wr.content) + (ToBits(escape, n) + ToBits(v, m))
  {
    wr.WriteBits(escape, n);
    wr.WriteBits(v, m);
  }

  method WriteType(wr: Writer, objType: byte)
    requires wr.Valid()
    modifies wr
    ensures wr.Valid() && wr.content == old(wr.content) + TypeBits(objType)
  {
    if objType < TYPE_ESCAPE {
      wr.WriteBits(objType, 5);
    } else {
      WriteEscaped(wr, TYPE_ESCAPE, 5, (objType + 224) % 256, 6);
    }
  }

  method WriteRate(wr: Writer, table: seq<nat>, sampleRate: uint32)
    requires wr.Valid()
    modifies wr
    ensures wr.Valid() && wr.content == old(wr.content) + RateIn(table, sampleRate)
  {
    var i := IndexUint32(table, sampleRate);
    if i >= 0 {
      wr.WriteBits(i, 4);
    } else {
      WriteEscaped(wr, 0xF, 4, sampleRate, 24);
    }
  }

  method WriteExtra(wr: Writer, objType: byte, shortFrame: bool)
    requires wr.Valid()
    modifies wr
    ensures wr.Valid() && wr.content == old(wr.content) + ExtraBits(objType, shortFrame)
  {
    if objType == TYPE_LD {
      wr.WriteBit(shortFrame);
      wr.WriteBit(false);
      wr.WriteBit(false);
      wr.WriteBits(0, 2);
    } else if objType == TYPE_ELD {
      wr.WriteBit(shortFrame);
      wr.WriteBits(0, 3);
      wr.WriteBit(false);
      wr.WriteBits(0, 4);
      wr.WriteBits(0, 2);
    }
  }

  method EncodeConfig(objType: byte, sampleRate: uint32, channels: byte, shortFrame: bool)
      returns (conf: seq<byte>)
    ensures conf == Pack(ConfigBits(objType, sampleRate, channels, shortFrame))
  {
    var wr := new Writer();
    WriteType(wr, objType);
    assert wr.content == TypeBits(objType);
    WriteRate(wr, SAMPLE_RATES, sampleRate);
    wr.WriteBits(channels, 4);
    WriteExtra(wr, objType, shortFrame);
    conf := wr.buf;
  }

  lemma SmallPowers()
    ensures Pow2(2) == 4 && Pow2(3) == 8 && Pow2(4) == 16 && Pow2(5) == 32 && Pow2(6) == 64 && Pow2(8) == 256
    ensures Pow2(24) == 0x100_0000
  {
    assert Pow2(8) == 256;
    assert Pow2(16) == 65536;
  }

  /** The object type at the start of a stream, and where it ends. */
  function DecodeType(s: seq<bool>): (r: (byte, nat))
    ensures r.0 < 96 && r.0 != TYPE_ESCAPE
  {
    SmallPowers();
    if Field(s, 0, 5) == 31 then (32 + Field(s, 5, 6), 11) else (Field(s, 0, 5), 5)
  }

  /** The frequency index and sample rate at `k`, and where they end. */
  function DecodeRate(s: seq<bool>, k: nat): (r: (byte, uint32, nat))
    ensures r.0 < 16 && r.1 < 0x100_0000
    ensures r.0 < 15 ==> r.1 == SAMPLE_RATES[r.0] && r.2 == k + 4
  {
    SmallPowers();
    if Field(s, k, 4) == 15 then (15, Field(s, k + 4, 24), k + 28)
    else (Field(s, k, 4), SAMPLE_RATES[Field(s, k, 4)], k + 4)
  }

  /** Reading a configuration from a stream of bits. */
  function DecodeBits(s: seq<bool>): (r: Config)
    ensures r.objType < 96 && r.objType != TYPE_ESCAPE && r.channels < 16 && r.sampleRate < 0x100_0000
  {
    SmallPowers();
    var (objType, k) := DecodeType(s);
    var (freqIdx, sampleRate, k') := DecodeRate(s, k);
    Config(objType, freqIdx, Field(s, k', 4), sampleRate)
  }

  method ReadType(rd: Reader) returns (objType: nat)
    requires rd.Valid() && rd.k == 0
    modifies rd
    ensures rd.Valid() && (objType, rd.k) == DecodeType(Unpack(rd.buf))
  {
    objType := rd.ReadBits(5);
    if objType == 31 {
      var ext := rd.ReadBits(6);
      objType := 32 + ext;
    }
  }

  method ReadRate(rd: Reader) returns (freqIdx: nat, sampleRate: nat)
    requires rd.Valid()
    modifies rd
    ensures rd.Valid() && (freqIdx, sampleRate, rd.k) == DecodeRate(Unpack(rd.buf), old(rd.k))
  {
    SmallPowers();
    freqIdx := rd.ReadBits(4);
    if freqIdx == 15 {
      sampleRate := rd.ReadBits(24);
    } else {
      sampleRate := SAMPLE_RATES[freqIdx];
    }
  }

  method DecodeConfig(b: seq<byte>) returns (r: Config)
    ensures r == DecodeBits(Unpack(b))
  {
    var rd := new Reader(b);
    var objType := ReadType(rd);
    var freqIdx, sampleRate := ReadRate(rd);
    var channels := rd.ReadBits(4);
    SmallPowers();
    r := Config(objType, freqIdx, channels, sampleRate);
  }

  /** A field can be read equally before and after packing into bytes. */
  lemma {:induction false} FieldPacked(s: seq<bool>, k: nat, n: nat)
    ensures Field(Unpack(Pack(s)), k, n) == Field(s, k, n)
  {
    if n != 0 {
      FieldPacked(s, k, n - 1);
      UnpackPack(s);
    }
  }

  lemma DecodePacked(s: seq<bool>)
    ensures DecodeBits(Unpack(Pack(s))) == DecodeBits(s)
  {
    FieldPacked(s, 0, 5);
    FieldPacked(s, 5, 6);
    var k := DecodeType(s).1;
    FieldPacked(s, k, 4);
    FieldPacked(s, k + 4, 24);
    FieldPacked(s, DecodeRate(s, k).2, 4);
  }

  /** A number that fits its field is read where it was written. */
  lemma WrittenAt(head: seq<bool>, v: nat, n: nat, rest: seq<bool>)
    requires v < Pow2(n)
    ensures Field(head + ToBits(v, n) + rest, |head|, n) == v
  {
    var s := head + ToBits(v, n) + rest;
    assert s[|head|..|head| + n] == ToBits(v, n);
    FieldWritten(s, |head|, v, n);
  }

  lemma RegroupFour<T>(a: seq<T>, b: seq<T>, c: seq<T>, d: seq<T>)
    ensures a + b + c + d == a + (b + c + d)
    ensures a + b + c + d == a + b + (c + d)
    ensures a + b + c + d == a + (b + c) + d
  {
  }

  lemma WrittenFirst(head: seq<bool>, u: nat, m: nat, b: seq<bool>, rest: seq<bool>)
    requires u < Pow2(m)
    ensures Field(head + (ToBits(u, m) + b) + rest, |head|, m) == u
  {
    RegroupFour(head, ToBits(u, m), b, rest);
    WrittenAt(head, u, m, b + rest);
  }

  lemma WrittenSecond(head: seq<bool>, a: seq<bool>, v: nat, n: nat, rest: seq<bool>)
    requires v < Pow2(n)
    ensures Field(head + (a + ToBits(v, n)) + rest, |head| + |a|, n) == v
  {
    RegroupFour(head, a, ToBits(v, n), rest);
    WrittenAt(head + a, v, n, rest);
  }

  lemma ShortTypeField(objType: nat, rest: seq<bool>)
    requires objType < 32
    ensures Field(ToBits(objType, 5) + rest, 0, 5) == objType
  {
    SmallPowers();
    assert [] + ToBits(objType, 5) + rest == ToBits(objType, 5) + rest;
    WrittenAt([], objType, 5, rest);
  }

  lemma LongTypeFields(ext: nat, rest: seq<bool>)
    requires ext < 64
    ensures var s := ToBits(TYPE_ESCAPE, 5) + ToBits(ext, 6) + rest; Field(s, 0, 5) == 31 && Field(s, 5, 6) == ext
  {
    SmallPowers();
    var t, e := ToBits(TYPE_ESCAPE, 5), ToBits(ext, 6);
    assert [] + (t + e) + rest == t + e + rest;
    WrittenFirst([], TYPE_ESCAPE, 5, e, rest);
    WrittenSecond([], t, ext, 6, rest);
  }

  lemma TypeRoundTrip(objType: byte, rest: seq<bool>)
    requires objType < 96 && objType != TYPE_ESCAPE
    ensures DecodeType(TypeBits(objType) + rest) == (objType, |TypeBits(objType)|)
  {
    if objType < TYPE_ESCAPE {
      ShortTypeField(objType, rest);
    } else {
      assert (objType + 224) % 256 == objType - 32;
      LongTypeFields(objType - 32, rest);
    }
  }

  lemma RateRoundTrip(head: seq<bool>, sampleRate: uint32, rest: seq<bool>)
    requires sampleRate < 0x100_0000
    ensures var r := DecodeRate(head + RateBits(sampleRate) + rest, |head|);
            r.1 == sampleRate && r.2 == |head| + |RateBits(sampleRate)|
  {
    SmallPowers();
    var i := IndexFrom(SAMPLE_RATES, sampleRate, 0);
    if i >= 0 {
      FirstIndex(SAMPLE_RATES, sampleRate, 13, 15);
      WrittenAt(head, i, 4, rest);
    } else {
      WrittenFirst(head, 0xF, 4, ToBits(sampleRate, 24), rest);
      WrittenSecond(head, ToBits(0xF, 4), sampleRate, 24, rest);
    }
  }

  lemma {:induction false} FirstIndexIsFirst(s: seq<nat>, v: nat, i: nat, j: nat)
    requires i <= j < |s| && s[j] == v
    ensures 0 <= IndexFrom(s, v, i) <= j
    decreases j - i
  {
    if s[i] != v {
      FirstIndexIsFirst(s, v, i + 1, j);
    }
  }

  /** The index of a repeated entry is never found. */
  lemma FirstIndex(s: seq<nat>, v: nat, j: nat, k: nat)
    requires j < k < |s| && s[j] == s[k]
    ensures IndexFrom(s, v, 0) != k
  {
    if s[j] == v {
      FirstIndexIsFirst(s, v, 0, j);
    }
  }

  lemma ConfigReadsBack(objType: byte, sampleRate: uint32, channels: byte, shortFrame: bool)
    requires objType < 96 && objType != TYPE_ESCAPE && sampleRate < 0x100_0000 && channels < 16
    ensures var r := DecodeBits(ConfigBits(objType, sampleRate, channels, shortFrame));
            r.objType == objType && r.sampleRate == sampleRate && r.channels == channels
  {
    SmallPowers();
    var t, r, x := TypeBits(objType), RateBits(sampleRate), ExtraBits(objType, shortFrame);
    RegroupFour(t, r, ToBits(channels, 4), x);
    TypeRoundTrip(objType, r + ToBits(channels, 4) + x);
    RateRoundTrip(t, sampleRate, ToBits(channels, 4) + x);
    WrittenAt(t + r, channels, 4, x);
  }

  /** A configuration survives encoding and decoding exactly when its object type,
      sample rate and channel count fit their fields. */
  lemma ConfigRoundTrip(objType: byte, sampleRate: uint32, channels: byte, shortFrame: bool)
    ensures var r := DecodeBits(Unpack(Pack(ConfigBits(objType, sampleRate, channels, shortFrame))));
            (r.objType == objType && r.sampleRate == sampleRate && r.channels == channels)
            <==> (objType < 96 && objType != TYPE_ESCAPE && sampleRate < 0x100_0000 && channels < 16)
  {
    DecodePacked(ConfigBits(objType, sampleRate, channels, shortFrame));
    if objType < 96 && objType != TYPE_ESCAPE && sampleRate < 0x100_0000 && channels < 16 {
      ConfigReadsBack(objType, sampleRate, channels, shortFrame);
    }
  }
}
