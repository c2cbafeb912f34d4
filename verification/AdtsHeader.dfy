/** Converting between a codec's configuration and an ADTS header. */
module AdtsHeader {
  import opened Wrappers
  import opened Bits
  import opened AacConfig
  import opened Adts

  /** The part of a codec that the conversion keeps: its rate, its channels and the
      bytes of its configuration. */
  datatype Codec = Codec(clockRate: uint32, channels: byte, conf: seq<byte>)

  /** Syncword, version, layer and protection: sixteen fixed bits. */
  function SyncBits(): seq<bool> {
    Repeat(true, 12) + [false] + Repeat(false, 2) + [true]
  }

  /** Followed by the fields that vary. */
  function FieldBits(profile: byte, freqIdx: byte, channels: byte): seq<bool> {
    SyncBits() + ToBits(profile, 2) + ToBits(freqIdx, 4) + [false] + ToBits(channels, 3)
  }

  /** Followed by four flags, an empty frame length, the fullness and the count. */
  function HeaderBits(profile: byte, freqIdx: byte, channels: byte): seq<bool> {
    FieldBits(profile, freqIdx, channels) + Repeat(false, 4) + Repeat(false, 13) + Repeat(true, 11) + Repeat(false, 2)
  }

  function HeaderOf(c: Config): seq<byte> {
    Pack(HeaderBits((c.objType + 255) % 256, c.freqIdx, c.channels))
  }

  method WriteZeros(wr: Writer, n: nat)
    requires wr.Valid()
    modifies wr
    ensures wr.Valid() && wr.content == old(wr.content) + Repeat(false, n)
  {
    ZeroBits(n);
    wr.WriteBits(0, n);
  }

  method WriteSync(wr: Writer)
    requires wr.Valid() && wr.content == []
    modifies wr
    ensures wr.Valid() && wr.content == SyncBits()
  {
    wr.WriteAllBits(true, 12);
    wr.WriteBit(false);
    WriteZeros(wr, 2);
    wr.WriteBit(true);
  }

  method WriteTail(wr: Writer)
    requires wr.Valid()
    modifies wr
    ensures wr.Valid()
    ensures wr.content == old(wr.content) + Repeat(false, 4) + Repeat(false, 13) + Repeat(true, 11) + Repeat(false, 2)
  {
    ghost var head := wr.content;
    wr.WriteBit(false);
    wr.WriteBit(false);
    wr.WriteBit(false);
    wr.WriteBit(false);
    assert wr.content == head + Repeat(false, 4);
    WriteZeros(wr, 13);
    wr.WriteAllBits(true, 11);
    WriteZeros(wr, 2);
  }

  /** The header of a codec, its frame length still zero. */
  method CodecToADTS(conf: seq<byte>) returns (h: seq<byte>)
    ensures h == HeaderOf(DecodeBits(Unpack(conf)))
  {
    var c := DecodeConfig(conf);
    var profile := (c.objType + 255) % 256;
    var wr := new Writer();
    WriteSync(wr);
    wr.WriteBits(profile, 2);
    wr.WriteBits(c.freqIdx, 4);
    wr.WriteBit(false);
    wr.WriteBits(c.channels, 3);
    WriteTail(wr);
    h := wr.buf;
  }

  /** The configuration of a codec with these header fields. */
  function ConfOf(profile: nat, freqIdx: nat, channels: nat): seq<byte> {
    Pack(ToBits(profile + 1, 5) + ToBits(freqIdx, 4) + ToBits(channels, 4))
  }

  datatype Fields = Fields(profile: nat, freqIdx: nat, channels: nat)

  /** The fields of a header that vary. */
  function FieldsOf(b: seq<byte>): (r: Fields)
    ensures r.profile < 4 && r.freqIdx < 16 && r.channels < 8
  {
    SmallPowers();
    Fields(Field(Unpack(b), 16, 2), Field(Unpack(b), 18, 4), Field(Unpack(b), 23, 3))
  }

  function RateAt(freqIdx: nat): uint32
    requires freqIdx < 16
  {
    SAMPLE_RATES[freqIdx]
  }

  function CodecOf(b: seq<byte>): Option<Codec> {
    if !IsADTS(b) then None
    else
      var f := FieldsOf(b);
      Some(Codec(RateAt(f.freqIdx), f.channels, ConfOf(f.profile, f.freqIdx, f.channels)))
  }

  method ADTSToCodec(b: seq<byte>) returns (r: Option<Codec>)
    ensures r == CodecOf(b)
  {
    if !IsADTS(b) {
      return None;
    }
    var rd := new Reader(b);
    SkipSync(rd);
    var f := ReadFields(rd);
    var conf := WriteConf(f.profile, f.freqIdx, f.channels);
    r := Some(Codec(RateAt(f.freqIdx), f.channels, conf));
  }

  method SkipSync(rd: Reader)
    requires rd.Valid()
    modifies rd
    ensures rd.Valid() && rd.k == old(rd.k) + 16
  {
    var _ := rd.ReadBits(12);
    var _ := rd.ReadBit();
    var _ := rd.ReadBits(2);
    var _ := rd.ReadBit();
  }

  method ReadFields(rd: Reader) returns (f: Fields)
    requires rd.Valid() && rd.k == 16
    modifies rd
    ensures rd.Valid() && f == FieldsOf(rd.buf)
  {
    var profile := rd.ReadBits(2);
    var freqIdx := rd.ReadBits(4);
    var _ := rd.ReadBit();
    var channels := rd.ReadBits(3);
    f := Fields(profile, freqIdx, channels);
  }

  method WriteConf(profile: nat, freqIdx: nat, channels: nat) returns (conf: seq<byte>)
    ensures conf == ConfOf(profile, freqIdx, channels)
  {
    var wr := new Writer();
    wr.WriteBits(profile + 1, 5);
    assert wr.content == ToBits(profile + 1, 5);
    wr.WriteBits(freqIdx, 4);
    wr.WriteBits(channels, 4);
    conf := wr.buf;
  }

  // ------------------------------------------------------------ bits of the header

  /** What is fixed about a header without a frame length, bit by bit. */
  ghost predicate HeaderShape(s: seq<bool>) {
    && |s| == 56
    && (forall k :: 0 <= k < 12 ==> s[k])
    && (forall k :: 12 <= k < 15 ==> !s[k]) && s[15]
    && (forall k :: 26 <= k < 43 ==> !s[k])
  }

  lemma HeaderHasShape(profile: byte, freqIdx: byte, channels: byte)
    ensures HeaderShape(HeaderBits(profile, freqIdx, channels))
  {
    var f := FieldBits(profile, freqIdx, channels);
    assert |f| == 26;
    assert f[..16] == SyncBits();
    var s := HeaderBits(profile, freqIdx, channels);
    assert s[..26] == f;
    assert forall k :: 0 <= k < 16 ==> s[k] == f[..16][k];
  }

  /** A field of ones, and a field of zeros. */
  lemma {:induction false} FieldOfOnes(s: seq<bool>, k: nat, n: nat)
    requires k + n <= |s| && forall i :: k <= i < k + n ==> s[i]
    ensures Field(s, k, n) == Pow2(n) - 1
  {
    if n != 0 {
      FieldOfOnes(s, k, n - 1);
    }
  }

  lemma {:induction false} FieldOfZeros(s: seq<bool>, k: nat, n: nat)
    requires forall i :: k <= i < k + n ==> !At(s, i)
    ensures Field(s, k, n) == 0
  {
    if n != 0 {
      FieldOfZeros(s, k, n - 1);
    }
  }

  lemma {:induction false} FieldSplit(s: seq<bool>, k: nat, m: nat, n: nat)
    ensures Field(s, k, m + n) == Field(s, k, m) * Pow2(n) + Field(s, k + m, n)
  {
    if n != 0 {
      FieldSplit(s, k, m, n - 1);
      DoubleProduct(Field(s, k, m), Pow2(n - 1));
    }
  }

  lemma DoubleProduct(x: nat, p: nat)
    ensures 2 * (x * p) == x * (2 * p)
  {
  }

  lemma SyncBytes(s: seq<bool>)
    requires HeaderShape(s)
    ensures Field(s, 0, 8) == 255 && Field(s, 8, 8) == 241
  {
    SmallPowers();
    FieldOfOnes(s, 0, 8);
    FieldOfOnes(s, 8, 4);
    FieldOfZeros(s, 12, 3);
    FieldSplit(s, 8, 4, 3);
    assert Field(s, 8, 7) == 120;
    assert Field(s, 8, 8) == 2 * Field(s, 8, 7) + (if At(s, 15) then 1 else 0);
  }

  lemma LengthBytes(s: seq<bool>)
    requires HeaderShape(s)
    ensures Field(s, 24, 8) % 4 == 0 && Field(s, 32, 8) == 0 && Field(s, 40, 8) < 32
  {
    SmallPowers();
    FieldOfZeros(s, 30, 2);
    FieldSplit(s, 24, 6, 2);
    FieldOfZeros(s, 32, 8);
    FieldOfZeros(s, 40, 3);
    FieldSplit(s, 40, 3, 5);
  }

  /** Without a frame length, a header is recognised and has no checksum. */
  lemma HeaderBytes(profile: byte, freqIdx: byte, channels: byte)
    ensures var h := Pack(HeaderBits(profile, freqIdx, channels));
            |h| == HEADER_SIZE && IsADTS(h) && !HasCRC(h) && Unsized(h)
  {
    var s := HeaderBits(profile, freqIdx, channels);
    HeaderHasShape(profile, freqIdx, channels);
    SyncBytes(s);
    LengthBytes(s);
  }

  // ------------------------------------------------------------------- round trips

  /** The fields of a header are read back, cut to their widths. */
  lemma HeaderFields(profile: byte, freqIdx: byte, channels: byte)
    ensures var s := HeaderBits(profile, freqIdx, channels);
            && Field(s, 16, 2) == Low(profile, 2) && Field(s, 18, 4) == Low(freqIdx, 4)
            && Field(s, 23, 3) == Low(channels, 3)
  {
    var s := HeaderBits(profile, freqIdx, channels);
    var f := FieldBits(profile, freqIdx, channels);
    assert s[..26] == f;
    assert f[16..18] == ToBits(profile, 2);
    assert f[18..22] == ToBits(freqIdx, 4);
    assert f[23..26] == ToBits(channels, 3);
    assert s[16..18] == f[16..18] && s[18..22] == f[18..22] && s[23..26] == f[23..26];
    FieldWritten(s, 16, profile, 2);
    FieldWritten(s, 18, freqIdx, 4);
    FieldWritten(s, 23, channels, 3);
  }

  /** What a codec read from a header has as its configuration. */
  lemma ConfReadsBack(profile: nat, freqIdx: nat, channels: nat)
    requires profile < 4 && freqIdx < 16 && channels < 8
    ensures var c := DecodeBits(Unpack(ConfOf(profile, freqIdx, channels)));
            && c.objType == profile + 1 && c.freqIdx == freqIdx
            && c.channels == if freqIdx < 15 then channels else 0
  {
    SmallPowers();
    var t, r, x := ToBits(profile + 1, 5), ToBits(freqIdx, 4), ToBits(channels, 4);
    var s := t + r + x;
    DecodePacked(s);
    assert Field(s, 0, 5) == profile + 1 by {
      WrittenAt([], profile + 1, 5, r + x);
      RegroupFour([], t, r, x);
      assert [] + t + r + x == s;
    }
    assert Field(s, 5, 4) == freqIdx by { WrittenAt(t, freqIdx, 4, x); }
    if freqIdx < 15 {
      WrittenAt(t + r, channels, 4, []);
      assert s + [] == s;
    } else {
      FieldBeyondEnd(s, 33, 4);
    }
  }

  /** The header of a codec that was itself read from a header. */
  function Rewritten(h: seq<byte>): seq<byte>
    requires IsADTS(h)
  {
    HeaderOf(DecodeBits(Unpack(CodecOf(h).value.conf)))
  }

  lemma WrittenFields(p: nat, f: nat, c: nat)
    requires p < 4 && f < 16 && c < 8
    ensures FieldsOf(Pack(HeaderBits(p, f, c))) == Fields(p, f, c)
  {
    SmallPowers();
    HeaderFields(p, f, c);
    FromToBits(p, 2);
    FromToBits(f, 4);
    FromToBits(c, 3);
    var b := HeaderBits(p, f, c);
    FieldPacked(b, 16, 2);
    FieldPacked(b, 18, 4);
    FieldPacked(b, 23, 3);
  }

  /** The header of a codec with such a configuration. */
  lemma HeaderOfConf(profile: nat, freqIdx: nat, channels: nat)
    requires profile < 4 && freqIdx < 16 && channels < 8
    ensures HeaderOf(DecodeBits(Unpack(ConfOf(profile, freqIdx, channels)))) ==
            Pack(HeaderBits(profile, freqIdx, if freqIdx < 15 then channels else 0))
  {
    ConfReadsBack(profile, freqIdx, channels);
    assert (profile + 1 + 255) % 256 == profile;
  }

  lemma RewrittenIs(h: seq<byte>)
    requires IsADTS(h)
    ensures var f := FieldsOf(h);
            Rewritten(h) == Pack(HeaderBits(f.profile, f.freqIdx, if f.freqIdx < 15 then f.channels else 0))
  {
    var f := FieldsOf(h);
    HeaderOfConf(f.profile, f.freqIdx, f.channels);
  }

  /** Going from a header to a codec and back keeps profile and frequency index, and
      keeps the channels exactly when the index is not the escape value, or there
      were none. */
  lemma HeaderRoundTrip(h: seq<byte>)
    requires IsADTS(h)
    ensures var f, f' := FieldsOf(h), FieldsOf(Rewritten(h));
            && IsADTS(Rewritten(h)) && Unsized(Rewritten(h))
            && f'.profile == f.profile && f'.freqIdx == f.freqIdx
            && (f'.channels == f.channels <==> f.freqIdx < 15 || f.channels == 0)
  {
    var f := FieldsOf(h);
    var c := if f.freqIdx < 15 then f.channels else 0;
    RewrittenIs(h);
    HeaderBytes(f.profile, f.freqIdx, c);
    WrittenFields(f.profile, f.freqIdx, c);
  }
}
