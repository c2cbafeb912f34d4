/** AAC in RTP packets (sections 3.2.1 and 3.3.6 of RFC 3640) and in ADTS streams: a
    packet starts with the size of its header section in bits, then one 16-bit
    header per unit with the unit's size in bits above three index bits, then the
    units themselves. */
module AacRtp {
  import opened Seqs
  import opened Wrappers
  import opened Bits
  import opened Adts

  const WRAP32 := 0x1_0000_0000

  /** A unit handed on, with its timestamp. */
  datatype Unit = Unit(payload: seq<byte>, timestamp: nat)

  function Payloads(us: seq<Unit>): (r: seq<seq<byte>>)
    ensures |r| == |us| && forall i :: 0 <= i < |us| ==> r[i] == us[i].payload
  {
    seq(|us|, i requires 0 <= i < |us| => us[i].payload)
  }

  function U16(b: seq<byte>): (r: uint16)
    requires |b| >= 2
  {
    var high: nat, low: nat := b[0], b[1];
    high * 256 + low
  }

  /** A 16-bit number as two bytes. */
  function Bytes16(v: nat): (r: seq<byte>)
    ensures |r| == 2
  {
    [v / 256 % 256, v % 256]
  }

  // ------------------------------------------------------------------- EncodeToADTS

  /** A payload behind its own header; one that has a header is left alone. */
  function Framed(h: seq<byte>, p: seq<byte>): seq<byte>
    requires |h| == HEADER_SIZE
  {
    if IsADTS(p) then p else SizeWritten(h + p, (HEADER_SIZE + |p|) % 65536)
  }

  /** As the code does it: a buffer, two copies, and the size or-ed in. */
  method EncodeToADTS(h: seq<byte>, p: seq<byte>) returns (r: seq<byte>)
    requires |h| == HEADER_SIZE
    ensures r == Framed(h, p)
  {
    if IsADTS(p) {
      return p;
    }
    var b := new byte[HEADER_SIZE + |p|](i requires 0 <= i < HEADER_SIZE + |p| => (h + p)[i]);
    assert b[..] == h + p;
    WriteSize(b, (HEADER_SIZE + |p|) % 65536);
    r := b[..];
  }

  /** A header that `CodecToADTS` returns. */
  predicate GoodHeader(h: seq<byte>) {
    |h| == HEADER_SIZE && IsADTS(h) && !HasCRC(h) && Unsized(h)
  }

  /** A whole ADTS frame that says how long it is. */
  predicate WellFormed(f: seq<byte>) {
    IsADTS(f) && ReadSize(f) == |f|
  }

  lemma SizedIsWellFormed(b: seq<byte>)
    requires Unsized(b) && IsADTS(b) && !HasCRC(b) && |b| < 8192
    ensures var w := SizeWritten(b, |b|); WellFormed(w) && !HasCRC(w) && w[6..] == b[6..]
  {
    SizeRoundTrip(b, |b|);
  }

  lemma FramedIs(h: seq<byte>, p: seq<byte>)
    requires |h| == HEADER_SIZE && !IsADTS(p) && |p| <= 8184
    ensures |h + p| < 8192 && Framed(h, p) == SizeWritten(h + p, |h + p|)
  {
    var n := HEADER_SIZE + |p|;
    assert n % 65536 == n && |h + p| == n;
  }

  lemma FramedIsWellFormed(h: seq<byte>, p: seq<byte>)
    requires GoodHeader(h) && !IsADTS(p) && |p| <= 8184
    ensures var f := Framed(h, p);
            WellFormed(f) && !HasCRC(f) && |f| == HEADER_SIZE + |p| && f[HEADER_SIZE..] == p
  {
    var b := h + p;
    HeaderFirst(h, p);
    SizedIsWellFormed(b);
    FramedIs(h, p);
    TailKept(b, SizeWritten(b, |b|), p);
  }

  lemma HeaderFirst(h: seq<byte>, p: seq<byte>)
    requires GoodHeader(h)
    ensures var b := h + p; Unsized(b) && IsADTS(b) && !HasCRC(b) && b[HEADER_SIZE..] == p
  {
    var b := h + p;
    assert b[0] == h[0] && b[1] == h[1] && b[3] == h[3] && b[4] == h[4] && b[5] == h[5];
  }

  lemma TailKept(b: seq<byte>, w: seq<byte>, p: seq<byte>)
    requires |b| == HEADER_SIZE + |p| == |w| && b[HEADER_SIZE..] == p && w[6..] == b[6..]
    ensures w[HEADER_SIZE..] == p
  {
    assert w[HEADER_SIZE..] == w[6..][1..];
    assert b[HEADER_SIZE..] == b[6..][1..];
  }

  // ------------------------------------------------------------------------ RTPDepay

  function Strip(unit: seq<byte>): seq<byte> {
    if IsADTS(unit) then unit[HEADER_SIZE..] else unit
  }

  /** The units that the headers announce, until one is incomplete. */
  function DepayUnits(headers: seq<byte>, units: seq<byte>, ts: nat): (r: (seq<Unit>, nat))
    ensures |r.0| <= |headers| / 2
    decreases |headers|
  {
    if |headers| < 2 then ([], ts)
    else
      var size := U16(headers) / 8;
      if |units| < size then ([], ts)
      else
        var ts' := (ts + AU_TIME) % WRAP32;
        var (rest, end) := DepayUnits(headers[2..], units[size..], ts');
        ([Unit(Strip(units[..size]), ts')] + rest, end)
  }

  /** What one packet is turned into, and the clock afterwards. */
  function Depayed(payload: seq<byte>, ts: nat): (seq<Unit>, nat)
    requires |payload| >= 2
  {
    var n := U16(payload) / 8;
    if |payload| < 2 + n then
      (if IsADTS(payload) then [Unit(payload[HEADER_SIZE..], ts)] else [], ts)
    else DepayUnits(payload[2..2 + n], payload[2 + n..], ts)
  }

  /** The closure that `RTPDepay` returns. */
  class Depay {
    var timestamp: nat

    constructor ()
      ensures timestamp == 0
    {
      timestamp := 0;
    }

    /** Handles one packet. The code reads its first two bytes unchecked. */
    method Handle(payload: seq<byte>) returns (out: seq<Unit>)
      requires |payload| >= 2
      modifies this
      ensures (out, timestamp) == Depayed(payload, old(timestamp))
    {
      out := [];
      var n := U16(payload) / 8;
      if |payload| < 2 + n {
        if IsADTS(payload) {
          out := [Unit(payload[HEADER_SIZE..], timestamp)];
        }
        return;
      }
      var headers := payload[2..2 + n];
      var units := payload[2 + n..];
      ghost var whole := Depayed(payload, timestamp);
      while |headers| >= 2
        invariant whole.0 == out + DepayUnits(headers, units, timestamp).0
        invariant whole.1 == DepayUnits(headers, units, timestamp).1
        decreases |headers|
      {
        var size := U16(headers) / 8;
        if |units| < size {
          assert out + [] == out;
          return;
        }
        var unit := units[..size];
        headers := headers[2..];
        units := units[size..];
        timestamp := (timestamp + AU_TIME) % WRAP32;
        var next := Unit(Strip(unit), timestamp);
        Regroup(out, [next], DepayUnits(headers, units, timestamp).0);
        out := out + [next];
      }
      assert out + [] == out;
    }
  }

  // --------------------------------------------------------------------- packet form

  /** The header of a unit: its size in bits, as 16 bits. */
  function UnitHeader(size: nat): (r: seq<byte>)
    ensures |r| == 2
  {
    [size / 32 % 256, size * 8 % 256]
  }

  function UnitHeaders(us: seq<seq<byte>>): (r: seq<byte>)
    ensures |r| == 2 * |us|
  {
    if us == [] then [] else UnitHeader(|us[0]|) + UnitHeaders(us[1..])
  }

  lemma UnitHeaderSize(size: nat)
    ensures U16(UnitHeader(size)) / 8 == size % 8192
  {
    var q, r := size / 8192, size % 8192;
    assert size / 32 == 256 * q + r / 32;
    assert size / 32 % 256 == r / 32;
    assert size * 8 == 256 * (256 * q + r / 32) + r % 32 * 8;
    assert size * 8 % 256 == r % 32 * 8;
  }

  /** A packet with these headers and units, as 16 bits allow. */
  function Packet(headers: seq<byte>, units: seq<byte>): (r: seq<byte>)
    ensures |r| >= 2
  {
    Bytes16(|headers| % 65536 * 8 % 65536) + headers + units
  }

  lemma TwoBytes(v: nat, rest: seq<byte>)
    requires v < 65536
    ensures U16(Bytes16(v) + rest) == v
  {
  }

  lemma ThreeParts(a: seq<byte>, b: seq<byte>, c: seq<byte>)
    ensures (a + b + c)[|a|..|a| + |b|] == b && (a + b + c)[|a| + |b|..] == c
  {
  }

  lemma PacketOpens(headers: seq<byte>, units: seq<byte>)
    requires |headers| < 8192
    ensures var p := Packet(headers, units);
            U16(p) / 8 == |headers| && p[2..2 + |headers|] == headers && p[2 + |headers|..] == units
  {
    var bits := |headers| * 8;
    assert |headers| % 65536 * 8 % 65536 == bits;
    Regroup(Bytes16(bits), headers, units);
    TwoBytes(bits, headers + units);
    ThreeParts(Bytes16(bits), headers, units);
  }

  /** The units as they are handed on: headers stripped, 1024 ticks apart. */
  function Handed(us: seq<seq<byte>>, ts: nat): (r: seq<Unit>)
    ensures |r| == |us|
  {
    if us == [] then []
    else
      var ts' := (ts + AU_TIME) % WRAP32;
      [Unit(Strip(us[0]), ts')] + Handed(us[1..], ts')
  }

  lemma WrapStep(x: nat, y: nat)
    ensures (x % WRAP32 + y) % WRAP32 == (x + y) % WRAP32
  {
    var q := x / WRAP32;
    assert x == q * WRAP32 + x % WRAP32;
  }

  lemma {:induction false} HandedAt(us: seq<seq<byte>>, ts: nat, i: nat)
    requires i < |us|
    ensures Handed(us, ts)[i] == Unit(Strip(us[i]), (ts + AU_TIME * (i + 1)) % WRAP32)
  {
    if i != 0 {
      HandedAt(us[1..], (ts + AU_TIME) % WRAP32, i - 1);
      WrapStep(ts + AU_TIME, AU_TIME * i);
    }
  }

  /** All announced units arrive when they are all there. */
  lemma {:induction false} DepayAll(us: seq<seq<byte>>, tail: seq<byte>, ts: nat)
    requires forall i :: 0 <= i < |us| ==> |us[i]| < 8192
    ensures DepayUnits(UnitHeaders(us), Concat(us) + tail, ts).0 == Handed(us, ts)
  {
    if us != [] {
      FirstUnit(us, tail);
      DepayAll(us[1..], tail, (ts + AU_TIME) % WRAP32);
    }
  }

  /** The first header and the first unit of a packet. */
  lemma FirstUnit(us: seq<seq<byte>>, tail: seq<byte>)
    requires us != [] && |us[0]| < 8192
    ensures var headers, units, n := UnitHeaders(us), Concat(us) + tail, |us[0]|;
            && U16(headers) / 8 == n && headers[2..] == UnitHeaders(us[1..])
            && |units| >= n && units[..n] == us[0] && units[n..] == Concat(us[1..]) + tail
  {
    UnitHeaderSize(|us[0]|);
    var units := Concat(us) + tail;
    Regroup(us[0], Concat(us[1..]), tail);
    assert units == us[0] + (Concat(us[1..]) + tail);
  }

  // ----------------------------------------------------------------------- ADTStoRTP

  /** The unit headers for an ADTS stream from offset `i` on. A frame that says its
      length is zero never ends the loop. */
  function SizeHeaders(src: seq<byte>, i: nat): (r: Option<seq<byte>>)
    decreases |src| - i
  {
    if i >= |src| - HEADER_SIZE then Some([])
    else
      var size := ReadSize(src[i..]);
      if size == 0 then None
      else match SizeHeaders(src, i + size)
        case None => None
        case Some(rest) => Some(UnitHeader(size) + rest)
  }

  /** The packet for an ADTS stream; `None` stands for a call that does not return. */
  function AdtsToRtp(src: seq<byte>): Option<seq<byte>> {
    match SizeHeaders(src, 0)
    case None => None
    case Some(headers) => Some(Packet(headers, src))
  }

  method ADTStoRTP(src: seq<byte>) returns (dst: Option<seq<byte>>)
    ensures dst == AdtsToRtp(src)
  {
    var headers := [];
    var i := 0;
    while i < |src| - HEADER_SIZE
      invariant 0 <= i
      invariant SizeHeaders(src, 0).None? <==> SizeHeaders(src, i).None?
      invariant SizeHeaders(src, i).Some? ==> SizeHeaders(src, 0).value == headers + SizeHeaders(src, i).value
      decreases |src| - i
    {
      var size := ReadSize(src[i..]);
      if size == 0 {
        return None;
      }
      if SizeHeaders(src, i + size).Some? {
        Regroup(headers, UnitHeader(size), SizeHeaders(src, i + size).value);
      }
      headers := headers + UnitHeader(size);
      i := i + size;
    }
    assert headers + [] == headers;
    return Some(Packet(headers, src));
  }

  /** The frames whose headers are found: all but a last one without payload. */
  function Listed(fs: seq<seq<byte>>): (r: seq<seq<byte>>)
    ensures |r| <= |fs|
  {
    if fs != [] && |fs[|fs| - 1]| == HEADER_SIZE then fs[..|fs| - 1] else fs
  }

  ghost predicate AllWellFormed(fs: seq<seq<byte>>) {
    forall i :: 0 <= i < |fs| ==> WellFormed(fs[i])
  }

  lemma {:induction false} ConcatLength(fs: seq<seq<byte>>)
    requires AllWellFormed(fs)
    ensures |Concat(fs)| >= HEADER_SIZE * |fs|
  {
    if fs != [] {
      ConcatLength(fs[1..]);
    }
  }

  /** The size of the frame that stands at `i`. */
  lemma SizeAt(src: seq<byte>, i: nat, f: seq<byte>)
    requires WellFormed(f) && i + |f| <= |src| && src[i..i + |f|] == f
    ensures ReadSize(src[i..]) == |f|
  {
    var g := src[i..];
    assert g[3] == f[3] && g[4] == f[4] && g[5] == f[5];
  }

  /** One round of the loop, at a frame. */
  lemma HeaderAt(src: seq<byte>, i: nat, f: seq<byte>)
    requires WellFormed(f) && i + |f| <= |src| && i < |src| - HEADER_SIZE && src[i..i + |f|] == f
    ensures SizeHeaders(src, i) == match SizeHeaders(src, i + |f|)
                                   case None => None
                                   case Some(rest) => Some(UnitHeader(|f|) + rest)
  {
    SizeAt(src, i, f);
  }

  lemma ListedStep(fs: seq<seq<byte>>)
    requires fs != [] && AllWellFormed(fs)
    ensures Listed(fs) == if |fs| == 1 && |fs[0]| == HEADER_SIZE then [] else [fs[0]] + Listed(fs[1..])
  {
  }

  lemma NextFrame(src: seq<byte>, i: nat, f: seq<byte>, rest: seq<byte>)
    requires i <= |src| && src[i..] == f + rest
    ensures i + |f| <= |src| && src[i..i + |f|] == f && src[i + |f|..] == rest
  {
    assert src[i..][..|f|] == f && src[i..][|f|..] == rest;
  }

  lemma HeadersBefore(f: seq<byte>, us: seq<seq<byte>>)
    ensures UnitHeaders([f] + us) == UnitHeader(|f|) + UnitHeaders(us)
  {
    assert ([f] + us)[1..] == us;
  }

  lemma FirstHeader(src: seq<byte>, i: nat, f: seq<byte>, us: seq<seq<byte>>)
    requires WellFormed(f) && i + |f| <= |src| && src[i..i + |f|] == f && i < |src| - HEADER_SIZE
    requires SizeHeaders(src, i + |f|) == Some(UnitHeaders(us))
    ensures SizeHeaders(src, i) == Some(UnitHeaders([f] + us))
  {
    HeaderAt(src, i, f);
    HeadersBefore(f, us);
  }

  /** The loop finds the headers of a stream of well-formed frames. */
  lemma {:induction false} HeadersFound(src: seq<byte>, i: nat, fs: seq<seq<byte>>)
    requires AllWellFormed(fs) && i <= |src| && src[i..] == Concat(fs)
    ensures SizeHeaders(src, i) == Some(UnitHeaders(Listed(fs)))
    decreases |fs|
  {
    if fs != [] {
      var f := fs[0];
      ConcatLength(fs[1..]);
      NextFrame(src, i, f, Concat(fs[1..]));
      if |fs| > 1 || |f| != HEADER_SIZE {
        HeadersFound(src, i + |f|, fs[1..]);
        FirstHeader(src, i, f, Listed(fs[1..]));
      }
      ListedStep(fs);
    }
  }

  /** Packing a stream of well-formed frames. */
  lemma PackedStream(fs: seq<seq<byte>>)
    requires AllWellFormed(fs)
    ensures AdtsToRtp(Concat(fs)) == Some(Packet(UnitHeaders(Listed(fs)), Concat(fs)))
  {
    HeadersFound(Concat(fs), 0, fs);
  }

  /** Unpacking such a packet hands on the frames that were found, if their headers
      fit a packet. */
  lemma UnpackedStream(fs: seq<seq<byte>>, ts: nat)
    requires AllWellFormed(fs) && |Listed(fs)| <= 4095
    ensures Depayed(Packet(UnitHeaders(Listed(fs)), Concat(fs)), ts).0 == Handed(Listed(fs), ts)
  {
    var us := Listed(fs);
    var tail := Concat(fs[|us|..]);
    assert fs == us + fs[|us|..];
    ConcatSplit(us, fs[|us|..]);
    PacketOpens(UnitHeaders(us), Concat(fs));
    forall i | 0 <= i < |us| ensures |us[i]| < 8192 {
      assert us[i] == fs[i] && WellFormed(fs[i]);
    }
    DepayAll(us, tail, ts);
  }

  /** However long the stream was, a packet yields at most 4095 units. */
  lemma AtMost4095Units(payload: seq<byte>, ts: nat)
    requires |payload| >= 2
    ensures |Depayed(payload, ts).0| <= 4095
  {
  }

  function FramedAll(h: seq<byte>, ps: seq<seq<byte>>): (r: seq<seq<byte>>)
    requires |h| == HEADER_SIZE
    ensures |r| == |ps| && forall i :: 0 <= i < |ps| ==> r[i] == Framed(h, ps[i])
  {
    seq(|ps|, i requires 0 <= i < |ps| => Framed(h, ps[i]))
  }

  /** Payloads that a frame can carry. */
  ghost predicate Framable(ps: seq<seq<byte>>) {
    forall i :: 0 <= i < |ps| ==> !IsADTS(ps[i]) && |ps[i]| <= 8184
  }

  lemma FramedAllWellFormed(h: seq<byte>, ps: seq<seq<byte>>)
    requires GoodHeader(h) && Framable(ps)
    ensures AllWellFormed(FramedAll(h, ps))
  {
    forall i | 0 <= i < |ps| ensures WellFormed(FramedAll(h, ps)[i]) {
      FramedIsWellFormed(h, ps[i]);
    }
  }

  lemma HandedPayloads(h: seq<byte>, ps: seq<seq<byte>>, n: nat, ts: nat)
    requires GoodHeader(h) && Framable(ps) && n <= |ps|
    ensures Payloads(Handed(FramedAll(h, ps)[..n], ts)) == ps[..n]
  {
    var fs := FramedAll(h, ps)[..n];
    forall i | 0 <= i < n ensures Handed(fs, ts)[i].payload == ps[i] {
      HandedAt(fs, ts, i);
      FramedIsWellFormed(h, ps[i]);
    }
  }

  /** ADTS to RTP and back. Framing payloads, packing the stream and unpacking the
      packet gives back the payloads, in order, exactly when there are no more than
      a packet can list and the last one is not empty. */
  lemma FramePackUnpack(h: seq<byte>, ps: seq<seq<byte>>, ts: nat)
    requires GoodHeader(h) && Framable(ps)
    ensures AdtsToRtp(Concat(FramedAll(h, ps))).Some?
    ensures Payloads(Depayed(AdtsToRtp(Concat(FramedAll(h, ps))).value, ts).0) == ps
            <==> |ps| <= 4095 && (ps == [] || ps[|ps| - 1] != [])
  {
    var fs := FramedAll(h, ps);
    FramedAllWellFormed(h, ps);
    PackedStream(fs);
    var packet := Packet(UnitHeaders(Listed(fs)), Concat(fs));
    var out := Depayed(packet, ts).0;
    var n := |Listed(fs)|;
    if ps != [] {
      FramedIsWellFormed(h, ps[|ps| - 1]);
    }
    assert Listed(fs) == fs[..n];
    if n <= 4095 {
      UnpackedStream(fs, ts);
      HandedPayloads(h, ps, n, ts);
      assert n == |ps| ==> ps[..n] == ps;
    } else {
      AtMost4095Units(packet, ts);
    }
  }

  /** The units come 1024 ticks apart, modulo 2^32. */
  lemma UnpackedTimestamps(h: seq<byte>, ps: seq<seq<byte>>, ts: nat, i: nat)
    requires GoodHeader(h) && Framable(ps) && |ps| <= 4095 && i < |ps| && ps[|ps| - 1] != []
    ensures AdtsToRtp(Concat(FramedAll(h, ps))).Some?
    ensures var out := Depayed(AdtsToRtp(Concat(FramedAll(h, ps))).value, ts).0;
            |out| == |ps| && out[i] == Unit(ps[i], (ts + AU_TIME * (i + 1)) % WRAP32)
  {
    var fs := FramedAll(h, ps);
    FramedAllWellFormed(h, ps);
    PackedStream(fs);
    FramedIsWellFormed(h, ps[|ps| - 1]);
    UnpackedStream(fs, ts);
    HandedAt(fs, ts, i);
    FramedIsWellFormed(h, ps[i]);
  }
}
