/** The other ways between raw AAC, RTP and ADTS: one unit per packet, packets to
    ADTS, the playing time of a stream, and the reader of a stream. */
module AacRoutes {
  import opened Seqs
  import opened Wrappers
  import opened Bits
  import opened Adts
  import opened AacConfig
  import opened AdtsHeader
  import opened AacRtp

  /** The header of every codec is one that frames can be made with. */
  lemma CodecHeaderIsGood(conf: seq<byte>)
    ensures GoodHeader(HeaderOf(DecodeBits(Unpack(conf))))
  {
    var c := DecodeBits(Unpack(conf));
    HeaderBytes((c.objType + 255) % 256, c.freqIdx, c.channels);
  }

  // -------------------------------------------------------------------------- RTPPay

  datatype Rtp = Rtp(version: byte, marker: bool, seqNum: nat, timestamp: nat, payload: seq<byte>)

  /** The payload for one unit. The buffer's size is a 16-bit sum; `None` stands for
      the panic when that wraps below the four header bytes. */
  function Payed(p: seq<byte>): Option<seq<byte>> {
    var auSize := |p| % 65536;
    if (4 + auSize) % 65536 < 4 then None
    else Some([0, 16] + Bytes16(auSize * 8 % 65536) + p[..auSize])
  }

  /** What a packet becomes, given the counters. */
  function PayedPacket(packet: Rtp, seqNum: nat, ts: nat): Option<Rtp> {
    if packet.version != 0 then Some(packet)
    else match Payed(packet.payload)
      case None => None
      case Some(payload) => Some(Rtp(2, true, seqNum, ts, payload))
  }

  /** The closure that `RTPPay` returns. */
  class Pay {
    var seqNum: nat
    var ts: nat

    constructor ()
      ensures seqNum == 0 && ts == 0
    {
      seqNum, ts := 0, 0;
    }

    method Handle(packet: Rtp) returns (out: Option<Rtp>)
      modifies this
      ensures out == PayedPacket(packet, old(seqNum), old(ts))
      ensures packet.version == 0 && out.Some? ==>
                seqNum == (old(seqNum) + 1) % 65536 && ts == (old(ts) + AU_TIME) % WRAP32
      ensures packet.version != 0 || out.None? ==> seqNum == old(seqNum) && ts == old(ts)
    {
      if packet.version != 0 {
        return Some(packet);
      }
      var auSize := |packet.payload| % 65536;
      if (4 + auSize) % 65536 < 4 {
        return None;
      }
      var payload := [0, 16] + Bytes16(auSize * 8 % 65536) + packet.payload[..auSize];
      out := Some(Rtp(2, true, seqNum, ts, payload));
      seqNum := (seqNum + 1) % 65536;
      ts := (ts + AU_TIME) % WRAP32;
    }
  }

  lemma BytesRead(v: uint16)
    ensures U16(Bytes16(v)) == v
  {
    assert v / 256 < 256;
  }

  /** The parts of a packet with one unit header. */
  lemma PacketParts(header: seq<byte>, units: seq<byte>)
    requires |header| == 2
    ensures var packet := [0, 16] + header + units;
            U16(packet) == 16 && packet[2..4] == header && packet[4..] == units
  {
    var packet := [0, 16] + header + units;
    assert packet[..2] == [0, 16];
  }

  lemma OneUnit(header: seq<byte>, units: seq<byte>, ts: nat)
    requires |header| == 2 && U16(header) / 8 <= |units|
    ensures var ts' := (ts + AU_TIME) % WRAP32;
            DepayUnits(header, units, ts) == ([Unit(Strip(units[..U16(header) / 8]), ts')], ts')
  {
    var n, ts' := U16(header) / 8, (ts + AU_TIME) % WRAP32;
    assert header[2..] == [];
    assert DepayUnits([], units[n..], ts') == ([], ts');
    assert [Unit(Strip(units[..n]), ts')] + [] == [Unit(Strip(units[..n]), ts')];
  }

  lemma OnePacket(v: uint16, units: seq<byte>, ts: nat)
    requires v / 8 <= |units|
    ensures var ts' := (ts + AU_TIME) % WRAP32;
            Depayed([0, 16] + Bytes16(v) + units, ts) == ([Unit(Strip(units[..v / 8]), ts')], ts')
  {
    PacketParts(Bytes16(v), units);
    BytesRead(v);
    OneUnit(Bytes16(v), units, ts);
  }

  /** Three bits of a 16-bit size are lost when it is counted in bits. */
  lemma SizeInBits(auSize: uint16)
    ensures auSize * 8 % 65536 / 8 == auSize % 8192
  {
    var q, r := auSize / 8192, auSize % 8192;
    Remainder16(auSize * 8, q, 8 * r);
  }

  lemma PayedOpens(p: seq<byte>, ts: nat)
    requires Payed(p).Some?
    ensures var auSize, ts' := |p| % 65536, (ts + AU_TIME) % WRAP32;
            Depayed(Payed(p).value, ts) == ([Unit(Strip(p[..auSize % 8192]), ts')], ts')
  {
    var auSize: uint16 := |p| % 65536;
    var size := auSize % 8192;
    SizeInBits(auSize);
    OnePacket(auSize * 8 % 65536, p[..auSize], ts);
    assert p[..auSize][..size] == p[..size];
  }

  /** Unpacking undoes packing exactly for payloads below 8192 bytes that do not
      look like an ADTS frame. */
  lemma PayThenDepay(p: seq<byte>, ts: nat)
    requires Payed(p).Some?
    ensures Payloads(Depayed(Payed(p).value, ts).0) == [p] <==> |p| < 8192 && !IsADTS(p)
  {
    PayedOpens(p, ts);
    var unit := p[..|p| % 65536 % 8192];
    var out := Depayed(Payed(p).value, ts).0;
    assert Payloads(out)[0] == Strip(unit);
    if |p| < 8192 {
      assert unit == p;
    }
  }

  /** Sending payloads one by one: the packets that come out. */
  function PayAll(ps: seq<seq<byte>>, seqNum: nat, ts: nat): (r: seq<Rtp>)
    requires forall i :: 0 <= i < |ps| ==> Payed(ps[i]).Some?
    ensures |r| == |ps|
  {
    if ps == [] then []
    else
      [PayedPacket(Rtp(0, false, 0, 0, ps[0]), seqNum, ts).value]
      + PayAll(ps[1..], (seqNum + 1) % 65536, (ts + AU_TIME) % WRAP32)
  }

  /** Receiving packets one by one: the units that come out. */
  function DepayRun(packets: seq<Rtp>, ts: nat): seq<Unit> {
    if packets == [] || |packets[0].payload| < 2 then []
    else
      var (us, ts') := Depayed(packets[0].payload, ts);
      us + DepayRun(packets[1..], ts')
  }

  lemma NumberStep(seqNum: nat, ts: nat, n: nat)
    requires n != 0
    ensures ((seqNum + 1) % 65536 + (n - 1)) % 65536 == (seqNum + n) % 65536
    ensures ((ts + AU_TIME) % WRAP32 + AU_TIME * (n - 1)) % WRAP32 == (ts + AU_TIME * n) % WRAP32
  {
    WrapStep(ts + AU_TIME, AU_TIME * (n - 1));
    var q := (seqNum + 1) / 65536;
    assert seqNum + 1 == q * 65536 + (seqNum + 1) % 65536;
  }

  /** The header of a packet that `Pay` makes. */
  lemma FirstPayed(p: seq<byte>, seqNum: nat, ts: nat)
    requires Payed(p).Some?
    ensures var r := PayedPacket(Rtp(0, false, 0, 0, p), seqNum, ts);
            r.Some? && r.value == Rtp(2, true, seqNum, ts, r.value.payload)
  {
  }

  /** Packet `n` has sequence number n mod 2^16 and timestamp 1024 n mod 2^32, as long
      as no payload makes the packing panic. */
  lemma {:induction false} PayedNumbers(ps: seq<seq<byte>>, seqNum: nat, ts: nat, n: nat)
    requires forall i :: 0 <= i < |ps| ==> Payed(ps[i]).Some?
    requires n < |ps| && seqNum < 65536 && ts < WRAP32
    ensures var packet := PayAll(ps, seqNum, ts)[n];
            packet == Rtp(2, true, (seqNum + n) % 65536, (ts + AU_TIME * n) % WRAP32, packet.payload)
  {
    FirstPayed(ps[0], seqNum, ts);
    if n != 0 {
      PayedNumbers(ps[1..], (seqNum + 1) % 65536, (ts + AU_TIME) % WRAP32, n - 1);
      NumberStep(seqNum, ts, n);
    } else {
      assert seqNum % 65536 == seqNum && ts % WRAP32 == ts;
    }
  }

  /** One payload sent and received. */
  lemma PayedOnce(p: seq<byte>, ts: nat)
    requires |p| < 8192 && !IsADTS(p)
    ensures Payed(p).Some? && |Payed(p).value| >= 2
    ensures var ts' := (ts + AU_TIME) % WRAP32;
            Depayed(Payed(p).value, ts) == ([Unit(p, ts')], ts')
  {
    assert |p| % 65536 == |p|;
    PayedOpens(p, ts);
    assert p[..|p|] == p;
  }

  /** A whole stream sent and received: the payloads in order, 1024 ticks apart. */
  lemma {:induction false} PayRunThenDepayRun(ps: seq<seq<byte>>, seqNum: nat, ts: nat, clock: nat)
    requires forall i :: 0 <= i < |ps| ==> |ps[i]| < 8192 && !IsADTS(ps[i])
    ensures DepayRun(PayAll(ps, seqNum, ts), clock) == Handed(ps, clock)
  {
    if ps != [] {
      var packets := PayAll(ps, seqNum, ts);
      PayedOnce(ps[0], clock);
      PayRunThenDepayRun(ps[1..], (seqNum + 1) % 65536, (ts + AU_TIME) % WRAP32, (clock + AU_TIME) % WRAP32);
      assert packets[0].payload == Payed(ps[0]).value;
      assert packets[1..] == PayAll(ps[1..], (seqNum + 1) % 65536, (ts + AU_TIME) % WRAP32);
    }
  }

  // ----------------------------------------------------------------------- RTPToADTS

  /** A unit of a packet as a frame: the header gets its size before the unit is
      appended, unlike in `Framed`. */
  function Reframed(h: seq<byte>, unit: seq<byte>): seq<byte>
    requires |h| == HEADER_SIZE
  {
    if IsADTS(unit) then unit else SizeWritten(h, (HEADER_SIZE + |unit|) % 65536) + unit
  }

  lemma ReframedIsFramed(h: seq<byte>, unit: seq<byte>)
    requires |h| == HEADER_SIZE
    ensures Reframed(h, unit) == Framed(h, unit)
  {
    if !IsADTS(unit) {
      var n := (HEADER_SIZE + |unit|) % 65536;
      assert SizeWritten(h + unit, n) == SizeWritten(h, n) + unit;
    }
  }

  /** The frames for the announced units; `None` stands for a slice out of range. */
  function ReframeUnits(h: seq<byte>, headers: seq<byte>, units: seq<byte>): Option<seq<byte>>
    requires |h| == HEADER_SIZE
    decreases |headers|
  {
    if headers == [] then Some([])
    else if |headers| < 2 then None
    else
      var size := U16(headers) / 8;
      if |units| < size then None
      else match ReframeUnits(h, headers[2..], units[size..])
        case None => None
        case Some(rest) => Some(Reframed(h, units[..size]) + rest)
  }

  function RtpToAdts(h: seq<byte>, src: seq<byte>): Option<seq<byte>>
    requires |h| == HEADER_SIZE
  {
    if |src| < 2 then None
    else
      var n := U16(src) / 8;
      if |src| < 2 + n then None else ReframeUnits(h, src[2..2 + n], src[2 + n..])
  }

  method RTPToADTS(h: seq<byte>, src: seq<byte>) returns (r: Option<seq<byte>>)
    requires |h| == HEADER_SIZE
    ensures r == RtpToAdts(h, src)
  {
    if |src| < 2 {
      return None;
    }
    var n := U16(src) / 8;
    if |src| < 2 + n {
      return None;
    }
    var headers, units := src[2..2 + n], src[2 + n..];
    var dst := [];
    while |headers| > 0
      invariant RtpToAdts(h, src).None? <==> ReframeUnits(h, headers, units).None?
      invariant RtpToAdts(h, src).Some? ==> RtpToAdts(h, src).value == dst + ReframeUnits(h, headers, units).value
      decreases |headers|
    {
      if |headers| < 2 {
        return None;
      }
      var size := U16(headers) / 8;
      if |units| < size {
        return None;
      }
      headers := headers[2..];
      var unit := units[..size];
      units := units[size..];
      if ReframeUnits(h, headers, units).Some? {
        Regroup(dst, Reframed(h, unit), ReframeUnits(h, headers, units).value);
      }
      dst := dst + Reframed(h, unit);
    }
    assert dst + [] == dst;
    return Some(dst);
  }

  function ReframedAll(h: seq<byte>, us: seq<seq<byte>>): (r: seq<seq<byte>>)
    requires |h| == HEADER_SIZE
    ensures |r| == |us|
  {
    if us == [] then [] else [Reframed(h, us[0])] + ReframedAll(h, us[1..])
  }

  lemma {:induction false} ReframeAll(h: seq<byte>, us: seq<seq<byte>>, tail: seq<byte>)
    requires |h| == HEADER_SIZE && forall i :: 0 <= i < |us| ==> |us[i]| < 8192
    ensures ReframeUnits(h, UnitHeaders(us), Concat(us) + tail) == Some(Concat(ReframedAll(h, us)))
  {
    if us != [] {
      FirstUnit(us, tail);
      ReframeAll(h, us[1..], tail);
      assert ReframedAll(h, us)[1..] == ReframedAll(h, us[1..]);
    }
  }

  lemma {:induction false} ReframedAllIsFramedAll(h: seq<byte>, us: seq<seq<byte>>)
    requires |h| == HEADER_SIZE
    ensures ReframedAll(h, us) == FramedAll(h, us)
  {
    if us != [] {
      ReframedIsFramed(h, us[0]);
      ReframedAllIsFramedAll(h, us[1..]);
      assert FramedAll(h, us) == [Framed(h, us[0])] + FramedAll(h, us[1..]);
    }
  }

  /** The two routes to ADTS agree: turning a packet of units into ADTS gives what
      framing each unit would have given. */
  lemma RoutesAgree(h: seq<byte>, us: seq<seq<byte>>)
    requires |h| == HEADER_SIZE && |us| <= 4095 && forall i :: 0 <= i < |us| ==> |us[i]| < 8192
    ensures RtpToAdts(h, Packet(UnitHeaders(us), Concat(us))) == Some(Concat(FramedAll(h, us)))
  {
    PacketOpens(UnitHeaders(us), Concat(us));
    assert Concat(us) + [] == Concat(us);
    ReframeAll(h, us, []);
    ReframedAllIsFramedAll(h, us);
  }

  lemma {:induction false} FramesStayThemselves(h: seq<byte>, fs: seq<seq<byte>>)
    requires |h| == HEADER_SIZE && AllWellFormed(fs)
    ensures ReframedAll(h, fs) == fs
  {
    if fs != [] {
      FramesStayThemselves(h, fs[1..]);
    }
  }

  /** The first of the headers, and the others. */
  lemma FirstHeader(us: seq<seq<byte>>)
    requires us != [] && |us[0]| < 8192
    ensures var headers := UnitHeaders(us);
            U16(headers) / 8 == |us[0]| && headers[2..] == UnitHeaders(us[1..])
  {
    UnitHeaderSize(|us[0]|);
    var headers := UnitHeaders(us);
    assert headers[..2] == UnitHeader(|us[0]|);
    assert U16(headers) == U16(UnitHeader(|us[0]|));
  }

  /** What comes out is at most seven bytes longer, per unit, than what the headers
      announce. */
  lemma {:induction false} ReframedLength(h: seq<byte>, us: seq<seq<byte>>, units: seq<byte>)
    requires |h| == HEADER_SIZE && forall i :: 0 <= i < |us| ==> |us[i]| < 8192
    requires ReframeUnits(h, UnitHeaders(us), units).Some?
    ensures |ReframeUnits(h, UnitHeaders(us), units).value| <= |Concat(us)| + HEADER_SIZE * |us|
  {
    if us != [] {
      FirstHeader(us);
      ReframedLength(h, us[1..], units[|us[0]|..]);
    }
  }

  lemma {:induction false} UnitHeadersSplit(a: seq<seq<byte>>, b: seq<seq<byte>>)
    ensures UnitHeaders(a + b) == UnitHeaders(a) + UnitHeaders(b)
  {
    if a == [] {
      assert a + b == b;
    } else {
      UnitHeadersSplit(a[1..], b);
      assert (a + b)[1..] == a[1..] + b;
      Regroup(UnitHeader(|a[0]|), UnitHeaders(a[1..]), UnitHeaders(b));
    }
  }

  lemma Remainder16(x: nat, q: nat, r: nat)
    requires x == 65536 * q + r && r < 65536
    ensures x % 65536 == r
  {
  }

  lemma WrappedSize(n: nat)
    ensures 2 * n % 65536 * 8 % 65536 == 16 * (n % 4096)
  {
    var q, j := n / 4096, n % 4096;
    var q', r := q / 8, q % 8;
    Remainder16(2 * n, q', 8192 * r + 2 * j);
    Remainder16((8192 * r + 2 * j) * 8, r, 16 * j);
  }

  lemma SizedOpens(v: uint16, hs: seq<byte>, units: seq<byte>)
    requires v / 8 <= |hs|
    ensures var p := Bytes16(v) + hs + units;
            U16(p) == v && p[2..2 + v / 8] == hs[..v / 8]
  {
    var p := Bytes16(v) + hs + units;
    assert p[2..] == hs + units;
  }

  /** When the header section does not fit, only some of its headers are seen. */
  lemma WrappedPacketOpens(us: seq<seq<byte>>, units: seq<byte>)
    requires |us| > 4095
    ensures var p := Packet(UnitHeaders(us), units);
            var j := |us| % 4096;
            |p| >= 2 + 2 * j && U16(p) / 8 == 2 * j && p[2..2 + 2 * j] == UnitHeaders(us[..j])
  {
    var j := |us| % 4096;
    WrappedSize(|us|);
    SizedOpens(16 * j, UnitHeaders(us), units);
    assert us == us[..j] + us[j..];
    UnitHeadersSplit(us[..j], us[j..]);
  }

  lemma UnseenLength(fs: seq<seq<byte>>, j: nat)
    requires AllWellFormed(fs) && j < 4096 && j + 4096 <= |fs|
    ensures |Concat(fs[..j])| + HEADER_SIZE * j < |Concat(fs)|
  {
    assert fs == fs[..j] + fs[j..];
    ConcatSplit(fs[..j], fs[j..]);
    ConcatLength(fs[j..]);
  }

  lemma SeenIsLess(h: seq<byte>, p: seq<byte>, fs: seq<seq<byte>>, j: nat)
    requires |h| == HEADER_SIZE && AllWellFormed(fs) && j < 4096 && j + 4096 <= |fs|
    requires |p| >= 2 + 2 * j && U16(p) / 8 == 2 * j && p[2..2 + 2 * j] == UnitHeaders(fs[..j])
    ensures RtpToAdts(h, p) != Some(Concat(fs))
  {
    SeenLength(h, p, fs[..j]);
    UnseenLength(fs, j);
  }

  lemma FullPages(n: nat)
    requires n > 4095
    ensures n % 4096 + 4096 <= n
  {
    assert n == 4096 * (n / 4096) + n % 4096;
  }

  lemma TooManyFramesAreLost(h: seq<byte>, fs: seq<seq<byte>>, us: seq<seq<byte>>)
    requires |h| == HEADER_SIZE && AllWellFormed(fs) && us <= fs && |us| > 4095
    ensures RtpToAdts(h, Packet(UnitHeaders(us), Concat(fs))) != Some(Concat(fs))
  {
    var p := Packet(UnitHeaders(us), Concat(fs));
    var j := |us| % 4096;
    FullPages(|us|);
    WrappedPacketOpens(us, Concat(fs));
    assert us[..j] == fs[..j];
    SeenIsLess(h, p, fs, j);
  }

  /** What comes out of a packet whose header section announces `seen`. */
  lemma SeenLength(h: seq<byte>, p: seq<byte>, seen: seq<seq<byte>>)
    requires |h| == HEADER_SIZE && AllWellFormed(seen)
    requires |p| >= 2 + 2 * |seen| && U16(p) / 8 == 2 * |seen| && p[2..2 + 2 * |seen|] == UnitHeaders(seen)
    ensures RtpToAdts(h, p).Some? ==> |RtpToAdts(h, p).value| <= |Concat(seen)| + HEADER_SIZE * |seen|
  {
    var units := p[2 + 2 * |seen|..];
    assert RtpToAdts(h, p) == ReframeUnits(h, UnitHeaders(seen), units);
    forall i | 0 <= i < |seen| ensures |seen[i]| < 8192 {
      assert WellFormed(seen[i]);
    }
    if RtpToAdts(h, p).Some? {
      ReframedLength(h, seen, units);
    }
  }

  /** Packing a stream of frames and turning the packet back into ADTS is the
      identity exactly when a packet can list the frames and the last one is not a
      bare header. */
  lemma PackThenReframe(h: seq<byte>, fs: seq<seq<byte>>)
    requires |h| == HEADER_SIZE && AllWellFormed(fs)
    ensures AdtsToRtp(Concat(fs)).Some?
    ensures RtpToAdts(h, AdtsToRtp(Concat(fs)).value) == Some(Concat(fs))
            <==> |fs| <= 4095 && (fs == [] || |fs[|fs| - 1]| > HEADER_SIZE)
  {
    PackedStream(fs);
    var us := Listed(fs);
    var n := |us|;
    assert us == fs[..n] && fs == us + fs[n..];
    if n > 4095 {
      TooManyFramesAreLost(h, fs, us);
    } else {
      forall i | 0 <= i < n ensures WellFormed(us[i]) {
        assert us[i] == fs[i];
      }
      ConcatSplit(us, fs[n..]);
      PacketOpens(UnitHeaders(us), Concat(fs));
      ReframeAll(h, us, Concat(fs[n..]));
      FramesStayThemselves(h, us);
      ConcatLength(fs[n..]);
    }
  }

  // -------------------------------------------------------------------- ADTSTimeSize

  /** The number of frames counted; `None` stands for a loop that does not end or a
      slice out of range. */
  function CountFrames(b: seq<byte>): Option<nat>
    decreases |b|
  {
    if |b| <= HEADER_SIZE then Some(0)
    else
      var size := ReadSize(b);
      if size == 0 || size > |b| then None
      else match CountFrames(b[size..])
        case None => None
        case Some(n) => Some(n + 1)
  }

  method ADTSTimeSize(b: seq<byte>) returns (r: Option<nat>)
    ensures r == match CountFrames(b)
                 case None => None
                 case Some(n) => Some(n * AU_TIME % WRAP32)
  {
    var rest, units := b, 0;
    while |rest| > HEADER_SIZE
      invariant CountFrames(b).None? <==> CountFrames(rest).None?
      invariant CountFrames(b).Some? ==> CountFrames(b).value == units + CountFrames(rest).value
      decreases |rest|
    {
      var size := ReadSize(rest);
      if size == 0 || size > |rest| {
        return None;
      }
      rest := rest[size..];
      units := units + 1;
    }
    return Some(units * AU_TIME % WRAP32);
  }

  /** A stream of frames is counted exactly, but for a last frame without payload. */
  lemma {:induction false} CountOfStream(fs: seq<seq<byte>>)
    requires AllWellFormed(fs)
    ensures CountFrames(Concat(fs)) == Some(|Listed(fs)|)
  {
    if fs != [] {
      assert Concat(fs)[0..|fs[0]|] == fs[0] && Concat(fs)[0..] == Concat(fs);
      SizeAt(Concat(fs), 0, fs[0]);
      ConcatLength(fs[1..]);
      ListedStep(fs);
      if fs[1..] != [] || |fs[0]| != HEADER_SIZE {
        CountOfStream(fs[1..]);
        assert Concat(fs)[|fs[0]|..] == Concat(fs[1..]);
      }
    }
  }

  // ------------------------------------------------------------------ Producer.Start

  datatype ReadError = EOF | UnexpectedEOF

  datatype Result = Read(payload: seq<byte>) | Failed(err: ReadError)

  /** What the reader of a stream delivers until it fails, the bytes it has counted
      as received, and what is left unread. */
  datatype Reading = Reading(payloads: seq<seq<byte>>, recv: nat, unread: seq<byte>, err: ReadError)

  /** The size of the payload behind a header, as a 16-bit difference. */
  function PayloadSize(header: seq<byte>): (r: nat)
    requires |header| == HEADER_SIZE
  {
    (ReadSize(header) + 65536 - HeaderLen(header)) % 65536
  }

  function ReadStream(s: seq<byte>): Reading
    decreases |s|
  {
    if s == [] then Reading([], 0, [], EOF)
    else if |s| < HEADER_SIZE then Reading([], 0, [], UnexpectedEOF)
    else
      var header, skip := s[..HEADER_SIZE], HeaderLen(s[..HEADER_SIZE]);
      if |s| < skip then Reading([], 0, [], EOF)
      else
        var size := PayloadSize(header);
        if |s| < skip + size then Reading([], 0, [], if |s| == skip then EOF else UnexpectedEOF)
        else
          var rest := ReadStream(s[skip + size..]);
          Reading([s[skip..skip + size]] + rest.payloads, size + rest.recv, rest.unread, rest.err)
  }

  /** The reader of an ADTS stream, on the bytes that will ever arrive. */
  class Producer {
    var unread: seq<byte>
    var recv: nat
    var delivered: seq<seq<byte>>  // to the first receiver

    constructor (s: seq<byte>)
      ensures unread == s && recv == 0 && delivered == []
    {
      unread, recv, delivered := s, 0, [];
    }

    /** One round of the loop; `None` while there is no error. */
    method ReadOne() returns (r: Result)
      modifies this`unread
      ensures r.Failed? ==> unread == [] && ReadStream(old(unread)) == Reading([], 0, [], r.err)
      ensures r.Read? ==>
                && |unread| < |old(unread)|
                && var rest := ReadStream(unread);
                   ReadStream(old(unread))
                   == Reading([r.payload] + rest.payloads, |r.payload| + rest.recv, rest.unread, rest.err)
    {
      if |unread| < HEADER_SIZE {
        var err := if unread == [] then EOF else UnexpectedEOF;
        unread := [];
        return Failed(err);
      }
      var header := unread[..HEADER_SIZE];
      var skip := HEADER_SIZE;
      var size := (ReadSize(header) + 65536 - HEADER_SIZE) % 65536;
      if HasCRC(header) {
        if |unread| < HEADER_SIZE + 2 {
          unread := [];
          return Failed(EOF);
        }
        skip := skip + 2;
        size := (size + 65536 - 2) % 65536;
      }
      assert skip == HeaderLen(header) && size == PayloadSize(header);
      if |unread| < skip + size {
        var err := if |unread| == skip then EOF else UnexpectedEOF;
        unread := [];
        return Failed(err);
      }
      var payload := unread[skip..skip + size];
      unread := unread[skip + size..];
      return Read(payload);
    }

    method Start(receivers: bool) returns (err: ReadError)
      modifies this
      ensures var r := ReadStream(old(unread));
              && unread == r.unread && err == r.err && recv == old(recv) + r.recv
              && delivered == old(delivered) + if receivers then r.payloads else []
    {
      ghost var whole := ReadStream(unread);
      ghost var seen: seq<seq<byte>> := [];
      while true
        invariant whole.payloads == seen + ReadStream(unread).payloads
        invariant whole.unread == ReadStream(unread).unread && whole.err == ReadStream(unread).err
        invariant old(recv) + whole.recv == recv + ReadStream(unread).recv
        invariant delivered == old(delivered) + if receivers then seen else []
        decreases |unread|
      {
        var r := ReadOne();
        if r.Failed? {
          assert seen + [] == seen;
          return r.err;
        }
        Regroup(seen, [r.payload], ReadStream(unread).payloads);
        recv := recv + |r.payload|;
        if receivers {
          Regroup(old(delivered), seen, [r.payload]);
          delivered := delivered + [r.payload];
        }
        seen := seen + [r.payload];
      }
    }
  }

  /** A well-formed frame that has room for its checksum, if it has one. */
  ghost predicate Readable(f: seq<byte>) {
    WellFormed(f) && |f| >= HeaderLen(f)
  }

  ghost predicate AllReadable(fs: seq<seq<byte>>) {
    forall i :: 0 <= i < |fs| ==> Readable(fs[i])
  }

  function Body(f: seq<byte>): seq<byte>
    requires Readable(f)
  {
    f[HeaderLen(f)..]
  }

  function Bodies(fs: seq<seq<byte>>): (r: seq<seq<byte>>)
    requires AllReadable(fs)
    ensures |r| == |fs|
  {
    if fs == [] then [] else [Body(fs[0])] + Bodies(fs[1..])
  }

  lemma {:induction false} BodyAt(fs: seq<seq<byte>>, i: nat)
    requires AllReadable(fs) && i < |fs|
    ensures Bodies(fs)[i] == Body(fs[i])
  {
    if i != 0 {
      BodyAt(fs[1..], i - 1);
    }
  }

  lemma FirstFrame(f: seq<byte>, rest: seq<byte>)
    requires Readable(f)
    ensures var s := f + rest;
            var header := s[..HEADER_SIZE];
            var skip := HeaderLen(header);
            && skip == HeaderLen(f) && skip + PayloadSize(header) == |f|
            && s[skip..|f|] == f[skip..] && s[|f|..] == rest
  {
    var s := f + rest;
    var header := s[..HEADER_SIZE];
    assert header == f[..HEADER_SIZE];
    assert header[1] == f[1] && header[3] == f[3] && header[4] == f[4] && header[5] == f[5];
    assert (|f| + 65536 - HeaderLen(f)) % 65536 == |f| - HeaderLen(f);
  }

  /** Reading a stream of frames, with or without checksums, delivers the body of
      each in order and consumes every byte. */
  lemma {:induction false} ReadFrames(fs: seq<seq<byte>>)
    requires AllReadable(fs)
    ensures var r := ReadStream(Concat(fs));
            r.payloads == Bodies(fs) && r.unread == [] && r.err == EOF && r.recv == |Concat(Bodies(fs))|
  {
    if fs != [] {
      FirstFrame(fs[0], Concat(fs[1..]));
      ReadFrames(fs[1..]);
      assert Bodies(fs)[1..] == Bodies(fs[1..]);
    }
  }

  /** The reader inverts the framer, empty payloads included. */
  lemma ReaderInvertsFramer(h: seq<byte>, ps: seq<seq<byte>>)
    requires GoodHeader(h) && Framable(ps)
    ensures ReadStream(Concat(FramedAll(h, ps))) == Reading(ps, |Concat(ps)|, [], EOF)
  {
    var fs := FramedAll(h, ps);
    forall i | 0 <= i < |ps| ensures Readable(fs[i]) && Body(fs[i]) == ps[i] {
      FramedIsWellFormed(h, ps[i]);
    }
    forall i | 0 <= i < |ps| ensures Bodies(fs)[i] == ps[i] {
      BodyAt(fs, i);
    }
    assert Bodies(fs) == ps;
    ReadFrames(fs);
  }

  /** The playing time of framed payloads. */
  lemma TimeOfFramed(h: seq<byte>, ps: seq<seq<byte>>)
    requires GoodHeader(h) && Framable(ps)
    ensures CountFrames(Concat(FramedAll(h, ps)))
            == Some(if ps != [] && ps[|ps| - 1] == [] then |ps| - 1 else |ps|)
  {
    var fs := FramedAll(h, ps);
    FramedAllWellFormed(h, ps);
    CountOfStream(fs);
    if ps != [] {
      FramedIsWellFormed(h, ps[|ps| - 1]);
    }
  }
}
