/** The buffer of an HLS session: a muxer writes into it and players take segments out
    of it. Slices are values here. */
module HlsSession {
  import Bits
  import opened Seqs
  import opened Wrappers

  type Bytes = seq<Bits.byte>

  /** How many times a request looks for data before it gives up. */
  const POLLS := 60

  datatype View = View(init: Option<Bytes>, buffer: Bytes, next: nat)

  /** What happens to a session under its lock: a write, of nil or of bytes, or one
      look for a segment. */
  datatype Event = Wrote(p: Option<Bytes>) | Polled

  const FRESH := View(None, [], 0)

  /** The state after an event and the segment it returns, if any. */
  function Apply(fmp4: bool, v: View, e: Event): (View, Option<Bytes>) {
    match e
    case Wrote(None) => (v, None)
    case Wrote(Some(p)) =>
      (if v.init.None? then v.(init := Some(p)) else v.(buffer := v.buffer + p), None)
    case Polled =>
      if v.buffer == [] then (v, None)
      else (v.(buffer := if fmp4 || v.init.None? then [] else v.init.value, next := v.next + 1), Some(v.buffer))
  }

  /** The state after a run, and the segments returned in it. */
  function Run(fmp4: bool, es: seq<Event>): (View, seq<Bytes>) {
    if es == [] then (FRESH, [])
    else
      var (v, segments) := Run(fmp4, es[..|es| - 1]);
      var (v', out) := Apply(fmp4, v, es[|es| - 1]);
      (v', if out.Some? then segments + [out.value] else segments)
  }

  // ---------------------------------------------------------------- what was written

  /** The writes of a run, without those of nil. */
  function Writes(es: seq<Event>): seq<Bytes> {
    if es == [] then []
    else
      var rest := Writes(es[..|es| - 1]);
      match es[|es| - 1]
      case Wrote(Some(p)) => rest + [p]
      case _ => rest
  }

  /** What a run wrote after its first write. */
  function Payload(es: seq<Event>): Bytes {
    var ws := Writes(es);
    if ws == [] then [] else Concat(ws[1..])
  }

  /** What stands before the payload in segment number `k`. */
  function Prefix(fmp4: bool, es: seq<Event>, k: nat): Bytes {
    if fmp4 || k == 0 || Writes(es) == [] then [] else Writes(es)[0]
  }

  /** Every segment starts with its prefix. */
  predicate Prefixed(fmp4: bool, es: seq<Event>, segments: seq<Bytes>) {
    forall k :: 0 <= k < |segments| ==> Prefix(fmp4, es, k) <= segments[k]
  }

  /** The segments without their prefixes, one after the other. */
  function Carried(fmp4: bool, es: seq<Event>, segments: seq<Bytes>): Bytes
    requires Prefixed(fmp4, es, segments)
    decreases |segments|
  {
    if segments == [] then []
    else
      var n := |segments| - 1;
      Carried(fmp4, es, segments[..n]) + segments[n][|Prefix(fmp4, es, n)|..]
  }

  lemma {:induction false} CarriedDepends(fmp4: bool, a: seq<Event>, b: seq<Event>, segments: seq<Bytes>)
    requires Prefixed(fmp4, a, segments)
    requires Writes(a) != [] && Writes(b) != [] && Writes(a)[0] == Writes(b)[0]
    ensures Prefixed(fmp4, b, segments) && Carried(fmp4, a, segments) == Carried(fmp4, b, segments)
    decreases |segments|
  {
    assert forall k: nat :: Prefix(fmp4, a, k) == Prefix(fmp4, b, k);
    if segments != [] {
      CarriedDepends(fmp4, a, b, segments[..|segments| - 1]);
    }
  }

  lemma PayloadGrows(es: seq<Event>, p: Bytes)
    ensures var es' := es + [Wrote(Some(p))];
            && Writes(es') == Writes(es) + [p]
            && Payload(es') == if Writes(es) == [] then [] else Payload(es) + p
  {
    var es' := es + [Wrote(Some(p))];
    assert es'[..|es'| - 1] == es;
    if Writes(es) == [] {
      assert Writes(es')[1..] == [];
    } else {
      assert Writes(es')[1..] == Writes(es)[1..] + [p];
      ConcatSnoc(Writes(es)[1..], p);
    }
  }

  ghost predicate Conserved(fmp4: bool, es: seq<Event>) {
    var (v, segments) := Run(fmp4, es);
    var n := |segments|;
    && v.next == n
    && v.init == (if Writes(es) == [] then None else Some(Writes(es)[0]))
    && (v.init.None? ==> v.buffer == [] && n == 0)
    && Prefixed(fmp4, es, segments)
    && Prefix(fmp4, es, n) <= v.buffer
    && Carried(fmp4, es, segments) + v.buffer[|Prefix(fmp4, es, n)|..] == Payload(es)
  }

  /** The first write is kept apart. */
  lemma FirstWriteConserves(fmp4: bool, es: seq<Event>, p: Bytes)
    requires Conserved(fmp4, es) && Run(fmp4, es).0.init.None?
    ensures Conserved(fmp4, es + [Wrote(Some(p))])
  {
    var es' := es + [Wrote(Some(p))];
    assert es'[..|es'| - 1] == es;
    PayloadGrows(es, p);
    assert Run(fmp4, es').1 == [];
  }

  /** What is appended to a buffer is carried by it. */
  lemma BufferGrows(carried: Bytes, pre: Bytes, buffer: Bytes, p: Bytes, payload: Bytes)
    requires pre <= buffer && carried + buffer[|pre|..] == payload
    ensures pre <= buffer + p && carried + (buffer + p)[|pre|..] == payload + p
  {
    assert (buffer + p)[|pre|..] == buffer[|pre|..] + p;
    Regroup(carried, buffer[|pre|..], p);
  }

  lemma LaterWriteConserves(fmp4: bool, es: seq<Event>, p: Bytes)
    requires Conserved(fmp4, es) && Run(fmp4, es).0.init.Some?
    ensures Conserved(fmp4, es + [Wrote(Some(p))])
  {
    var es' := es + [Wrote(Some(p))];
    assert es'[..|es'| - 1] == es;
    var (v, segments) := Run(fmp4, es);
    PayloadGrows(es, p);
    CarriedDepends(fmp4, es, es', segments);
    var pre := Prefix(fmp4, es, |segments|);
    assert Prefix(fmp4, es', |segments|) == pre;
    BufferGrows(Carried(fmp4, es, segments), pre, v.buffer, p, Payload(es));
  }

  lemma WriteConserves(fmp4: bool, es: seq<Event>, p: Bytes)
    requires Conserved(fmp4, es)
    ensures Conserved(fmp4, es + [Wrote(Some(p))])
  {
    if Run(fmp4, es).0.init.None? {
      FirstWriteConserves(fmp4, es, p);
    } else {
      LaterWriteConserves(fmp4, es, p);
    }
  }

  lemma PrefixSame(fmp4: bool, a: seq<Event>, b: seq<Event>, k: nat)
    requires Writes(a) == Writes(b)
    ensures Prefix(fmp4, a, k) == Prefix(fmp4, b, k)
  {
  }

  /** A segment that starts with its prefix carries the rest of itself. */
  lemma CarriedSnoc(fmp4: bool, es: seq<Event>, segments: seq<Bytes>, b: Bytes)
    requires Prefixed(fmp4, es, segments) && Prefix(fmp4, es, |segments|) <= b
    ensures Prefixed(fmp4, es, segments + [b])
    ensures Carried(fmp4, es, segments + [b]) == Carried(fmp4, es, segments) + b[|Prefix(fmp4, es, |segments|)|..]
  {
    assert (segments + [b])[..|segments|] == segments;
  }

  lemma EmptyPollConserves(fmp4: bool, es: seq<Event>)
    requires Conserved(fmp4, es) && Run(fmp4, es).0.buffer == []
    ensures Conserved(fmp4, es + [Polled])
  {
    var es' := es + [Polled];
    assert es'[..|es'| - 1] == es;
    var (v, segments) := Run(fmp4, es);
    PrefixSame(fmp4, es, es', |segments|);
    if v.init.Some? {
      CarriedDepends(fmp4, es, es', segments);
    }
  }

  lemma FullPollConserves(fmp4: bool, es: seq<Event>)
    requires Conserved(fmp4, es) && Run(fmp4, es).0.buffer != []
    ensures Conserved(fmp4, es + [Polled])
  {
    var es' := es + [Polled];
    assert es'[..|es'| - 1] == es;
    var (v, segments) := Run(fmp4, es);
    var n := |segments|;
    CarriedDepends(fmp4, es, es', segments);
    PrefixSame(fmp4, es, es', n);
    CarriedSnoc(fmp4, es', segments, v.buffer);
    var (v', segments') := Run(fmp4, es');
    var pre := Prefix(fmp4, es', n + 1);
    assert v'.buffer == pre && pre[|pre|..] == [];
    assert Carried(fmp4, es', segments') == Payload(es');
    assert Payload(es') + [] == Payload(es');
  }

  lemma PollConserves(fmp4: bool, es: seq<Event>)
    requires Conserved(fmp4, es)
    ensures Conserved(fmp4, es + [Polled])
  {
    if Run(fmp4, es).0.buffer == [] {
      EmptyPollConserves(fmp4, es);
    } else {
      FullPollConserves(fmp4, es);
    }
  }

  lemma {:induction false} RunConserves(fmp4: bool, es: seq<Event>)
    ensures Conserved(fmp4, es)
    decreases |es|
  {
    if es != [] {
      var before, last := es[..|es| - 1], es[|es| - 1];
      RunConserves(fmp4, before);
      assert es == before + [last];
      match last {
        case Polled => PollConserves(fmp4, before);
        case Wrote(Some(p)) => WriteConserves(fmp4, before, p);
        case Wrote(None) =>
          assert Writes(es) == Writes(before);
          var (_, segments) := Run(fmp4, before);
          if Writes(es) != [] {
            CarriedDepends(fmp4, before, es, segments);
          }
      }
    }
  }

  /** Fragmented MP4: the segments returned and the current buffer are together what
      was written after the first write, and the number of the next segment is the
      number of segments returned. */
  lemma Mp4Conserves(es: seq<Event>)
    ensures var (v, segments) := Run(true, es);
            Concat(segments) + v.buffer == Payload(es) && v.next == |segments|
  {
    RunConserves(true, es);
    var (_, segments) := Run(true, es);
    CarriedIsConcat(es, segments);
  }

  lemma {:induction false} CarriedIsConcat(es: seq<Event>, segments: seq<Bytes>)
    ensures Carried(true, es, segments) == Concat(segments)
    decreases |segments|
  {
    if segments != [] {
      var n := |segments| - 1;
      CarriedIsConcat(es, segments[..n]);
      ConcatSnoc(segments[..n], segments[n]);
      assert segments == segments[..n] + [segments[n]];
    }
  }

  /** Transport streams: every segment but the first starts with the first write, and
      so does the buffer once a segment was returned; without those prefixes the
      segments and the buffer are together what was written after the first write. */
  lemma TsConserves(es: seq<Event>)
    ensures var (v, segments) := Run(false, es);
            && v.next == |segments|
            && (segments != [] ==>
                  && Writes(es) != []
                  && (forall k :: 1 <= k < |segments| ==> Writes(es)[0] <= segments[k])
                  && Writes(es)[0] <= v.buffer
                  && Carried(false, es, segments) + v.buffer[|Writes(es)[0]|..] == Payload(es))
            && (segments == [] ==> v.buffer == Payload(es))
  {
    RunConserves(false, es);
    var (v, segments) := Run(false, es);
    if segments == [] {
      assert [] + v.buffer == v.buffer;
    } else {
      forall k | 1 <= k < |segments|
        ensures Writes(es)[0] <= segments[k]
      {
        assert Prefix(false, es, k) <= segments[k];
      }
    }
  }

  // ------------------------------------------------------------- what a look returns

  /** What was written since the last look, or since the first write. */
  function Since(es: seq<Event>): Bytes {
    if es == [] then []
    else
      var before := es[..|es| - 1];
      match es[|es| - 1]
      case Polled => []
      case Wrote(None) => Since(before)
      case Wrote(Some(p)) => if Writes(before) == [] then [] else Since(before) + p
  }

  /** The buffer of a run, told from the events alone: the prefix of the next segment and
      what was written since the last look. */
  lemma {:induction false} BufferIs(fmp4: bool, es: seq<Event>)
    ensures var (v, segments) := Run(fmp4, es); v.buffer == Prefix(fmp4, es, |segments|) + Since(es)
    decreases |es|
  {
    if es != [] {
      var before, last := es[..|es| - 1], es[|es| - 1];
      BufferIs(fmp4, before);
      RunConserves(fmp4, before);
      match last {
        case Polled =>
        case Wrote(None) =>
        case Wrote(Some(p)) => BufferIsAfterWrite(fmp4, before, p);
      }
    }
  }

  lemma BufferIsAfterWrite(fmp4: bool, before: seq<Event>, p: Bytes)
    requires Conserved(fmp4, before)
    requires var (v, segments) := Run(fmp4, before); v.buffer == Prefix(fmp4, before, |segments|) + Since(before)
    ensures var es := before + [Wrote(Some(p))];
            var (v, segments) := Run(fmp4, es);
            v.buffer == Prefix(fmp4, es, |segments|) + Since(es)
  {
    var es := before + [Wrote(Some(p))];
    assert es[..|es| - 1] == before;
    var (v, segments) := Run(fmp4, before);
    if v.init.Some? {
      assert Writes(es)[0] == Writes(before)[0];
      Regroup(Prefix(fmp4, before, |segments|), Since(before), p);
    }
  }

  /** A look returns a segment without anything new in it exactly when nothing was written
      since the look before, and the segment has a prefix: that is for a transport stream
      whose first write has bytes, once a segment was returned. */
  lemma BareSegmentIff(fmp4: bool, es: seq<Event>)
    ensures var (v, segments) := Run(fmp4, es);
            var prefix := Prefix(fmp4, es, |segments|);
            && (Apply(fmp4, v, Polled).1 == Some(prefix) <==> Since(es) == [] && prefix != [])
            && (prefix != [] <==> !fmp4 && segments != [] && Writes(es) != [] && Writes(es)[0] != [])
  {
    BufferIs(fmp4, es);
    var (v, segments) := Run(fmp4, es);
    var prefix := Prefix(fmp4, es, |segments|);
    if prefix + Since(es) == prefix {
      assert |Since(es)| == 0;
    } else {
      assert Since(es) == [] ==> prefix + [] == prefix;
    }
  }

  /** The writes that come in before one look. */
  function Arrivals(ps: seq<Option<Bytes>>): (r: seq<Event>)
    ensures |r| == |ps|
  {
    seq(|ps|, i requires 0 <= i < |ps| => Wrote(ps[i]))
  }

  /** Some of the writes brings bytes. */
  predicate BringsBytes(ps: seq<Option<Bytes>>) {
    exists i :: 0 <= i < |ps| && ps[i].Some? && ps[i].value != []
  }

  lemma {:induction false} SinceArrivals(es: seq<Event>, ps: seq<Option<Bytes>>)
    requires Writes(es) != []
    ensures var es' := es + [Polled] + Arrivals(ps);
            && Writes(es') != [] && Writes(es')[0] == Writes(es)[0]
            && (Since(es') == [] <==> !BringsBytes(ps))
    decreases |ps|
  {
    var es' := es + [Polled] + Arrivals(ps);
    if ps == [] {
      assert es' == es + [Polled] && es'[..|es'| - 1] == es;
    } else {
      var n := |ps| - 1;
      SinceArrivals(es, ps[..n]);
      assert Arrivals(ps) == Arrivals(ps[..n]) + [Wrote(ps[n])];
      assert es'[..|es'| - 1] == es + [Polled] + Arrivals(ps[..n]);
      assert es'[|es'| - 1] == Wrote(ps[n]);
      if ps[n].Some? && ps[n].value != [] {
        assert BringsBytes(ps);
      } else {
        assert BringsBytes(ps) <==> BringsBytes(ps[..n]);
      }
    }
  }

  /** So the next look after one that returned a segment returns nothing new exactly when
      no write between the two brought bytes: nothing at all from fragmented MP4, but from
      a transport stream the first write alone, under a number of its own. */
  lemma SecondPoll(fmp4: bool, es: seq<Event>, ps: seq<Option<Bytes>>)
    requires Run(fmp4, es).0.buffer != []
    ensures var first := Prefix(fmp4, es, 1);
            var out := Apply(fmp4, Run(fmp4, es + [Polled] + Arrivals(ps)).0, Polled).1;
            out == (if first == [] then None else Some(first)) <==> !BringsBytes(ps)
  {
    var es' := es + [Polled] + Arrivals(ps);
    RunConserves(fmp4, es);
    SinceArrivals(es, ps);
    BufferIs(fmp4, es');
    SegmentsStay(fmp4, es, ps);
    var prefix := Prefix(fmp4, es', |Run(fmp4, es').1|);
    assert prefix == Prefix(fmp4, es, 1);
    assert |prefix + Since(es')| == |prefix| + |Since(es')|;
    if Since(es') == [] {
      assert prefix + Since(es') == prefix;
    }
  }

  lemma {:induction false} SegmentsStay(fmp4: bool, es: seq<Event>, ps: seq<Option<Bytes>>)
    requires Run(fmp4, es).0.buffer != []
    ensures Run(fmp4, es + [Polled] + Arrivals(ps)).1 == Run(fmp4, es).1 + [Run(fmp4, es).0.buffer]
    decreases |ps|
  {
    var es' := es + [Polled] + Arrivals(ps);
    if ps == [] {
      assert es' == es + [Polled] && es'[..|es'| - 1] == es;
    } else {
      var n := |ps| - 1;
      SegmentsStay(fmp4, es, ps[..n]);
      assert es'[..|es'| - 1] == es + [Polled] + Arrivals(ps[..n]);
      assert es'[|es'| - 1] == Wrote(ps[n]);
    }
  }

  // ---------------------------------------------------------------- the session

  /** The events of looks, each after the writes that come in before it. */
  function Looks(arriving: seq<seq<Option<Bytes>>>): seq<Event>
    decreases |arriving|
  {
    if arriving == [] then []
    else
      var n := |arriving| - 1;
      Looks(arriving[..n]) + (Arrivals(arriving[n]) + [Polled])
  }

  lemma LooksSnoc(es: seq<Event>, arriving: seq<seq<Option<Bytes>>>, i: nat)
    requires i < |arriving|
    ensures es + Looks(arriving[..i + 1]) == es + Looks(arriving[..i]) + Arrivals(arriving[i]) + [Polled]
  {
    assert arriving[..i + 1][..i] == arriving[..i];
  }

  class Session {
    const fmp4: bool
    var init: Option<Bytes>
    var buffer: Bytes
    var next: nat
    ghost var history: seq<Event>

    ghost predicate Valid()
      reads this
    {
      View(init, buffer, next) == Run(fmp4, history).0
    }

    constructor (fmp4: bool)
      ensures Valid() && this.fmp4 == fmp4 && history == []
    {
      this.fmp4 := fmp4;
      init, buffer, next, history := None, [], 0, [];
    }

    method Write(p: Option<Bytes>) returns (n: nat)
      requires Valid()
      modifies this
      ensures Valid() && history == old(history) + [Wrote(p)]
      ensures n == if p.Some? then |p.value| else 0
    {
      if init.None? {
        init := p;
      } else if p.Some? {
        buffer := buffer + p.value;
      }
      history := history + [Wrote(p)];
      assert history[..|history| - 1] == old(history);
      n := if p.Some? then |p.value| else 0;
    }

    method WriteAll(ps: seq<Option<Bytes>>)
      requires Valid()
      modifies this
      ensures Valid() && history == old(history) + Arrivals(ps)
    {
      for i := 0 to |ps|
        invariant Valid() && history == old(history) + Arrivals(ps)[..i]
      {
        var _ := Write(ps[i]);
        assert Arrivals(ps)[..i + 1] == Arrivals(ps)[..i] + [Wrote(ps[i])];
      }
      assert Arrivals(ps)[..|ps|] == Arrivals(ps);
    }

    method Take() returns (segment: Option<Bytes>)
      requires Valid()
      modifies this
      ensures Valid() && history == old(history) + [Polled]
      ensures segment == if old(buffer) == [] then None else Some(old(buffer))
      ensures segment.None? ==> buffer == []
      ensures Run(fmp4, history).1 == Run(fmp4, old(history)).1 + (if segment.Some? then [segment.value] else [])
    {
      segment := None;
      if |buffer| > 0 {
        RunConserves(fmp4, history);
        segment := Some(buffer);
        buffer := if fmp4 then [] else init.value;
        next := next + 1;
      }
      history := history + [Polled];
      assert history[..|history| - 1] == old(history);
    }

    /** One look, after the writes that came in before it. */
    method Look(ps: seq<Option<Bytes>>) returns (segment: Option<Bytes>)
      requires Valid()
      modifies this
      ensures Valid() && history == old(history) + Arrivals(ps) + [Polled]
      ensures segment.None? ==> buffer == []
      ensures Run(fmp4, history).1 == Run(fmp4, old(history)).1 + (if segment.Some? then [segment.value] else [])
    {
      WriteAll(ps);
      WritesReturnNothing(fmp4, old(history), ps);
      segment := Take();
    }

    /** A request for a segment, with the writes that come in before each of its looks.
        It ends with the first look that finds something, or the sixtieth. */
    method Segment(arriving: seq<seq<Option<Bytes>>>) returns (segment: Option<Bytes>, ghost looks: nat)
      requires Valid() && |arriving| == POLLS
      modifies this
      ensures Valid() && 1 <= looks <= POLLS && history == old(history) + Looks(arriving[..looks])
      ensures Run(fmp4, history).1 == Run(fmp4, old(history)).1 + (if segment.Some? then [segment.value] else [])
      ensures segment.None? ==> looks == POLLS && buffer == []
    {
      segment := None;
      ghost var before, had := history, Run(fmp4, history).1;
      var i := 0;
      while i < POLLS && segment.None?
        invariant 0 <= i <= POLLS && Valid()
        invariant segment.None? ==> i == 0 || buffer == []
        invariant segment.Some? ==> i != 0
        invariant history == before + Looks(arriving[..i])
        invariant Run(fmp4, history).1 == had + (if segment.Some? then [segment.value] else [])
      {
        LooksSnoc(before, arriving, i);
        segment := Look(arriving[i]);
        i := i + 1;
      }
      looks := i;
    }

    /** A request for the first write: answered only when there is something to play. */
    method Init(arriving: seq<seq<Option<Bytes>>>) returns (r: Option<Bytes>)
      requires Valid() && |arriving| == POLLS
      modifies this
      ensures Valid() && next == old(next) && old(history) <= history
      ensures r.Some? ==> buffer != [] && Writes(history) != [] && r.value == Writes(history)[0]
      ensures r.None? ==> buffer == []
    {
      r := None;
      var i := 0;
      while i < POLLS && r.None?
        invariant 0 <= i <= POLLS && Valid() && next == old(next) && old(history) <= history
        invariant r.Some? ==> buffer != [] && Writes(history) != [] && r.value == Writes(history)[0]
        invariant r.None? ==> i == 0 || buffer == []
      {
        ghost var before := history;
        WriteAll(arriving[i]);
        WritesReturnNothing(fmp4, before, arriving[i]);
        RunConserves(fmp4, history);
        if |buffer| > 0 {
          r := init;
        }
        i := i + 1;
      }
    }

    /** The numbers a playlist shows: that of its first segment, then its two segments. */
    method Playlist() returns (r: (nat, nat, nat))
      requires Valid()
      ensures r.0 == |Run(fmp4, history).1| && r.1 == r.0 && r.2 == r.0 + 1
    {
      RunConserves(fmp4, history);
      r := (next, next, next + 1);
    }
  }

  lemma {:induction false} WritesReturnNothing(fmp4: bool, es: seq<Event>, ps: seq<Option<Bytes>>)
    ensures var a, b := Run(fmp4, es), Run(fmp4, es + Arrivals(ps)); a.1 == b.1 && a.0.next == b.0.next
    decreases |ps|
  {
    if ps == [] {
      assert es + Arrivals(ps) == es;
    } else {
      var n := |ps| - 1;
      WritesReturnNothing(fmp4, es, ps[..n]);
      assert (es + Arrivals(ps))[..|es| + n] == es + Arrivals(ps[..n]);
    }
  }
}
