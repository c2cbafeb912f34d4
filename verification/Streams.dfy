/** The stream itself: producers, consumers and the counter of attachments under
    way, updated in place. */
module Streams {
  import opened Wrappers
  import opened Seqs
  import opened Tracks
  import opened Medias
  import opened ProducerLifecycle
  import opened StreamSweep
  import opened ConsumerAttach

  method AnyChilds(nodes: Nodes, tracks: seq<Track>) returns (any: bool)
    ensures any == AnyRead(nodes, tracks)
  {
    for i := 0 to |tracks|
      invariant !AnyRead(nodes, tracks[..i])
    {
      if Childs(nodes, tracks[i]) != [] {
        AnyReadIff(nodes, tracks);
        return true;
      }
      assert tracks[..i + 1][..i] == tracks[..i];
    }
    assert tracks[..|tracks|] == tracks;
    return false;
  }

  method IsRead(producer: Producer) returns (read: bool)
    ensures read == HasReaders(producer.View())
  {
    read := AnyChilds(producer.nodes, producer.receivers);
    if !read {
      read := AnyChilds(producer.backs, producer.senders);
    }
  }

  /** The body of the sweep's loop. */
  method SweepOne(producer: Producer)
    requires producer.Valid()
    modifies producer
    ensures producer.Valid() && producer.View() == Swept(0, old(producer.View()))
  {
    var read := IsRead(producer);
    if !read {
      producer.Stop();
    }
  }

  /** `r` is `pr` after work on producer `p` alone, which now looks like `v`. */
  ghost predicate Became(pr: Progress, r: Progress, p: nat, v: Lifecycle, fails: bool)
    requires WellSized(pr) && p < |pr.prods|
  {
    && r.prods == pr.prods[p := v]
    && r.failed == (if fails then pr.failed[p := true] else pr.failed)
    && r.dials == pr.dials
  }

  /** Handles one media of a producer. The matches so far are passed along. */
  method HandleOffer(producer: Producer, cons: Media, m: nat, p: nat, a: Answer, starts: seq<Match>, ghost pr: Progress)
      returns (matched: bool, fails: bool, starts': seq<Match>)
    requires producer.Valid() && WellSized(pr) && p < |pr.prods| && pr.prods[p] == producer.View()
    requires starts == pr.starts
    modifies producer
    ensures producer.Valid() && matched == TakeOffer(pr, m, p, OfferOf(cons, a)).1
    ensures Became(pr, TakeOffer(pr, m, p, OfferOf(cons, a)).0, p, producer.View(), fails)
    ensures starts' == TakeOffer(pr, m, p, OfferOf(cons, a)).0.starts
  {
    matched, fails, starts' := false, false, starts;
    var pair := FindPair(a.media, cons);
    if pair.Some? {
      match a.media.direction {
        case Recvonly =>
          matched, fails, starts' := Receive(producer, m, p, pair.value.0, a, starts, pr);
        case Sendonly =>
          matched, fails, starts' := Send(producer, m, p, a, starts, pr);
        case Sendrecv =>
          matched, starts' := true, starts + [Match(m, p, None)];
      }
    }
    assert pr.prods == pr.prods[p := pr.prods[p]];
  }

  /** A track of the producer for the consumer. */
  method Receive(producer: Producer, m: nat, p: nat, codec: Codec, a: Answer, starts: seq<Match>, ghost pr: Progress)
      returns (matched: bool, fails: bool, starts': seq<Match>)
    requires producer.Valid() && WellSized(pr) && p < |pr.prods| && pr.prods[p] == producer.View()
    requires starts == pr.starts
    modifies producer
    ensures producer.Valid() && matched == TakeOffer(pr, m, p, RecvOffer(codec, a.track, a.reader)).1
    ensures Became(pr, TakeOffer(pr, m, p, RecvOffer(codec, a.track, a.reader)).0, p, producer.View(), fails)
    ensures starts' == TakeOffer(pr, m, p, RecvOffer(codec, a.track, a.reader)).0.starts
  {
    matched, fails, starts' := false, false, starts;
    var track := producer.GetTrack(codec, a.track);
    if track.None? {
      fails := true;
    } else if a.reader.Some? {
      producer.Attach(track.value, a.reader.value);
      matched, starts' := true, starts + [Match(m, p, track)];
    }
    assert TakeOffer(pr, m, p, RecvOffer(codec, a.track, a.reader)).0.prods == pr.prods[p := producer.View()];
  }

  /** A track of the consumer for the producer. */
  method Send(producer: Producer, m: nat, p: nat, a: Answer, starts: seq<Match>, ghost pr: Progress)
      returns (matched: bool, fails: bool, starts': seq<Match>)
    requires producer.Valid() && WellSized(pr) && p < |pr.prods| && pr.prods[p] == producer.View()
    requires starts == pr.starts
    modifies producer
    ensures producer.Valid() && matched == TakeOffer(pr, m, p, SendOffer(a.track, a.reader)).1
    ensures Became(pr, TakeOffer(pr, m, p, SendOffer(a.track, a.reader)).0, p, producer.View(), fails)
    ensures starts' == TakeOffer(pr, m, p, SendOffer(a.track, a.reader)).0.starts
  {
    matched, fails, starts' := false, false, starts;
    if a.track.Some? {
      var ok := producer.AddTrack(a.track.value, a.reader);
      if ok {
        matched, starts' := true, starts + [Match(m, p, a.track)];
      } else {
        fails := true;
      }
    }
    assert TakeOffer(pr, m, p, SendOffer(a.track, a.reader)).0.prods == pr.prods[p := producer.View()];
  }

  /** One turn of the loop over the medias of producer number `p`. */
  lemma NextOffer(pr: Progress, q: Request, m: nat, p: nat, n: nat)
    requires WellSized(pr) && p < |pr.prods| && m < |q.medias| && n < |ReplyOf(q, m, p).answers|
    ensures var (pr', matched) := TakeOffer(pr, m, p, OfferOf(q.medias[m], ReplyOf(q, m, p).answers[n]));
            TakeOffers(pr, q, m, p, n) ==
            if matched && !TakesMany(q, m) then (pr', true) else TakeOffers(pr', q, m, p, n + 1)
  {
    assert VisitOf(q, m, p).offers[n] == OfferOf(q.medias[m], ReplyOf(q, m, p).answers[n]);
  }

  /** Offers media number `n` of a producer; `cur` is where the loop that began with `pr`
      stands. */
  method OfferNext(producer: Producer, q: Request, m: nat, p: nat, n: nat, fails: bool, starts: seq<Match>,
                   ghost pr: Progress, ghost cur: Progress)
      returns (matched: bool, fails': bool, starts': seq<Match>, ghost cur': Progress)
    requires producer.Valid() && WellSized(pr) && p < |pr.prods| && m < |q.medias|
    requires n < |ReplyOf(q, m, p).answers| && WellSized(cur) && |cur.prods| == |pr.prods|
    requires Became(pr, cur, p, producer.View(), fails) && starts == cur.starts
    modifies producer
    ensures producer.Valid() && WellSized(cur') && |cur'.prods| == |pr.prods|
    ensures Became(pr, cur', p, producer.View(), fails') && starts' == cur'.starts
    ensures TakeOffers(cur, q, m, p, n) ==
            if matched && !TakesMany(q, m) then (cur', true) else TakeOffers(cur', q, m, p, n + 1)
  {
    var answer := ReplyOf(q, m, p).answers[n];
    var failed;
    matched, failed, starts' := HandleOffer(producer, q.medias[m], m, p, answer, starts, cur);
    cur' := TakeOffer(cur, m, p, OfferOf(q.medias[m], answer)).0;
    fails' := fails || failed;
    NextOffer(cur, q, m, p, n);
  }

  /** The loop over the medias of producer number `p`. */
  method OfferMedias(producer: Producer, q: Request, m: nat, p: nat, starts: seq<Match>, ghost pr: Progress)
      returns (served: bool, fails: bool, starts': seq<Match>)
    requires producer.Valid() && WellSized(pr) && p < |pr.prods| && pr.prods[p] == producer.View()
    requires m < |q.medias| && starts == pr.starts
    modifies producer
    ensures producer.Valid() && served == TakeOffers(pr, q, m, p, 0).1
    ensures Became(pr, TakeOffers(pr, q, m, p, 0).0, p, producer.View(), fails)
    ensures starts' == TakeOffers(pr, q, m, p, 0).0.starts
  {
    var answers := ReplyOf(q, m, p).answers;
    var all := TakesAll(q.medias[m]);
    fails, starts' := false, starts;
    ghost var cur := pr;
    var n := 0;
    while n < |answers|
      invariant 0 <= n <= |answers|
      invariant producer.Valid() && WellSized(cur) && |cur.prods| == |pr.prods|
      invariant Became(pr, cur, p, producer.View(), fails) && starts' == cur.starts
      invariant TakeOffers(pr, q, m, p, 0) == TakeOffers(cur, q, m, p, n)
    {
      var matched;
      matched, fails, starts', cur := OfferNext(producer, q, m, p, n, fails, starts', pr, cur);
      if matched && !all {
        return true, fails, starts';
      }
      n := n + 1;
    }
    return false, fails, starts';
  }

  /** The body of the loop over the producers, for one that has not failed. */
  method TryOne(producer: Producer, q: Request, m: nat, p: nat, starts: seq<Match>, ghost pr: Progress)
      returns (served: bool, fails: bool, starts': seq<Match>, ghost pr': Progress)
    requires producer.Valid() && WellSized(pr) && p < |pr.prods| && pr.prods[p] == producer.View()
    requires m < |q.medias| && FreshDials(pr.prods, q) && p !in q.own && !pr.failed[p]
    requires starts == pr.starts
    modifies producer
    ensures producer.Valid()
    ensures WellSized(pr') && pr'.prods == pr.prods[p := producer.View()] && FreshDials(pr'.prods, q)
    ensures pr'.failed == if fails then pr.failed[p := true] else pr.failed
    ensures pr'.starts == starts'
    ensures TryProducers(pr, q, m, p) == if served then pr' else TryProducers(pr', q, m, p + 1)
  {
    var reply := ReplyOf(q, m, p);
    assert FreshAt(pr.prods, q, m, p);
    var ok := producer.Dial(if producer.state == StateNone then reply.dial else None);
    ghost var dialled := AfterDialling(pr, q, m, p);
    assert DialFails(pr, q, m, p) <==> !ok;
    FreshUpdate(pr.prods, q, p, dialled.prods[p]);
    if !ok {
      return false, true, starts, dialled;
    }
    served, fails, starts' := OfferMedias(producer, q, m, p, starts, dialled);
    pr' := TakeOffers(dialled, q, m, p, 0).0;
    OffersAcquireNothing(dialled, q, m, p, 0);
  }

  /** The position of the first `x`, or the length if there is none. */
  method IndexOf<T(==)>(s: seq<T>, x: T) returns (i: nat)
    ensures i <= |s| && forall j :: 0 <= j < i ==> s[j] != x
    ensures RemoveFirst(s, x) == if i < |s| then s[..i] + s[i + 1..] else s
  {
    i := 0;
    while i < |s| && s[i] != x
      invariant 0 <= i <= |s| && forall j :: 0 <= j < i ==> s[j] != x
    {
      i := i + 1;
    }
    if i < |s| {
      RemoveFirstAt(s, x, i);
    }
  }

  class Stream {
    var producers: seq<Producer>
    var consumers: seq<nat>
    var pending: int

    ghost predicate Distinct()
      reads this`producers
    {
      forall i, j :: 0 <= i < j < |producers| ==> producers[i] != producers[j]
    }

    ghost predicate Valid()
      reads this`producers, producers
    {
      && Distinct()
      && (forall i :: 0 <= i < |producers| ==> producers[i].Valid())
    }

    constructor (producers: seq<Producer>)
      requires forall i, j :: 0 <= i < j < |producers| ==> producers[i] != producers[j]
      requires forall i :: 0 <= i < |producers| ==> producers[i].Valid()
      ensures Valid() && this.producers == producers && consumers == [] && pending == 0
    {
      this.producers, consumers, pending := producers, [], 0;
    }

    /** The producers look like `prods`. */
    ghost predicate Shows(prods: seq<Lifecycle>)
      reads this`producers, producers
    {
      |prods| == |producers| && forall i :: 0 <= i < |producers| ==> ShowsAt(prods, i)
    }

    ghost predicate ShowsAt(prods: seq<Lifecycle>, i: nat)
      requires i < |prods| == |producers|
      reads this`producers, producers
    {
      producers[i].View() == prods[i]
    }

    /** Sweeps producer number `p`. */
    method SweepAt(p: nat, ghost prods: seq<Lifecycle>)
      requires Distinct() && p < |producers| && Shows(prods) && Inv(prods[p])
      modifies producers[p]
      ensures Shows(prods[p := Swept(0, prods[p])])
    {
      assert ShowsAt(prods, p);
      SweepOne(producers[p]);
      ghost var after := prods[p := Swept(0, prods[p])];
      forall i | 0 <= i < |producers| ensures ShowsAt(after, i) {
        if i != p {
          assert producers[i] != producers[p] && old(ShowsAt(prods, i));
        }
      }
    }

    /** Sweeps one more of the producers. */
    method SweepNext(n: nat, ghost prods: seq<Lifecycle>)
      requires Distinct() && n < |prods| && pending <= 0 && AllSound(prods)
      requires Shows(SweptUpTo(pending, prods, n))
      modifies producers
      ensures Shows(SweptUpTo(pending, prods, n + 1))
    {
      AllSoundIff(prods);
      SweptUpToAt(pending, prods, n, n);
      SweepAt(n, SweptUpTo(pending, prods, n));
    }

    /** Checks `pending` and sweeps, as one step. */
    method StopProducers(ghost prods: seq<Lifecycle>)
      requires Distinct() && Shows(prods) && AllSound(prods)
      modifies producers
      ensures Shows(SweepEach(pending, prods))
    {
      if pending > 0 {
        NoSweep(pending, prods);
        return;
      }
      for n := 0 to |producers|
        invariant Shows(SweptUpTo(pending, prods, n))
      {
        SweepNext(n, prods);
      }
    }

    /** What the end of a consumer does to producer number `p`. */
    method DepartAt(p: nat, d: Departure, ghost prods: seq<Lifecycle>)
      requires Distinct() && p < |producers| && Shows(prods)
      modifies producers[p]
      ensures Shows(prods[p := AfterDepart(prods[p], d)])
    {
      assert ShowsAt(prods, p);
      producers[p].Depart(d);
      ghost var after := prods[p := AfterDepart(prods[p], d)];
      forall i | 0 <= i < |producers| ensures ShowsAt(after, i) {
        if i != p {
          assert producers[i] != producers[p] && old(ShowsAt(prods, i));
        }
      }
    }

    /** The consumer's `Stop`: its readers and its tracks go, whatever producer they are
        with. */
    method StopConsumer(d: Departure, ghost prods: seq<Lifecycle>)
      requires Distinct() && Shows(prods)
      modifies producers
      ensures Shows(DepartedUpTo(prods, d, |prods|))
    {
      for n := 0 to |producers|
        invariant Shows(DepartedUpTo(prods, d, n))
      {
        DepartedUpToAt(prods, d, n, n);
        DepartAt(n, d, DepartedUpTo(prods, d, n));
      }
    }

    method Forget(cons: nat)
      modifies this`consumers
      ensures consumers == RemoveFirst(old(consumers), cons)
    {
      var i := IndexOf(consumers, cons);
      if i < |consumers| {
        consumers := consumers[..i] + consumers[i + 1..];
      }
    }

    /** Stops a consumer, drops it, and sweeps. `vs` is what the producers look like at the
        call. */
    method RemoveConsumer(cons: nat, d: Departure, ghost vs: seq<Lifecycle>)
      requires Valid() && Shows(vs)
      modifies this`consumers, producers
      ensures Valid() && consumers == RemoveFirst(old(consumers), cons)
      ensures Shows(SweepEach(pending, DepartedUpTo(vs, d, |vs|)))
    {
      ValidShows(vs);
      StopConsumer(d, vs);
      DepartedKeepsInv(vs, d);
      ghost var left := DepartedUpTo(vs, d, |vs|);
      Forget(cons);
      StopProducers(left);
      SweepEachKeepsInv(pending, left);
      ShowsValid(SweepEach(pending, left));
    }

    lemma ValidShows(vs: seq<Lifecycle>)
      requires Valid() && Shows(vs)
      ensures AllSound(vs)
    {
      forall i | 0 <= i < |vs| ensures Inv(vs[i]) {
        assert producers[i].Valid() && ShowsAt(vs, i);
      }
      AllSoundIff(vs);
    }

    lemma ShowsValid(vs: seq<Lifecycle>)
      requires Distinct() && Shows(vs) && AllSound(vs)
      ensures Valid()
    {
      AllSoundIff(vs);
      forall i | 0 <= i < |producers| ensures producers[i].Valid() {
        assert ShowsAt(vs, i) && Inv(vs[i]);
      }
    }

    method AddProducer(conn: ConnId, nodes: Nodes, backs: Nodes)
      requires Valid()
      modifies this`producers
      ensures Valid() && |producers| == |old(producers)| + 1
      ensures producers[..|old(producers)|] == old(producers) && fresh(producers[|old(producers)|])
      ensures producers[|old(producers)|].View() == AdoptedProducer(conn, StateExternal, nodes, backs)
    {
      var producer := new Producer.Adopt(conn, StateExternal, nodes, backs);
      producers := producers + [producer];
    }

    /** Drops the first producer on this connection; it is not stopped. */
    method RemoveProducer(conn: ConnId)
      requires Valid()
      modifies this`producers
      ensures Valid()
      ensures var was := old(producers);
              if forall i :: 0 <= i < |was| ==> was[i].conn != Some(conn) then producers == was
              else exists i :: 0 <= i < |was| && was[i].conn == Some(conn) && producers == was[..i] + was[i + 1..]
                               && forall j :: 0 <= j < i ==> was[j].conn != Some(conn)
    {
      for i := 0 to |producers|
        invariant producers == old(producers)
        invariant forall j :: 0 <= j < i ==> producers[j].conn != Some(conn)
      {
        if producers[i].conn == Some(conn) {
          producers := producers[..i] + producers[i + 1..];
          return;
        }
      }
    }

    /** Tries producer number `p`, which has not failed. */
    method TryAt(q: Request, m: nat, p: nat, starts: seq<Match>, ghost pr: Progress)
        returns (served: bool, fails: bool, starts': seq<Match>, ghost pr': Progress)
      requires Distinct() && p < |producers| && Shows(pr.prods) && AllSound(pr.prods) && WellSized(pr)
      requires m < |q.medias| && FreshDials(pr.prods, q) && p !in q.own && !pr.failed[p]
      requires starts == pr.starts
      modifies producers[p]
      ensures Shows(pr'.prods) && AllSound(pr'.prods) && WellSized(pr') && FreshDials(pr'.prods, q)
      ensures pr'.failed == if fails then pr.failed[p := true] else pr.failed
      ensures pr'.starts == starts'
      ensures TryProducers(pr, q, m, p) == if served then pr' else TryProducers(pr', q, m, p + 1)
    {
      assert ShowsAt(pr.prods, p) && SoundAt(pr.prods, p);
      served, fails, starts', pr' := TryOne(producers[p], q, m, p, starts, pr);
      AllSoundUpdate(pr.prods, p, pr'.prods[p]);
      ghost var after := pr.prods[p := pr'.prods[p]];
      forall i | 0 <= i < |producers| ensures ShowsAt(after, i) {
        if i != p {
          assert producers[i] != producers[p] && old(ShowsAt(pr.prods, i));
        }
      }
    }

    /** The loop over the producers for consumer media `m`. */
    method TryAll(q: Request, m: nat, failed: seq<bool>, starts: seq<Match>, ghost pr: Progress)
        returns (failed': seq<bool>, starts': seq<Match>, ghost pr': Progress)
      requires Distinct() && m < |q.medias| && |failed| == |producers|
      requires Shows(pr.prods) && AllSound(pr.prods) && FreshDials(pr.prods, q)
      requires pr.failed == failed && pr.starts == starts
      modifies producers
      ensures pr' == TryProducers(pr, q, m, 0)
      ensures Shows(pr'.prods) && AllSound(pr'.prods) && FreshDials(pr'.prods, q)
      ensures pr'.failed == failed' && |failed'| == |failed| && pr'.starts == starts'
    {
      pr', failed', starts' := pr, failed, starts;
      var p := 0;
      while p < |producers|
        invariant 0 <= p <= |producers|
        invariant Shows(pr'.prods) && AllSound(pr'.prods) && FreshDials(pr'.prods, q)
        invariant pr'.failed == failed' && |failed'| == |producers| && pr'.starts == starts'
        invariant TryProducers(pr, q, m, 0) == TryProducers(pr', q, m, p)
      {
        if p !in q.own && !failed'[p] {
          var served, fails;
          served, fails, starts', pr' := TryAt(q, m, p, starts', pr');
          if fails {
            failed' := failed'[p := true];
          }
          if served {
            return;
          }
        }
        p := p + 1;
      }
    }

    /** Starts producer number `p`. */
    method StartAt(p: nat, ghost prods: seq<Lifecycle>)
      requires Distinct() && p < |producers| && Shows(prods) && Inv(prods[p])
      modifies producers[p]
      ensures Shows(prods[p := AfterStart(prods[p])])
    {
      assert ShowsAt(prods, p);
      producers[p].Start();
      ghost var after := prods[p := AfterStart(prods[p])];
      forall i | 0 <= i < |producers| ensures ShowsAt(after, i) {
        if i != p {
          assert producers[i] != producers[p] && old(ShowsAt(prods, i));
        }
      }
    }

    /** Starts the producer of every match; a second start does nothing. */
    method StartAll(starts: seq<Match>, ghost prods: seq<Lifecycle>)
      requires Distinct() && Shows(prods) && AllSound(prods)
      requires forall i :: 0 <= i < |starts| ==> starts[i].prod < |producers|
      modifies producers
      ensures Shows(StartEach(prods, starts))
    {
      ghost var cur := prods;
      for n := 0 to |starts|
        invariant Shows(cur) && cur == StartEach(prods, starts[..n])
      {
        assert starts[..n + 1][..n] == starts[..n];
        StartEachKeepsInv(prods, starts[..n]);
        AllSoundIff(cur);
        StartAt(starts[n].prod, cur);
        cur := cur[starts[n].prod := AfterStart(cur[starts[n].prod])];
      }
      assert starts[..|starts|] == starts;
    }

    /** The loop over the consumer medias. */
    method ScanMedias(q: Request, failed: seq<bool>, ghost start: Progress)
        returns (starts: seq<Match>, ghost pr: Progress)
      requires Distinct() && Shows(start.prods) && AllSound(start.prods) && FreshDials(start.prods, q)
      requires start.failed == failed && |failed| == |producers| && start.starts == []
      modifies producers
      ensures pr == Scan(start, q, |q.medias|) && starts == pr.starts
      ensures Shows(pr.prods) && AllSound(pr.prods)
    {
      pr, starts := start, [];
      var failed' := failed;
      for m := 0 to |q.medias|
        invariant pr == Scan(start, q, m)
        invariant Shows(pr.prods) && AllSound(pr.prods) && FreshDials(pr.prods, q)
        invariant pr.failed == failed' && |failed'| == |producers|
        invariant pr.starts == starts
      {
        failed', starts, pr := TryAll(q, m, failed', starts, pr);
      }
    }

    /** The loops of `AddConsumer`. */
    method ScanAll(q: Request, ghost vs: seq<Lifecycle>) returns (starts: seq<Match>, ghost pr: Progress)
      requires Distinct() && Shows(vs) && FreshDials(vs, q) && AllSound(vs)
      modifies producers
      ensures pr == Scan(Begin(vs), q, |q.medias|) && starts == pr.starts
      ensures Shows(pr.prods) && AllSound(pr.prods)
      ensures forall i :: 0 <= i < |starts| ==> starts[i].prod < |pr.prods|
    {
      AllSoundIff(vs);
      MatchesInRange(vs, q, |q.medias|);
      var failed := seq(|producers|, i => false);
      starts, pr := ScanMedias(q, failed, Begin(vs));
      AllSoundIff(pr.prods);
    }

    /** Sweeps if nobody else is being attached. */
    method SweepIfIdle(ghost prods: seq<Lifecycle>)
      requires Distinct() && Shows(prods) && AllSound(prods)
      modifies producers
      ensures Shows(SweptIfIdle(prods, pending))
    {
      if pending == 0 {
        StopProducers(prods);
      }
    }

    /** Sweeps if nobody else is being attached, then starts what was matched. */
    method Settle(starts: seq<Match>, ghost pr: Progress) returns (ok: bool)
      requires Distinct() && Shows(pr.prods) && AllSound(pr.prods) && starts == pr.starts
      requires forall i :: 0 <= i < |starts| ==> starts[i].prod < |pr.prods|
      modifies producers
      ensures Valid() && (ok <==> Succeeds(pr))
      ensures Shows(SettleEach(pr, pending))
    {
      ghost var swept := SweptIfIdle(pr.prods, pending);
      SweptIfIdleKeepsInv(pr.prods, pending);
      SweepIfIdle(pr.prods);
      ok := starts != [];
      if ok {
        StartAll(starts, swept);
      }
      StartEachKeepsInv(swept, starts);
      ShowsValid(SettleEach(pr, pending));
    }

    /** The loops, with the counter raised while they run. */
    method ScanPending(q: Request, ghost vs: seq<Lifecycle>) returns (starts: seq<Match>, ghost pr: Progress)
      requires Distinct() && Shows(vs) && FreshDials(vs, q) && AllSound(vs)
      modifies this`pending, producers
      ensures pending == old(pending)
      ensures pr == Scan(Begin(vs), q, |q.medias|) && starts == pr.starts
      ensures Shows(pr.prods) && AllSound(pr.prods)
      ensures forall i :: 0 <= i < |starts| ==> starts[i].prod < |pr.prods|
    {
      pending := pending + 1;
      starts, pr := ScanAll(q, vs);
      pending := pending - 1;
    }

    /** All of `AddConsumer` but the list of consumers. */
    method Attach(q: Request, ghost vs: seq<Lifecycle>) returns (ok: bool, ghost pr: Progress)
      requires Distinct() && Shows(vs) && AllSound(vs) && FreshDials(vs, q)
      modifies this`pending, producers
      ensures Valid() && pending == old(pending)
      ensures pr == Scan(Begin(vs), q, |q.medias|) && (ok <==> Succeeds(pr))
      ensures Shows(SettleEach(pr, pending))
    {
      var starts;
      starts, pr := ScanPending(q, vs);
      ok := Settle(starts, pr);
    }

    /** Attaches a consumer. `vs` is what the producers look like at the call. */
    method AddConsumer(cons: nat, q: Request, ghost vs: seq<Lifecycle>) returns (ok: bool, ghost pr: Progress)
      requires Valid() && Shows(vs) && FreshDials(vs, q)
      modifies this`consumers, this`pending, producers
      ensures Valid() && pending == old(pending)
      ensures pr == Scan(Begin(vs), q, |q.medias|) && (ok <==> Succeeds(pr))
      ensures consumers == old(consumers) + (if ok then [cons] else [])
      ensures Shows(SettleEach(pr, pending))
    {
      ValidShows(vs);
      ok, pr := Attach(q, vs);
      if ok {
        consumers := consumers + [cons];
      }
    }
  }
}
