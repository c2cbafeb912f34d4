/** Attaching a consumer to a stream: every consumer media is offered to every
    producer in turn, and what fits is wired up. `Scan` is the specification of the
    nested loops; the stream's method refines it. */
module ConsumerAttach {
  import opened Wrappers
  import opened Tracks
  import opened Medias
  import opened ProducerLifecycle
  import opened StreamSweep

  /** A media of a producer, with the answers that are given when a track of it is
      wanted: the track itself, from the producer or for a backchannel from the consumer,
      and what the other side hangs below the track once it accepts it. */
  datatype Answer = Answer(media: Media, track: Option<Track>, reader: Option<Reader>)

  /** What a producer replies when it is tried for a consumer media. */
  datatype Reply = Reply(dial: Option<ConnId>, answers: seq<Answer>)

  /** The consumer: its medias, the producers whose source is its own, and the replies by
      number of consumer media and producer. */
  datatype Request = Request(medias: seq<Media>, own: set<nat>, replies: map<(nat, nat), Reply>)

  /** How one producer media fits one consumer media. */
  datatype Offer =
    | NoMatch
    | RecvOffer(codec: Codec, answer: Option<Track>, reader: Option<Reader>)
    | SendOffer(track: Option<Track>, reader: Option<Reader>)
    | DuplexOffer  // the producer media is neither recvonly nor sendonly

  datatype Visit = Visit(dial: Option<ConnId>, offers: seq<Offer>)

  /** A match of consumer media `media` with producer `prod`, and the track wired. */
  datatype Match = Match(media: nat, prod: nat, track: Option<Track>)

  datatype Progress = Progress(
    prods: seq<Lifecycle>,
    failed: seq<bool>,
    starts: seq<Match>,
    dials: seq<(nat, nat)>)

  function OfferOf(cons: Media, a: Answer): Offer {
    match MatchMedia(a.media, cons)
    case None => NoMatch
    case Some(pair) =>
      match a.media.direction
      case Recvonly => RecvOffer(pair.0, a.track, a.reader)
      case Sendonly => SendOffer(a.track, a.reader)
      case Sendrecv => DuplexOffer
  }

  function OffersOf(cons: Media, answers: seq<Answer>): (r: seq<Offer>)
    ensures |r| == |answers| && forall i :: 0 <= i < |answers| ==> r[i] == OfferOf(cons, answers[i])
  {
    seq(|answers|, i requires 0 <= i < |answers| => OfferOf(cons, answers[i]))
  }

  function ReplyOf(q: Request, m: nat, p: nat): Reply {
    if (m, p) in q.replies then q.replies[(m, p)] else Reply(None, [])
  }

  function VisitOf(q: Request, m: nat, p: nat): Visit {
    var reply := ReplyOf(q, m, p);
    Visit(reply.dial, if m < |q.medias| then OffersOf(q.medias[m], reply.answers) else [])
  }

  /** Consumer media `m` takes all that fits it. */
  predicate TakesMany(q: Request, m: nat)
    requires m < |q.medias|
  {
    MatchAll(q.medias[m])
  }

  predicate WellSized(pr: Progress) {
    |pr.failed| == |pr.prods|
  }

  function Fail(pr: Progress, p: nat): Progress
    requires WellSized(pr) && p < |pr.prods|
  {
    pr.(failed := pr.failed[p := true])
  }

  function Update(pr: Progress, p: nat, to: Lifecycle): Progress
    requires p < |pr.prods|
  {
    pr.(prods := pr.prods[p := to])
  }

  /** Handles one offer. The flag says whether the offer was a match. */
  function TakeOffer(pr: Progress, m: nat, p: nat, offer: Offer): (r: (Progress, bool))
    requires WellSized(pr) && p < |pr.prods|
    ensures WellSized(r.0) && |r.0.prods| == |pr.prods|
  {
    match offer
    case NoMatch => (pr, false)
    case RecvOffer(codec, answer, reader) =>
      var known := HasCodec(pr.prods[p].wiring.receivers, codec);
      var track := if pr.prods[p].state == StateNone then None else if known.Some? then known else answer;
      if track.None? then (Fail(pr, p), false)
      else
        var got := AfterGetTrack(pr.prods[p], codec, answer);
        if reader.None? then (Update(pr, p, got), false)
        else
          (Update(pr, p, AfterAttach(got, track.value, reader.value))
             .(starts := pr.starts + [Match(m, p, track)]), true)
    case SendOffer(track, reader) =>
      if track.None? then (pr, false)
      else if pr.prods[p].state == StateNone || reader.None? then (Fail(pr, p), false)
      else
        var got := AfterAddTrack(pr.prods[p], track.value, reader);
        (Update(pr, p, got).(starts := pr.starts + [Match(m, p, track)]), true)
    case DuplexOffer => (pr.(starts := pr.starts + [Match(m, p, None)]), true)
  }

  /** The loop over the medias of producer `p`, of which `n` are done. The flag says
      that the consumer media is served and the search ends. */
  function TakeOffers(pr: Progress, q: Request, m: nat, p: nat, n: nat): (r: (Progress, bool))
    requires WellSized(pr) && p < |pr.prods| && m < |q.medias|
    ensures WellSized(r.0) && |r.0.prods| == |pr.prods|
    ensures r.1 ==> !TakesMany(q, m)
    decreases |VisitOf(q, m, p).offers| - n
  {
    var offers := VisitOf(q, m, p).offers;
    if n >= |offers| then (pr, false)
    else
      var (pr', matched) := TakeOffer(pr, m, p, offers[n]);
      if matched && !TakesMany(q, m) then (pr', true)
      else TakeOffers(pr', q, m, p, n + 1)
  }

  predicate DialFails(pr: Progress, q: Request, m: nat, p: nat)
    requires p < |pr.prods|
  {
    pr.prods[p].state == StateNone && VisitOf(q, m, p).dial.None?
  }

  function AfterDialling(pr: Progress, q: Request, m: nat, p: nat): (r: Progress)
    requires WellSized(pr) && p < |pr.prods|
    ensures WellSized(r) && |r.prods| == |pr.prods|
  {
    var dialled := pr.(dials := pr.dials + [(m, p)]);
    if DialFails(pr, q, m, p) then Fail(dialled, p)
    else Update(dialled, p, AfterDial(pr.prods[p], VisitOf(q, m, p).dial))
  }

  /** The loop over the producers, of which `p` are done. */
  function TryProducers(pr: Progress, q: Request, m: nat, p: nat): (r: Progress)
    requires WellSized(pr) && m < |q.medias|
    ensures WellSized(r) && |r.prods| == |pr.prods|
    decreases |pr.prods| - p
  {
    if p >= |pr.prods| then pr
    else if p in q.own || pr.failed[p] then TryProducers(pr, q, m, p + 1)
    else
      var dialled := AfterDialling(pr, q, m, p);
      if DialFails(pr, q, m, p) then TryProducers(dialled, q, m, p + 1)
      else
        var (taken, served) := TakeOffers(dialled, q, m, p, 0);
        if served then taken else TryProducers(taken, q, m, p + 1)
  }

  /** The first `n` consumer medias. */
  function Scan(pr: Progress, q: Request, n: nat): (r: Progress)
    requires WellSized(pr) && n <= |q.medias|
    ensures WellSized(r) && |r.prods| == |pr.prods|
  {
    if n == 0 then pr else TryProducers(Scan(pr, q, n - 1), q, n - 1, 0)
  }

  function Begin(prods: seq<Lifecycle>): (r: Progress)
    ensures WellSized(r)
  {
    Progress(prods, seq(|prods|, i => false), [], [])
  }

  // ------------------------------------------------------------- growth of a scan

  /** Nothing of a producer is lost while consumers are attached. */
  ghost predicate Grows(p: Lifecycle, q: Lifecycle) {
    && p.wiring.receivers <= q.wiring.receivers
    && p.senders <= q.senders
    && (forall t :: Childs(p.wiring.nodes, t) <= Childs(q.wiring.nodes, t))
    && (forall t :: Childs(p.backs, t) <= Childs(q.backs, t))
    && (p.state != StateNone ==> q.state != StateNone)
    && (p.state != StateNone && p.state != StateMedias ==> q.state == p.state)
    && (q.state != p.state ==> q.state == StateMedias || q.state == StateTracks)
  }

  ghost predicate GrowsAt(pr: Progress, r: Progress, i: nat)
    requires i < |pr.prods| == |r.prods|
  {
    Grows(pr.prods[i], r.prods[i])
  }

  /** From `pr` to `r`: producers only grow, failures stay, matches and dials are
      only appended, and nothing is done for a producer in `shut`. */
  ghost predicate Extends(pr: Progress, r: Progress, shut: seq<bool>) {
    && WellSized(pr) && WellSized(r) && |r.prods| == |pr.prods| == |shut|
    && (forall i :: 0 <= i < |pr.prods| ==> GrowsAt(pr, r, i))
    && (forall i :: 0 <= i < |pr.failed| && pr.failed[i] ==> r.failed[i])
    && pr.starts <= r.starts && pr.dials <= r.dials
    && (forall i :: |pr.starts| <= i < |r.starts| ==>
          r.starts[i].prod < |shut| && !shut[r.starts[i].prod])
    && (forall i :: |pr.dials| <= i < |r.dials| ==> r.dials[i].1 < |shut| && !shut[r.dials[i].1])
  }

  lemma ExtendsTrans(a: Progress, b: Progress, c: Progress, shut: seq<bool>)
    requires Extends(a, b, shut) && Extends(b, c, shut)
    ensures Extends(a, c, shut)
  {
    forall i | 0 <= i < |a.prods| ensures GrowsAt(a, c, i) {
      assert GrowsAt(a, b, i) && GrowsAt(b, c, i);
    }
  }

  /** An offer concerns one producer, opens no connection, and is recorded as a
      match exactly when it is one. */
  lemma OfferTouches(pr: Progress, m: nat, p: nat, offer: Offer)
    requires WellSized(pr) && p < |pr.prods|
    ensures var (r, matched) := TakeOffer(pr, m, p, offer);
            && r.prods == pr.prods[p := r.prods[p]]
            && r.prods[p].acquired == pr.prods[p].acquired
            && (r.prods[p].state == StateNone <==> pr.prods[p].state == StateNone)
            && r.dials == pr.dials
            && (!matched ==> r.starts == pr.starts)
            && (matched ==> |r.starts| == |pr.starts| + 1 && r.starts[..|pr.starts|] == pr.starts
                            && r.starts[|pr.starts|].media == m && r.starts[|pr.starts|].prod == p)
  {
  }

  lemma OfferGrows(pr: Progress, m: nat, p: nat, offer: Offer)
    requires WellSized(pr) && p < |pr.prods|
    ensures Grows(pr.prods[p], TakeOffer(pr, m, p, offer).0.prods[p])
  {
  }

  lemma OfferExtends(pr: Progress, m: nat, p: nat, offer: Offer, shut: seq<bool>)
    requires WellSized(pr) && p < |pr.prods| == |shut| && !shut[p]
    ensures Extends(pr, TakeOffer(pr, m, p, offer).0, shut)
  {
    OfferGrows(pr, m, p, offer);
    OfferTouches(pr, m, p, offer);
  }

  lemma {:induction false} OffersExtend(pr: Progress, q: Request, m: nat, p: nat, n: nat, shut: seq<bool>)
    requires WellSized(pr) && p < |pr.prods| == |shut| && m < |q.medias| && !shut[p]
    ensures Extends(pr, TakeOffers(pr, q, m, p, n).0, shut)
    decreases |VisitOf(q, m, p).offers| - n
  {
    var offers := VisitOf(q, m, p).offers;
    if n < |offers| {
      var (pr', matched) := TakeOffer(pr, m, p, offers[n]);
      OfferExtends(pr, m, p, offers[n], shut);
      if !matched || TakesMany(q, m) {
        OffersExtend(pr', q, m, p, n + 1, shut);
        ExtendsTrans(pr, pr', TakeOffers(pr', q, m, p, n + 1).0, shut);
      }
    }
  }

  lemma DiallingExtends(pr: Progress, q: Request, m: nat, p: nat, shut: seq<bool>)
    requires WellSized(pr) && p < |pr.prods| == |shut| && !shut[p]
    ensures Extends(pr, AfterDialling(pr, q, m, p), shut)
  {
    assert Grows(pr.prods[p], AfterDialling(pr, q, m, p).prods[p]);
  }

  lemma VisitExtends(pr: Progress, q: Request, m: nat, p: nat, shut: seq<bool>)
    requires WellSized(pr) && p < |pr.prods| == |shut| && m < |q.medias| && !shut[p]
    ensures Extends(pr, TakeOffers(AfterDialling(pr, q, m, p), q, m, p, 0).0, shut)
  {
    var dialled := AfterDialling(pr, q, m, p);
    DiallingExtends(pr, q, m, p, shut);
    OffersExtend(dialled, q, m, p, 0, shut);
    ExtendsTrans(pr, dialled, TakeOffers(dialled, q, m, p, 0).0, shut);
  }

  lemma {:induction false} ProducersExtend(pr: Progress, q: Request, m: nat, p: nat, shut: seq<bool>)
    requires WellSized(pr) && m < |q.medias| && |shut| == |pr.prods|
    requires forall i :: 0 <= i < |shut| && shut[i] ==> pr.failed[i]
    ensures Extends(pr, TryProducers(pr, q, m, p), shut)
    decreases |pr.prods| - p
  {
    if p < |pr.prods| {
      if p in q.own || pr.failed[p] {
        ProducersExtend(pr, q, m, p + 1, shut);
      } else {
        var dialled := AfterDialling(pr, q, m, p);
        DiallingExtends(pr, q, m, p, shut);
        if DialFails(pr, q, m, p) {
          ProducersExtend(dialled, q, m, p + 1, shut);
          ExtendsTrans(pr, dialled, TryProducers(dialled, q, m, p + 1), shut);
        } else {
          var (taken, served) := TakeOffers(dialled, q, m, p, 0);
          VisitExtends(pr, q, m, p, shut);
          if !served {
            ProducersExtend(taken, q, m, p + 1, shut);
            ExtendsTrans(pr, taken, TryProducers(taken, q, m, p + 1), shut);
          }
        }
      }
    }
  }

  /** A producer that failed for one consumer media is neither dialled nor matched
      for any later one, and its failure is not forgotten. */
  lemma {:induction false} FailedProducerIsSkipped(pr: Progress, q: Request, n: nat, n': nat)
    requires WellSized(pr) && n <= n' <= |q.medias|
    ensures Extends(Scan(pr, q, n), Scan(pr, q, n'), Scan(pr, q, n).failed)
  {
    var shut := Scan(pr, q, n).failed;
    if n < n' {
      FailedProducerIsSkipped(pr, q, n, n' - 1);
      ProducersExtend(Scan(pr, q, n' - 1), q, n' - 1, 0, shut);
      ExtendsTrans(Scan(pr, q, n), Scan(pr, q, n' - 1), Scan(pr, q, n'), shut);
    }
  }

  // ------------------------------------------------------- one track for one media

  /** Media `m` has been matched at most once, unless it matches all. */
  ghost predicate OncePerMedia(starts: seq<Match>, q: Request) {
    forall i, j :: 0 <= i < j < |starts| && starts[i].media == starts[j].media ==>
      starts[i].media < |q.medias| && TakesMany(q, starts[i].media)
  }

  ghost predicate AllBefore(starts: seq<Match>, m: nat) {
    forall i :: 0 <= i < |starts| ==> starts[i].media < m
  }

  lemma OneMoreMatch(starts: seq<Match>, starts': seq<Match>, q: Request, m: nat)
    requires m < |q.medias| && OncePerMedia(starts, q)
    requires if TakesMany(q, m) then AllBefore(starts, m + 1) else AllBefore(starts, m)
    requires || starts' == starts
             || (|starts'| == |starts| + 1 && starts'[..|starts|] == starts && starts'[|starts|].media == m)
    ensures OncePerMedia(starts', q) && AllBefore(starts', m + 1)
  {
    forall i | 0 <= i < |starts| ensures starts'[i] == starts[i] {
      assert starts'[..|starts|][i] == starts'[i];
    }
  }

  /** The search for media `m` ends with its first match unless it matches all. */
  lemma {:induction false} OffersMatchOnce(pr: Progress, q: Request, m: nat, p: nat, n: nat)
    requires WellSized(pr) && p < |pr.prods| && m < |q.medias| && OncePerMedia(pr.starts, q)
    requires if TakesMany(q, m) then AllBefore(pr.starts, m + 1) else AllBefore(pr.starts, m)
    ensures var (r, served) := TakeOffers(pr, q, m, p, n);
            && OncePerMedia(r.starts, q) && AllBefore(r.starts, m + 1)
            && (served || TakesMany(q, m) || AllBefore(r.starts, m))
    decreases |VisitOf(q, m, p).offers| - n
  {
    var offers := VisitOf(q, m, p).offers;
    if n < |offers| {
      var (pr', matched) := TakeOffer(pr, m, p, offers[n]);
      OfferTouches(pr, m, p, offers[n]);
      OneMoreMatch(pr.starts, pr'.starts, q, m);
      if !matched || TakesMany(q, m) {
        OffersMatchOnce(pr', q, m, p, n + 1);
      }
    }
  }

  lemma {:induction false} ProducersMatchOnce(pr: Progress, q: Request, m: nat, p: nat)
    requires WellSized(pr) && m < |q.medias| && OncePerMedia(pr.starts, q)
    requires if TakesMany(q, m) then AllBefore(pr.starts, m + 1) else AllBefore(pr.starts, m)
    ensures OncePerMedia(TryProducers(pr, q, m, p).starts, q) && AllBefore(TryProducers(pr, q, m, p).starts, m + 1)
    decreases |pr.prods| - p
  {
    if p < |pr.prods| {
      if p in q.own || pr.failed[p] {
        ProducersMatchOnce(pr, q, m, p + 1);
      } else {
        var dialled := AfterDialling(pr, q, m, p);
        if DialFails(pr, q, m, p) {
          ProducersMatchOnce(dialled, q, m, p + 1);
        } else {
          var (taken, served) := TakeOffers(dialled, q, m, p, 0);
          OffersMatchOnce(dialled, q, m, p, 0);
          if !served {
            ProducersMatchOnce(taken, q, m, p + 1);
          }
        }
      }
    }
  }

  /** A consumer media that does not match all gets at most one track. */
  lemma {:induction false} AtMostOneTrackPerMedia(prods: seq<Lifecycle>, q: Request, n: nat)
    requires n <= |q.medias|
    ensures OncePerMedia(Scan(Begin(prods), q, n).starts, q) && AllBefore(Scan(Begin(prods), q, n).starts, n)
  {
    if n != 0 {
      AtMostOneTrackPerMedia(prods, q, n - 1);
      ProducersMatchOnce(Scan(Begin(prods), q, n - 1), q, n - 1, 0);
    }
  }

  // ------------------------------------------------------ matched producers are read

  /** The producer of every match with a track is read through that track. */
  ghost predicate MatchesAreRead(pr: Progress) {
    forall i :: 0 <= i < |pr.starts| ==> ReadAt(pr, i)
  }

  ghost predicate ReadAt(pr: Progress, i: nat)
    requires i < |pr.starts|
  {
    pr.starts[i].track.Some? ==>
      && pr.starts[i].prod < |pr.prods|
      && ReadThrough(pr.prods[pr.starts[i].prod], pr.starts[i].track.value)
  }

  ghost predicate ReadThrough(p: Lifecycle, t: Track) {
    && (|| (t in p.wiring.receivers && Childs(p.wiring.nodes, t) != [])
        || (t in p.senders && Childs(p.backs, t) != []))
    && p.state != StateNone && p.state != StateMedias
  }

  lemma ReadThroughGrows(p: Lifecycle, q: Lifecycle, t: Track)
    requires ReadThrough(p, t) && Grows(p, q)
    ensures ReadThrough(q, t)
  {
    assert Childs(p.wiring.nodes, t) <= Childs(q.wiring.nodes, t) && Childs(p.backs, t) <= Childs(q.backs, t);
  }

  lemma {:induction false} HasCodecFinds(receivers: seq<Track>, codec: Codec)
    ensures HasCodec(receivers, codec).Some? ==> HasCodec(receivers, codec).value in receivers
  {
    if receivers != [] {
      HasCodecFinds(receivers[1..], codec);
    }
  }

  lemma ReaderKeepsInv(p: Lifecycle, t: Track, r: Reader)
    requires Inv(p)
    ensures Inv(AfterAttach(p, t, r))
  {
  }

  lemma OfferKeepsInv(pr: Progress, m: nat, p: nat, offer: Offer)
    requires WellSized(pr) && p < |pr.prods| && Inv(pr.prods[p])
    ensures Inv(TakeOffer(pr, m, p, offer).0.prods[p])
  {
    var r := TakeOffer(pr, m, p, offer).0.prods[p];
    if r != pr.prods[p] {
      if offer.RecvOffer? {
        var got := AfterGetTrack(pr.prods[p], offer.codec, offer.answer);
        StepKeepsInv(pr.prods[p], GetTrack(offer.codec, offer.answer));
        assert Inv(got);
        if offer.reader.Some? {
          var known := HasCodec(pr.prods[p].wiring.receivers, offer.codec);
          ReaderKeepsInv(got, (if known.Some? then known else offer.answer).value, offer.reader.value);
        }
      } else {
        StepKeepsInv(pr.prods[p], AddTrack(offer.track.value, offer.reader));
      }
    }
  }

  lemma NewMatchIsRead(pr: Progress, m: nat, p: nat, offer: Offer)
    requires WellSized(pr) && p < |pr.prods| && NilExactlyInNone(pr.prods[p])
    requires TakeOffer(pr, m, p, offer).1 && !offer.DuplexOffer?
    ensures var r := TakeOffer(pr, m, p, offer).0;
            && |r.starts| == |pr.starts| + 1 && r.starts[|pr.starts|].prod == p
            && r.starts[|pr.starts|].track.Some?
            && ReadThrough(r.prods[p], r.starts[|pr.starts|].track.value)
  {
    if offer.RecvOffer? {
      HasCodecFinds(pr.prods[p].wiring.receivers, offer.codec);
    }
  }

  lemma OfferIsRead(pr: Progress, m: nat, p: nat, offer: Offer)
    requires WellSized(pr) && p < |pr.prods| && MatchesAreRead(pr) && Inv(pr.prods[p])
    ensures MatchesAreRead(TakeOffer(pr, m, p, offer).0)
  {
    var (r, matched) := TakeOffer(pr, m, p, offer);
    OfferTouches(pr, m, p, offer);
    OfferGrows(pr, m, p, offer);
    forall i | 0 <= i < |r.starts| ensures ReadAt(r, i) {
      if i < |pr.starts| {
        assert ReadAt(pr, i) && pr.starts[i] == r.starts[..|pr.starts|][i];
        StaysRead(pr, r, p, i);
      } else if !offer.DuplexOffer? {
        NewMatchIsRead(pr, m, p, offer);
      }
    }
  }

  /** A match stays read when one producer grows. */
  lemma StaysRead(pr: Progress, r: Progress, p: nat, i: nat)
    requires i < |pr.starts| && i < |r.starts| && r.starts[i] == pr.starts[i] && ReadAt(pr, i)
    requires p < |pr.prods| == |r.prods| && r.prods == pr.prods[p := r.prods[p]] && Grows(pr.prods[p], r.prods[p])
    ensures ReadAt(r, i)
  {
    var start := pr.starts[i];
    if start.track.Some? && start.prod == p {
      ReadThroughGrows(pr.prods[p], r.prods[p], start.track.value);
    }
  }

  lemma AllSoundUpdate(prods: seq<Lifecycle>, p: nat, v: Lifecycle)
    requires AllSound(prods) && p < |prods| && Inv(v)
    ensures AllSound(prods[p := v])
  {
    AllSoundIff(prods);
    AllSoundIff(prods[p := v]);
  }

  /** Every connection that a dial of the request can return is new to its producer. */
  ghost predicate FreshDials(prods: seq<Lifecycle>, q: Request) {
    forall m: nat, p: nat :: p < |prods| ==> FreshAt(prods, q, m, p)
  }

  ghost predicate FreshAt(prods: seq<Lifecycle>, q: Request, m: nat, p: nat)
    requires p < |prods|
  {
    ReplyOf(q, m, p).dial.Some? && prods[p].state == StateNone ==> ReplyOf(q, m, p).dial.value !in prods[p].acquired
  }

  lemma FreshUpdate(prods: seq<Lifecycle>, q: Request, p: nat, v: Lifecycle)
    requires FreshDials(prods, q) && p < |prods|
    requires v.state == StateNone ==> prods[p].state == StateNone && v.acquired == prods[p].acquired
    ensures FreshDials(prods[p := v], q)
  {
    var after := prods[p := v];
    forall m: nat, i: nat | i < |prods| ensures FreshAt(after, q, m, i) {
      assert FreshAt(prods, q, m, i);
    }
  }

  lemma OfferStaysRead(pr: Progress, q: Request, m: nat, p: nat, offer: Offer)
    requires WellSized(pr) && p < |pr.prods| && pr.prods[p].state != StateNone
    requires MatchesAreRead(pr) && AllSound(pr.prods) && FreshDials(pr.prods, q)
    ensures var r := TakeOffer(pr, m, p, offer).0;
            MatchesAreRead(r) && AllSound(r.prods) && FreshDials(r.prods, q) && r.prods[p].state != StateNone
  {
    assert SoundAt(pr.prods, p);
    var r := TakeOffer(pr, m, p, offer).0;
    OfferIsRead(pr, m, p, offer);
    OfferKeepsInv(pr, m, p, offer);
    OfferTouches(pr, m, p, offer);
    AllSoundUpdate(pr.prods, p, r.prods[p]);
    FreshUpdate(pr.prods, q, p, r.prods[p]);
  }

  lemma {:induction false} OffersAreRead(pr: Progress, q: Request, m: nat, p: nat, n: nat)
    requires WellSized(pr) && p < |pr.prods| && m < |q.medias|
    requires MatchesAreRead(pr) && AllSound(pr.prods) && FreshDials(pr.prods, q) && pr.prods[p].state != StateNone
    ensures var r := TakeOffers(pr, q, m, p, n).0; MatchesAreRead(r) && AllSound(r.prods) && FreshDials(r.prods, q)
    decreases |VisitOf(q, m, p).offers| - n
  {
    var offers := VisitOf(q, m, p).offers;
    if n < |offers| {
      var (pr', matched) := TakeOffer(pr, m, p, offers[n]);
      OfferStaysRead(pr, q, m, p, offers[n]);
      if !matched || TakesMany(q, m) {
        OffersAreRead(pr', q, m, p, n + 1);
      }
    }
  }

  /** Taking offers opens no connection. */
  lemma {:induction false} OffersAcquireNothing(pr: Progress, q: Request, m: nat, p: nat, n: nat)
    requires WellSized(pr) && p < |pr.prods| && m < |q.medias| && FreshDials(pr.prods, q)
    requires pr.prods[p].state != StateNone
    ensures FreshDials(TakeOffers(pr, q, m, p, n).0.prods, q)
    decreases |VisitOf(q, m, p).offers| - n
  {
    var offers := VisitOf(q, m, p).offers;
    if n < |offers| {
      var (pr', matched) := TakeOffer(pr, m, p, offers[n]);
      OfferTouches(pr, m, p, offers[n]);
      FreshUpdate(pr.prods, q, p, pr'.prods[p]);
      if !matched || TakesMany(q, m) {
        OffersAcquireNothing(pr', q, m, p, n + 1);
      }
    }
  }

  lemma DialIsRead(pr: Progress, q: Request, m: nat, p: nat)
    requires WellSized(pr) && p < |pr.prods|
    requires MatchesAreRead(pr) && AllSound(pr.prods) && FreshDials(pr.prods, q)
    ensures var r := AfterDialling(pr, q, m, p); MatchesAreRead(r) && AllSound(r.prods) && FreshDials(r.prods, q)
    ensures DialFails(pr, q, m, p) || AfterDialling(pr, q, m, p).prods[p].state != StateNone
  {
    var r := AfterDialling(pr, q, m, p);
    assert SoundAt(pr.prods, p) && FreshAt(pr.prods, q, m, p);
    assert r.prods == pr.prods[p := r.prods[p]];
    if !DialFails(pr, q, m, p) && pr.prods[p].state == StateNone {
      StepKeepsInv(pr.prods[p], Dial(VisitOf(q, m, p).dial));
    }
    AllSoundUpdate(pr.prods, p, r.prods[p]);
    FreshUpdate(pr.prods, q, p, r.prods[p]);
    forall i | 0 <= i < |r.starts| ensures ReadAt(r, i) {
      assert ReadAt(pr, i);
      StaysRead(pr, r, p, i);
    }
  }

  lemma {:induction false} ProducersAreRead(pr: Progress, q: Request, m: nat, p: nat)
    requires WellSized(pr) && m < |q.medias|
    requires MatchesAreRead(pr) && AllSound(pr.prods) && FreshDials(pr.prods, q)
    ensures var r := TryProducers(pr, q, m, p); MatchesAreRead(r) && AllSound(r.prods) && FreshDials(r.prods, q)
    decreases |pr.prods| - p
  {
    if p < |pr.prods| {
      if p in q.own || pr.failed[p] {
        ProducersAreRead(pr, q, m, p + 1);
      } else {
        var dialled := AfterDialling(pr, q, m, p);
        DialIsRead(pr, q, m, p);
        if DialFails(pr, q, m, p) {
          ProducersAreRead(dialled, q, m, p + 1);
        } else {
          var (taken, served) := TakeOffers(dialled, q, m, p, 0);
          OffersAreRead(dialled, q, m, p, 0);
          if !served {
            ProducersAreRead(taken, q, m, p + 1);
          }
        }
      }
    }
  }

  /** Attaching keeps the invariants of every producer, and every track that was
      wired is held by its producer and has a reader. */
  lemma {:induction false} ScanIsRead(prods: seq<Lifecycle>, q: Request, n: nat)
    requires n <= |q.medias| && FreshDials(prods, q)
    requires AllSound(prods)
    ensures var r := Scan(Begin(prods), q, n); MatchesAreRead(r) && AllSound(r.prods) && FreshDials(r.prods, q)
  {
    if n != 0 {
      ScanIsRead(prods, q, n - 1);
      ProducersAreRead(Scan(Begin(prods), q, n - 1), q, n - 1, 0);
    }
  }

  // ------------------------------------------------------------ sweep, then start

  ghost predicate MatchedIn(starts: seq<Match>, p: nat) {
    exists i :: 0 <= i < |starts| && starts[i].prod == p
  }

  /** What becomes of producer `p` after the scan: a sweep if nobody else is being
      attached, then a start if it was matched. */
  ghost function Settled(pr: Progress, pending: int, p: nat): Lifecycle
    requires p < |pr.prods|
  {
    var swept := if pending == 0 then Swept(0, pr.prods[p]) else pr.prods[p];
    if MatchedIn(pr.starts, p) then AfterStart(swept) else swept
  }

  /** Starting the producer of each match in turn. */
  ghost function StartEach(prods: seq<Lifecycle>, starts: seq<Match>): (r: seq<Lifecycle>)
    ensures |r| == |prods|
    decreases |starts|
  {
    if starts == [] then prods
    else
      var n := |starts| - 1;
      var p, before := starts[n].prod, StartEach(prods, starts[..n]);
      if p < |prods| then before[p := AfterStart(before[p])] else before
  }

  function SweptIfIdle(prods: seq<Lifecycle>, pending: int): (r: seq<Lifecycle>)
    ensures |r| == |prods|
  {
    if pending == 0 then SweepEach(pending, prods) else prods
  }

  /** The producers after the scan. */
  ghost function SettleEach(pr: Progress, pending: int): (r: seq<Lifecycle>)
    ensures |r| == |pr.prods|
  {
    StartEach(SweptIfIdle(pr.prods, pending), pr.starts)
  }

  lemma {:induction false} StartEachKeepsInv(prods: seq<Lifecycle>, starts: seq<Match>)
    requires AllSound(prods)
    ensures AllSound(StartEach(prods, starts))
    decreases |starts|
  {
    if starts != [] {
      var n := |starts| - 1;
      var p, before := starts[n].prod, StartEach(prods, starts[..n]);
      StartEachKeepsInv(prods, starts[..n]);
      if p < |prods| {
        AllSoundIff(before);
        StartKeepsInv(before[p]);
        AllSoundUpdate(before, p, AfterStart(before[p]));
      }
    }
  }

  /** Starting a producer again changes nothing, so duplicates do no harm. */
  lemma {:induction false} StartEachIsOnce(prods: seq<Lifecycle>, starts: seq<Match>, p: nat)
    requires p < |prods|
    ensures StartEach(prods, starts)[p] == if MatchedIn(starts, p) then AfterStart(prods[p]) else prods[p]
    decreases |starts|
  {
    if starts != [] {
      var n := |starts| - 1;
      StartEachIsOnce(prods, starts[..n], p);
      assert MatchedIn(starts, p) <==> MatchedIn(starts[..n], p) || starts[n].prod == p;
    }
  }

  lemma {:induction false} MatchesInRange(prods: seq<Lifecycle>, q: Request, n: nat)
    requires n <= |q.medias|
    ensures forall i :: 0 <= i < |Scan(Begin(prods), q, n).starts| ==> Scan(Begin(prods), q, n).starts[i].prod < |prods|
  {
    FailedProducerIsSkipped(Begin(prods), q, 0, n);
  }

  lemma SweptIfIdleKeepsInv(prods: seq<Lifecycle>, pending: int)
    requires AllSound(prods)
    ensures AllSound(SweptIfIdle(prods, pending))
  {
    SweepEachKeepsInv(pending, prods);
  }

  /** Each producer ends as it would alone: swept if nobody else is being attached,
      and started once if it was matched, however often. */
  lemma SettleEachAt(pr: Progress, pending: int, p: nat)
    requires p < |pr.prods|
    ensures SettleEach(pr, pending)[p] == Settled(pr, pending, p)
  {
    StartEachIsOnce(SweptIfIdle(pr.prods, pending), pr.starts, p);
    SweepEachAt(pending, pr.prods, p);
  }

  /** A producer that got a track wired is not swept away before it starts: it ends
      up started, or keeps its state if it is external or internal. */
  lemma {:induction false} WiredProducerIsStarted(prods: seq<Lifecycle>, q: Request, pending: int, k: nat)
    requires FreshDials(prods, q) && AllSound(prods)
    requires k < |Scan(Begin(prods), q, |q.medias|).starts|
    requires Scan(Begin(prods), q, |q.medias|).starts[k].track.Some?
    ensures var pr := Scan(Begin(prods), q, |q.medias|);
            && pr.starts[k].prod < |pr.prods|
            && var end := Settled(pr, pending, pr.starts[k].prod);
               && Inv(end)
               && (end.state == StateStart || end.state == StateExternal || end.state == StateInternal)
               && ReadThrough(end, pr.starts[k].track.value)
  {
    ScanIsRead(prods, q, |q.medias|);
    var pr := Scan(Begin(prods), q, |q.medias|);
    var p, t := pr.starts[k].prod, pr.starts[k].track.value;
    assert ReadAt(pr, k);
    var a := pr.prods[p];
    assert SoundAt(pr.prods, p);
    if t in a.wiring.receivers && Childs(a.wiring.nodes, t) != [] {
      var i :| 0 <= i < |a.wiring.receivers| && a.wiring.receivers[i] == t;
      assert Childs(a.wiring.nodes, a.wiring.receivers[i]) != [];
    } else {
      var i :| 0 <= i < |a.senders| && a.senders[i] == t;
      assert Childs(a.backs, a.senders[i]) != [];
    }
    AnyReadIff(a.wiring.nodes, a.wiring.receivers);
    AnyReadIff(a.backs, a.senders);
    assert HasReaders(a);
    StartKeepsInv(a);
  }

  // ------------------------------------------------------------- the returned error

  /** `AddConsumer` returns no error exactly when something matched; a match has a
      track unless its producer media is neither recvonly nor sendonly. */
  predicate Succeeds(pr: Progress) {
    pr.starts != []
  }

  ghost predicate TrackAttached(pr: Progress) {
    exists i :: 0 <= i < |pr.starts| && pr.starts[i].track.Some?
  }

  /** Producer `p` offers a media that fits consumer media `m` and is neither recvonly nor
      sendonly. */
  ghost predicate DuplexAt(q: Request, m: nat, p: nat)
    requires m < |q.medias|
  {
    exists i :: 0 <= i < |ReplyOf(q, m, p).answers| && Duplex(ReplyOf(q, m, p).answers[i].media, q.medias[m])
  }

  predicate Duplex(m: Media, cons: Media) {
    m.direction.Sendrecv? && MatchMedia(m, cons).Some?
  }

  /** No producer but the consumer's own does. */
  ghost predicate NoDuplex(q: Request, n: nat) {
    forall m, p :: 0 <= m < |q.medias| && 0 <= p < n && p !in q.own ==> !DuplexAt(q, m, p)
  }

  lemma DuplexIsOffered(q: Request, m: nat, p: nat)
    requires m < |q.medias|
    ensures DuplexAt(q, m, p) <==>
            exists i :: 0 <= i < |VisitOf(q, m, p).offers| && VisitOf(q, m, p).offers[i] == DuplexOffer
  {
    var answers, offers := ReplyOf(q, m, p).answers, VisitOf(q, m, p).offers;
    forall i | 0 <= i < |answers|
      ensures offers[i] == DuplexOffer <==> Duplex(answers[i].media, q.medias[m])
    {
      assert offers[i] == OfferOf(q.medias[m], answers[i]);
    }
    if DuplexAt(q, m, p) {
      var i :| 0 <= i < |answers| && Duplex(answers[i].media, q.medias[m]);
      assert offers[i] == DuplexOffer;
    }
  }

  ghost predicate AllTracked(pr: Progress) {
    forall i :: 0 <= i < |pr.starts| ==> pr.starts[i].track.Some?
  }

  lemma {:induction false} OffersTracked(pr: Progress, q: Request, m: nat, p: nat, n: nat)
    requires WellSized(pr) && p < |pr.prods| && m < |q.medias| && !DuplexAt(q, m, p) && AllTracked(pr)
    ensures AllTracked(TakeOffers(pr, q, m, p, n).0)
    decreases |VisitOf(q, m, p).offers| - n
  {
    var offers := VisitOf(q, m, p).offers;
    if n < |offers| {
      DuplexIsOffered(q, m, p);
      assert offers[n] != DuplexOffer;
      var (pr', matched) := TakeOffer(pr, m, p, offers[n]);
      if !matched || TakesMany(q, m) {
        OffersTracked(pr', q, m, p, n + 1);
      }
    }
  }

  lemma {:induction false} ProducersTracked(pr: Progress, q: Request, m: nat, p: nat)
    requires WellSized(pr) && m < |q.medias| && NoDuplex(q, |pr.prods|) && AllTracked(pr)
    ensures AllTracked(TryProducers(pr, q, m, p))
    decreases |pr.prods| - p
  {
    if p < |pr.prods| {
      if p in q.own || pr.failed[p] {
        ProducersTracked(pr, q, m, p + 1);
      } else {
        var dialled := AfterDialling(pr, q, m, p);
        if DialFails(pr, q, m, p) {
          ProducersTracked(dialled, q, m, p + 1);
        } else {
          var (taken, served) := TakeOffers(dialled, q, m, p, 0);
          OffersTracked(dialled, q, m, p, 0);
          if !served {
            ProducersTracked(taken, q, m, p + 1);
          }
        }
      }
    }
  }

  lemma {:induction false} ScanTracked(prods: seq<Lifecycle>, q: Request, n: nat)
    requires n <= |q.medias| && NoDuplex(q, |prods|)
    ensures AllTracked(Scan(Begin(prods), q, n))
  {
    if n != 0 {
      ScanTracked(prods, q, n - 1);
      ProducersTracked(Scan(Begin(prods), q, n - 1), q, n - 1, 0);
    }
  }

  /** No error is returned exactly when a track is attached. */
  ghost predicate NilMeansTrack(prods: seq<Lifecycle>, q: Request) {
    var pr := Scan(Begin(prods), q, |q.medias|);
    Succeeds(pr) <==> TrackAttached(pr)
  }

  /** Without such medias that holds. */
  lemma {:induction false} NoErrorIffTrackAttached(prods: seq<Lifecycle>, q: Request)
    requires NoDuplex(q, |prods|)
    ensures NilMeansTrack(prods, q)
  {
    ScanTracked(prods, q, |q.medias|);
    var pr := Scan(Begin(prods), q, |q.medias|);
    if Succeeds(pr) {
      assert pr.starts[0].track.Some?;
    }
  }

  /** A media that neither only sends nor only receives. */
  const TALK := Media("audio", Sendrecv, [OPUS])

  lemma TalkIsDuplex()
    ensures OfferOf(TALK, Answer(TALK, None, None)) == DuplexOffer && !MatchAll(TALK)
  {
    assert Matches(OPUS, OPUS);
    assert PairFor(OPUS, TALK.codecs) == Some((OPUS, OPUS));
    assert FirstPair(TALK.codecs, TALK.codecs) == Some((OPUS, OPUS));
  }

  /** With one, a consumer is accepted that gets no track at all: the new producer
      is dialled, swept again, and not started. */
  lemma DuplexMediaAttachesNothing()
    ensures var p := NewProducer(map[], map[]);
            var q := Request([TALK], {}, map[(0, 0) := Reply(Some(5), [Answer(TALK, None, None)])]);
            var pr := Scan(Begin([p]), q, 1);
            Succeeds(pr) && !TrackAttached(pr) && Settled(pr, 0, 0).state == StateNone
  {
    var p := NewProducer(map[], map[]);
    var q := Request([TALK], {}, map[(0, 0) := Reply(Some(5), [Answer(TALK, None, None)])]);
    var b := Begin([p]);
    TalkIsDuplex();
    assert VisitOf(q, 0, 0).offers == [DuplexOffer];
    assert Scan(b, q, 0) == b && !b.failed[0];
    var dialled := AfterDialling(b, q, 0, 0);
    assert TakeOffers(dialled, q, 0, 0, 0).1;
    var pr := Scan(b, q, 1);
    assert pr == TryProducers(b, q, 0, 0) == TakeOffers(dialled, q, 0, 0, 0).0;
    assert pr.starts == [Match(0, 0, None)];
    assert pr.prods[0].wiring.receivers == [] && pr.prods[0].senders == [];
  }

  // -------------------------------------------------------- an error means no match

  predicate Usable(offer: Offer) {
    || offer.DuplexOffer?
    || (offer.RecvOffer? && offer.answer.Some? && offer.reader.Some?)
    || (offer.SendOffer? && offer.track.Some? && offer.reader.Some?)
  }

  ghost predicate NothingUsable(q: Request, dial: (nat, nat)) {
    forall i :: 0 <= i < |VisitOf(q, dial.0, dial.1).offers| ==> !Usable(VisitOf(q, dial.0, dial.1).offers[i])
  }

  lemma UsableMatches(pr: Progress, m: nat, p: nat, offer: Offer)
    requires WellSized(pr) && p < |pr.prods| && pr.prods[p].state != StateNone && Usable(offer)
    ensures TakeOffer(pr, m, p, offer).1
  {
  }

  lemma MatchesStay(pr: Progress, q: Request, m: nat, p: nat, n: nat)
    requires WellSized(pr) && p < |pr.prods| && m < |q.medias|
    ensures pr.starts <= TakeOffers(pr, q, m, p, n).0.starts
  {
    OffersExtend(pr, q, m, p, n, seq(|pr.prods|, i => false));
  }

  lemma {:induction false} OffersExhausted(pr: Progress, q: Request, m: nat, p: nat, n: nat)
    requires WellSized(pr) && p < |pr.prods| && m < |q.medias| && pr.prods[p].state != StateNone
    requires TakeOffers(pr, q, m, p, n).0.starts == pr.starts
    ensures forall i :: n <= i < |VisitOf(q, m, p).offers| ==> !Usable(VisitOf(q, m, p).offers[i])
    ensures TakeOffers(pr, q, m, p, n).0.dials == pr.dials && !TakeOffers(pr, q, m, p, n).1
    decreases |VisitOf(q, m, p).offers| - n
  {
    var offers := VisitOf(q, m, p).offers;
    if n < |offers| {
      var (pr', matched) := TakeOffer(pr, m, p, offers[n]);
      OfferTouches(pr, m, p, offers[n]);
      if Usable(offers[n]) {
        UsableMatches(pr, m, p, offers[n]);
      }
      if !matched || TakesMany(q, m) {
        MatchesStay(pr', q, m, p, n + 1);
        OffersExhausted(pr', q, m, p, n + 1);
      }
    }
  }

  /** Nothing was matched at all, so the visit of producer `p` matched nothing, and
      neither did those after it. */
  lemma VisitMatchedNothing(pr: Progress, q: Request, m: nat, p: nat)
    requires WellSized(pr) && p < |pr.prods| && m < |q.medias|
    requires p !in q.own && !pr.failed[p] && !DialFails(pr, q, m, p)
    requires TryProducers(pr, q, m, p).starts == pr.starts
    ensures var (taken, served) := TakeOffers(AfterDialling(pr, q, m, p), q, m, p, 0);
            && taken.starts == pr.starts && !served && NothingUsable(q, (m, p))
            && TryProducers(taken, q, m, p + 1).starts == taken.starts
            && forall i :: p < i < |pr.prods| ==> taken.prods[i] == pr.prods[i] && taken.failed[i] == pr.failed[i]
  {
    var none := seq(|pr.prods|, i => false);
    var dialled := AfterDialling(pr, q, m, p);
    var (taken, served) := TakeOffers(dialled, q, m, p, 0);
    OffersExtend(dialled, q, m, p, 0, none);
    if !served {
      ProducersExtend(taken, q, m, p + 1, none);
    }
    OffersExhausted(dialled, q, m, p, 0);
    OffersTouchOnly(dialled, q, m, p, 0);
  }

  /** When nothing at all was matched for media `m`, every producer from `p` on was
      the consumer's own, had failed, or was dialled; and a dialled one could not be
      reached or had nothing usable to offer. */
  lemma {:induction false} ProducersExhausted(pr: Progress, q: Request, m: nat, p: nat)
    requires WellSized(pr) && m < |q.medias|
    requires TryProducers(pr, q, m, p).starts == pr.starts
    ensures forall i :: p <= i < |pr.prods| ==>
              || i in q.own
              || pr.failed[i]
              || (VisitOf(q, m, i).dial.None? && pr.prods[i].state == StateNone)
              || NothingUsable(q, (m, i))
    decreases |pr.prods| - p
  {
    if p < |pr.prods| {
      if p in q.own || pr.failed[p] {
        ProducersExhausted(pr, q, m, p + 1);
      } else if DialFails(pr, q, m, p) {
        ProducersExhausted(AfterDialling(pr, q, m, p), q, m, p + 1);
      } else {
        VisitMatchedNothing(pr, q, m, p);
        ProducersExhausted(TakeOffers(AfterDialling(pr, q, m, p), q, m, p, 0).0, q, m, p + 1);
      }
    }
  }

  /** Taking the offers of producer `p` changes no other producer. */
  lemma {:induction false} OffersTouchOnly(pr: Progress, q: Request, m: nat, p: nat, n: nat)
    requires WellSized(pr) && p < |pr.prods| && m < |q.medias|
    ensures var r := TakeOffers(pr, q, m, p, n).0;
            forall i :: 0 <= i < |pr.prods| && i != p ==> r.prods[i] == pr.prods[i] && r.failed[i] == pr.failed[i]
    decreases |VisitOf(q, m, p).offers| - n
  {
    var offers := VisitOf(q, m, p).offers;
    if n < |offers| {
      var (pr', matched) := TakeOffer(pr, m, p, offers[n]);
      if !matched || TakesMany(q, m) {
        OffersTouchOnly(pr', q, m, p, n + 1);
      }
    }
  }

  lemma ScanMatchesStay(pr: Progress, q: Request, n: nat)
    requires WellSized(pr) && n <= |q.medias|
    ensures Scan(pr, q, n).starts <= Scan(pr, q, |q.medias|).starts
  {
    FailedProducerIsSkipped(pr, q, n, |q.medias|);
  }

  lemma NothingMatched(b: Progress, q: Request, m: nat)
    requires WellSized(b) && m < |q.medias| && Scan(b, q, |q.medias|).starts == []
    ensures TryProducers(Scan(b, q, m), q, m, 0).starts == Scan(b, q, m).starts
  {
    ScanMatchesStay(b, q, m);
    ScanMatchesStay(b, q, m + 1);
  }

  /** An error of `AddConsumer` is justified: for each of its medias, every producer that
      is not the consumer's own had failed by then, could not be reached, or had nothing
      usable. */
  lemma ErrorMeansNothingFits(prods: seq<Lifecycle>, q: Request, m: nat, p: nat)
    requires m < |q.medias| && p < |prods| && p !in q.own
    requires !Succeeds(Scan(Begin(prods), q, |q.medias|))
    ensures var pr := Scan(Begin(prods), q, m);
            || pr.failed[p]
            || (VisitOf(q, m, p).dial.None? && pr.prods[p].state == StateNone)
            || NothingUsable(q, (m, p))
  {
    NothingMatched(Begin(prods), q, m);
    ProducersExhausted(Scan(Begin(prods), q, m), q, m, 0);
  }

  // --------------------------------------------------- whatever the network answers

  /** The same consumer and the same medias of its producers, with other answers. */
  ghost predicate SameNetwork(q: Request, q': Request, n: nat) {
    && q'.medias == q.medias && q'.own == q.own
    && forall m, p :: 0 <= m < |q.medias| && 0 <= p < n ==>
         SameMedias(ReplyOf(q, m, p).answers, ReplyOf(q', m, p).answers)
  }

  ghost predicate SameMedias(a: seq<Answer>, b: seq<Answer>) {
    |a| == |b| && forall i :: 0 <= i < |a| ==> a[i].media == b[i].media
  }

  lemma SameDuplex(q: Request, q': Request, n: nat)
    requires SameNetwork(q, q', n)
    ensures NoDuplex(q, n) <==> NoDuplex(q', n)
  {
    forall m, p | 0 <= m < |q.medias| && 0 <= p < n
      ensures DuplexAt(q, m, p) <==> DuplexAt(q', m, p)
    {
      assert SameMedias(ReplyOf(q, m, p).answers, ReplyOf(q', m, p).answers);
      assert forall i :: 0 <= i < |ReplyOf(q, m, p).answers| ==>
               Duplex(ReplyOf(q, m, p).answers[i].media, q.medias[m])
               == Duplex(ReplyOf(q', m, p).answers[i].media, q.medias[m]);
    }
  }

  /** A track is found in the producer, but the consumer takes none and gives none. */
  function Quietly(answers: seq<Answer>): (r: seq<Answer>)
    ensures SameMedias(answers, r)
  {
    seq(|answers|, i requires 0 <= i < |answers| =>
      var media := answers[i].media;
      Answer(media, if media.direction.Recvonly? then Some(Track(0, Codec(0, "", 0, 0))) else None, None))
  }

  /** Every producer is reached, under the given number, and answers like that. */
  function Quiet(q: Request, ids: seq<ConnId>): Request {
    q.(replies := map m: nat, p: nat | 0 <= m < |q.medias| && 0 <= p < |ids| ::
                    (m, p) := Reply(Some(ids[p]), Quietly(ReplyOf(q, m, p).answers)))
  }

  /** Neither fails nor brings a track. */
  predicate Silent(offer: Offer) {
    && (offer.RecvOffer? ==> offer.answer.Some? && offer.reader.None?)
    && (offer.SendOffer? ==> offer.track.None?)
  }

  /** Producer `p` is reached for media `m`, and every offer of it is silent. */
  ghost predicate SilentAt(q: Request, m: nat, p: nat) {
    && ReplyOf(q, m, p).dial.Some?
    && forall i :: 0 <= i < |VisitOf(q, m, p).offers| ==> Silent(VisitOf(q, m, p).offers[i])
  }

  ghost predicate AllSilent(q: Request, n: nat) {
    forall m, p :: 0 <= m < |q.medias| && 0 <= p < n ==> SilentAt(q, m, p)
  }

  lemma QuietIsSilent(q: Request, ids: seq<ConnId>)
    ensures AllSilent(Quiet(q, ids), |ids|)
  {
    var q' := Quiet(q, ids);
    forall m: nat, p: nat | m < |q'.medias| && p < |ids| ensures SilentAt(q', m, p) {
      assert (m, p) in q'.replies;
      var answers, offers := ReplyOf(q', m, p).answers, VisitOf(q', m, p).offers;
      assert answers == Quietly(ReplyOf(q, m, p).answers);
      forall i | 0 <= i < |offers| ensures Silent(offers[i]) {
        assert offers[i] == OfferOf(q.medias[m], answers[i]);
      }
    }
  }

  /** Nothing has failed, and no match has a track. */
  ghost predicate Calm(pr: Progress) {
    && WellSized(pr)
    && (forall i :: 0 <= i < |pr.failed| ==> !pr.failed[i])
    && (forall i :: 0 <= i < |pr.starts| ==> pr.starts[i].track.None?)
  }

  lemma {:induction false} OffersCalm(pr: Progress, q: Request, m: nat, p: nat, n: nat)
    requires Calm(pr) && p < |pr.prods| && m < |q.medias| && pr.prods[p].state != StateNone
    requires SilentAt(q, m, p)
    ensures Calm(TakeOffers(pr, q, m, p, n).0)
    decreases |VisitOf(q, m, p).offers| - n
  {
    var offers := VisitOf(q, m, p).offers;
    if n < |offers| {
      assert Silent(offers[n]);
      var (pr', matched) := TakeOffer(pr, m, p, offers[n]);
      OfferTouches(pr, m, p, offers[n]);
      if !matched || TakesMany(q, m) {
        OffersCalm(pr', q, m, p, n + 1);
      }
    }
  }

  lemma {:induction false} ProducersCalm(pr: Progress, q: Request, m: nat, p: nat)
    requires Calm(pr) && m < |q.medias| && AllSilent(q, |pr.prods|)
    ensures Calm(TryProducers(pr, q, m, p))
    decreases |pr.prods| - p
  {
    if p < |pr.prods| {
      if p in q.own || pr.failed[p] {
        ProducersCalm(pr, q, m, p + 1);
      } else {
        assert SilentAt(q, m, p);
        var dialled := AfterDialling(pr, q, m, p);
        OffersCalm(dialled, q, m, p, 0);
        var (taken, served) := TakeOffers(dialled, q, m, p, 0);
        if !served {
          ProducersCalm(taken, q, m, p + 1);
        }
      }
    }
  }

  lemma {:induction false} ScanCalm(b: Progress, q: Request, n: nat)
    requires Calm(b) && n <= |q.medias| && AllSilent(q, |b.prods|)
    ensures Calm(Scan(b, q, n))
  {
    if n != 0 {
      ScanCalm(b, q, n - 1);
      ProducersCalm(Scan(b, q, n - 1), q, n - 1, 0);
    }
  }

  lemma QuietIsSame(q: Request, ids: seq<ConnId>)
    ensures SameNetwork(q, Quiet(q, ids), |ids|)
  {
    forall m: nat, p: nat | m < |q.medias| && p < |ids|
      ensures SameMedias(ReplyOf(q, m, p).answers, ReplyOf(Quiet(q, ids), m, p).answers)
    {
      assert (m, p) in Quiet(q, ids).replies;
    }
  }

  /** A duplex media is a match when nothing fails. */
  lemma DuplexMatches(prods: seq<Lifecycle>, q: Request, m: nat, p: nat)
    requires AllSilent(q, |prods|) && m < |q.medias| && p < |prods| && p !in q.own && DuplexAt(q, m, p)
    ensures Succeeds(Scan(Begin(prods), q, |q.medias|))
  {
    if !Succeeds(Scan(Begin(prods), q, |q.medias|)) {
      DuplexIsOffered(q, m, p);
      assert SilentAt(q, m, p);
      ScanCalm(Begin(prods), q, m);
      ErrorMeansNothingFits(prods, q, m, p);
      assert false;
    }
  }

  /** A quiet network and a duplex media: the consumer is accepted without a track. */
  lemma QuietDuplexSucceeds(prods: seq<Lifecycle>, q: Request, ids: seq<ConnId>)
    requires |ids| == |prods| && !NoDuplex(q, |prods|)
    ensures SameNetwork(q, Quiet(q, ids), |prods|) && !NilMeansTrack(prods, Quiet(q, ids))
  {
    var q', n := Quiet(q, ids), |prods|;
    QuietIsSame(q, ids);
    QuietIsSilent(q, ids);
    SameDuplex(q, q', n);
    var m, p :| 0 <= m < |q'.medias| && 0 <= p < n && p !in q'.own && DuplexAt(q', m, p);
    DuplexMatches(prods, q', m, p);
    ScanCalm(Begin(prods), q', |q'.medias|);
  }

  /** A number above all in the set. */
  lemma {:induction false} Unused(s: set<ConnId>) returns (c: ConnId)
    ensures forall x :: x in s ==> x < c
  {
    if s == {} {
      c := 0;
    } else {
      var x :| x in s;
      c := Unused(s - {x});
      c := if x < c then c else x + 1;
      assert forall y :: y in s ==> y == x || y in s - {x};
    }
  }

  lemma {:induction false} UnusedIds(prods: seq<Lifecycle>, n: nat) returns (ids: seq<ConnId>)
    requires n <= |prods|
    ensures |ids| == n && forall i :: 0 <= i < n ==> ids[i] !in prods[i].acquired
  {
    if n == 0 {
      ids := [];
    } else {
      var before := UnusedIds(prods, n - 1);
      var c := Unused(prods[n - 1].acquired);
      ids := before + [c];
    }
  }

  lemma QuietIsFresh(prods: seq<Lifecycle>, q: Request, ids: seq<ConnId>)
    requires |ids| == |prods| && forall i :: 0 <= i < |prods| ==> ids[i] !in prods[i].acquired
    ensures FreshDials(prods, Quiet(q, ids))
  {
    var q' := Quiet(q, ids);
    forall m: nat, p: nat | p < |prods| ensures FreshAt(prods, q', m, p) {
    }
  }

  /** Whatever the network answers, no error is returned exactly when a track is attached:
      that is so exactly when no producer but the consumer's own offers a fitting media
      that is neither recvonly nor sendonly. */
  lemma NilMeansTrackIffNoDuplex(prods: seq<Lifecycle>, q: Request)
    ensures (forall q' :: SameNetwork(q, q', |prods|) && FreshDials(prods, q') ==> NilMeansTrack(prods, q'))
            <==> NoDuplex(q, |prods|)
  {
    if NoDuplex(q, |prods|) {
      forall q' | SameNetwork(q, q', |prods|) ensures NilMeansTrack(prods, q') {
        SameDuplex(q, q', |prods|);
        NoErrorIffTrackAttached(prods, q');
      }
    } else {
      var ids := UnusedIds(prods, |prods|);
      QuietIsFresh(prods, q, ids);
      QuietDuplexSucceeds(prods, q, ids);
    }
  }
}
