/** Several consumers come and go at once: their locked steps on the producers, and the
    sweeps that follow, in any order. The counter of attachments under way is to keep a
    track from being swept away between the step that gets it and the step that reads it. */
module Interleaving {
  import opened Wrappers
  import opened Seqs
  import opened Tracks
  import opened Closing
  import opened Handover
  import opened ProducerLifecycle
  import opened StreamSweep
  import opened ConsumerAttach

  /** `inside` are the attachments under way, and `sweeps` the sweeps that have found the
      counter at zero and are on their way through the producers. */
  datatype World = World(prods: seq<Lifecycle>, pending: int, inside: set<nat>, sweeps: set<nat>)

  /** One step of anybody. `Work` is a step on one producer, other than a stop, which only
      sweeps bring about. */
  datatype Step =
    | Enter(a: nat)
    | Exit(a: nat)
    | Work(p: nat, e: Event)
    | Check(s: nat)
    | Pass(s: nat, p: nat)
    | Done(s: nat)

  function Took(w: World, step: Step): World {
    match step
    case Enter(a) => if a in w.inside then w else w.(pending := w.pending + 1, inside := w.inside + {a})
    case Exit(a) => if a in w.inside then w.(pending := w.pending - 1, inside := w.inside - {a}) else w
    case Work(p, e) => if p < |w.prods| && !e.Stop? then w.(prods := w.prods[p := Apply(w.prods[p], e)]) else w
    case Check(s) => if w.pending > 0 then w else w.(sweeps := w.sweeps + {s})
    case Pass(s, p) =>
      if s in w.sweeps && p < |w.prods| then w.(prods := w.prods[p := Swept(0, w.prods[p])]) else w
    case Done(s) => w.(sweeps := w.sweeps - {s})
  }

  function TookAll(w: World, steps: seq<Step>): World
    decreases |steps|
  {
    if steps == [] then w else TookAll(Took(w, steps[0]), steps[1..])
  }

  // ---------------------------------------------------------- how the parts compose

  /** The sweep of a stream, one producer after the other. */
  function Passes(s: nat, n: nat): seq<Step> {
    if n == 0 then [] else Passes(s, n - 1) + [Pass(s, n - 1)]
  }

  lemma {:induction false} TookSnoc(w: World, steps: seq<Step>, step: Step)
    ensures TookAll(w, steps + [step]) == Took(TookAll(w, steps), step)
    decreases |steps|
  {
    if steps == [] {
      assert [] + [step] == [step] && [step][1..] == [];
      assert TookAll(Took(w, step), []) == Took(w, step);
    } else {
      assert (steps + [step])[1..] == steps[1..] + [step];
      TookSnoc(Took(w, steps[0]), steps[1..], step);
    }
  }

  /** Uninterrupted, a sweep does what the stream's does. */
  lemma {:induction false} SweepIsPasses(w: World, s: nat, n: nat)
    requires n <= |w.prods| && s in w.sweeps
    ensures TookAll(w, Passes(s, n)) == w.(prods := SweptUpTo(0, w.prods, n))
  {
    if n != 0 {
      SweepIsPasses(w, s, n - 1);
      TookSnoc(w, Passes(s, n - 1), Pass(s, n - 1));
      SweptUpToAt(0, w.prods, n - 1, n - 1);
    }
  }

  /** The track that a producer answers with, held already or new. */
  function Answered(p: Lifecycle, codec: Codec, answer: Option<Track>): Option<Track> {
    if p.state == StateNone then None
    else if HasCodec(p.wiring.receivers, codec).Some? then HasCodec(p.wiring.receivers, codec)
    else answer
  }

  /** A match of the scan is a step that gets a track and a later one that reads it. */
  lemma MatchIsTwoSteps(w: World, pr: Progress, m: nat, p: nat, codec: Codec, answer: Option<Track>, r: Reader)
    requires WellSized(pr) && p < |pr.prods| && pr.prods == w.prods
    requires TakeOffer(pr, m, p, RecvOffer(codec, answer, Some(r))).1
    ensures Answered(w.prods[p], codec, answer).Some?
    ensures var t := Answered(w.prods[p], codec, answer).value;
            TakeOffer(pr, m, p, RecvOffer(codec, answer, Some(r))).0.prods ==
            Took(Took(w, Work(p, GetTrack(codec, answer))), Work(p, Attach(t, r))).prods
  {
    var t := Answered(w.prods[p], codec, answer).value;
    var got := w.prods[p := AfterGetTrack(w.prods[p], codec, answer)];
    assert got[p := AfterAttach(got[p], t, r)] == w.prods[p := AfterAttach(got[p], t, r)];
  }

  // ----------------------------------------------------------- between the two steps

  ghost predicate Counted(w: World) {
    w.pending == |w.inside|
  }

  lemma StepKeepsCount(w: World, step: Step)
    requires Counted(w)
    ensures Counted(Took(w, step)) && |Took(w, step).prods| == |w.prods|
  {
  }

  /** While an attachment is under way no sweep begins. */
  lemma NoNewSweep(w: World, step: Step, a: nat)
    requires Counted(w) && a in w.inside
    ensures Took(w, step).sweeps <= w.sweeps
  {
    assert w.inside != {};
  }

  /** Attachment `a` is under way at every step. */
  ghost predicate Inside(w: World, steps: seq<Step>, a: nat)
    decreases |steps|
  {
    steps == [] || (a in w.inside && Inside(Took(w, steps[0]), steps[1..], a))
  }

  /** Producer `p` is not reconnected, and not passed by one of these sweeps. */
  ghost predicate Undisturbed(steps: seq<Step>, p: nat, sweeps: set<nat>) {
    forall i :: 0 <= i < |steps| ==> !Disturbs(steps[i], p, sweeps)
  }

  predicate Disturbs(step: Step, p: nat, sweeps: set<nat>) {
    || (step.Work? && step.p == p && step.e.Reconnect?)
    || (step.Pass? && step.p == p && step.s in sweeps)
  }

  /** The producer has the track and is past the first two states. */
  predicate Offers(p: Lifecycle, t: Track) {
    t in p.wiring.receivers && p.state != StateNone && p.state != StateMedias
  }

  lemma GetTrackOffers(p: Lifecycle, codec: Codec, answer: Option<Track>)
    requires NilExactlyInNone(p) && Answered(p, codec, answer).Some?
    ensures Offers(AfterGetTrack(p, codec, answer), Answered(p, codec, answer).value)
  {
    HasCodecFinds(p.wiring.receivers, codec);
  }

  lemma StepKeepsOffer(p: Lifecycle, e: Event, t: Track)
    requires Offers(p, t) && !e.Reconnect? && !e.Stop?
    ensures Offers(Apply(p, e), t)
  {
  }

  lemma StepKeepsTrack(w: World, step: Step, a: nat, p: nat, t: Track, sweeps: set<nat>)
    requires Counted(w) && a in w.inside && w.sweeps <= sweeps && !Disturbs(step, p, sweeps)
    requires p < |w.prods| && Offers(w.prods[p], t)
    ensures Offers(Took(w, step).prods[p], t)
  {
    if step.Work? && step.p == p && !step.e.Stop? {
      StepKeepsOffer(w.prods[p], step.e, t);
    }
  }

  /** A track that an attachment has got stays with its producer while the attachment is
      under way, whatever others do, as long as the producer is not reconnected and not
      passed by a sweep that was on its way already. */
  lemma {:induction false} GotTrackStays(w: World, steps: seq<Step>, a: nat, p: nat, t: Track, sweeps: set<nat>)
    requires Counted(w) && Inside(w, steps, a) && w.sweeps <= sweeps && Undisturbed(steps, p, sweeps)
    requires p < |w.prods| && Offers(w.prods[p], t)
    ensures var w' := TookAll(w, steps); Counted(w') && |w'.prods| == |w.prods| && Offers(w'.prods[p], t)
    decreases |steps|
  {
    if steps != [] {
      assert !Disturbs(steps[0], p, sweeps);
      StepKeepsCount(w, steps[0]);
      NoNewSweep(w, steps[0], a);
      StepKeepsTrack(w, steps[0], a, p, t, sweeps);
      forall i | 0 <= i < |steps| - 1
        ensures !Disturbs(steps[1..][i], p, sweeps)
      {
        assert steps[1..][i] == steps[i + 1];
      }
      GotTrackStays(Took(w, steps[0]), steps[1..], a, p, t, sweeps);
    }
  }

  /** A new reader is held by the producer exactly when the track that it hangs below is
      still one of the producer's. */
  lemma HungIsHeldIff(p: Lifecycle, t: Track, r: Reader)
    requires Gone(p.wiring.nodes, r)
    ensures Held(AfterAttach(p, t, r).wiring, r) <==> t in p.wiring.receivers
  {
    var w := AfterAttach(p, t, r).wiring;
    assert Childs(w.nodes, t) == Childs(p.wiring.nodes, t) + [r];
    if t in p.wiring.receivers {
      var i :| 0 <= i < |p.wiring.receivers| && p.wiring.receivers[i] == t;
      assert r in Childs(w.nodes, w.receivers[i]);
    }
  }

  // ---------------------------------------------------------------- once it is read

  /** Reader `r` hangs below a track of the producer, on either side. */
  predicate Wired(p: Lifecycle, t: Track, r: Reader) {
    && p.state != StateNone && p.state != StateMedias
    && (|| (t in p.wiring.receivers && r in Childs(p.wiring.nodes, t))
        || (t in p.senders && r in Childs(p.backs, t)))
  }

  /** The step does not take the reader away: no reconnect of its producer, and no
      departure of its consumer. */
  predicate Spares(step: Step, p: nat, t: Track, r: Reader) {
    step.Work? && step.p == p ==>
      && !step.e.Reconnect?
      && (step.e.Depart? ==> (t, r) !in step.e.departure.readers && t !in step.e.departure.tracks)
  }

  lemma {:induction false} RemoveFirstSpares(s: seq<Reader>, x: Reader, r: Reader)
    requires r in s && r != x
    ensures r in RemoveFirst(s, x)
  {
    if s[0] != x && s[0] != r {
      RemoveFirstSpares(s[1..], x, r);
    }
  }

  lemma {:induction false} UnhangSpares(nodes: Nodes, hung: seq<Hanging>, t: Track, r: Reader)
    requires r in Childs(nodes, t) && (t, r) !in hung
    ensures r in Childs(Unhang(nodes, hung), t)
    decreases |hung|
  {
    if hung != [] {
      var n := |hung| - 1;
      UnhangSpares(nodes, hung[..n], t, r);
      assert hung[n] in hung;
      if hung[n].0 == t {
        RemoveFirstSpares(Childs(Unhang(nodes, hung[..n]), t), hung[n].1, r);
      }
    }
  }

  lemma {:induction false} CloseSpares(nodes: Nodes, tracks: seq<Track>, t: Track)
    requires t !in tracks
    ensures Childs(CloseTracks(nodes, tracks), t) == Childs(nodes, t)
    decreases |tracks|
  {
    if tracks != [] {
      CloseSpares(nodes, tracks[..|tracks| - 1], t);
      assert tracks[|tracks| - 1] in tracks;
    }
  }

  lemma WorkKeepsWire(p: Lifecycle, e: Event, t: Track, r: Reader)
    requires Wired(p, t, r) && !e.Reconnect? && !e.Stop?
    requires e.Depart? ==> (t, r) !in e.departure.readers && t !in e.departure.tracks
    ensures Wired(Apply(p, e), t, r)
  {
    if e.Depart? {
      if r in Childs(p.wiring.nodes, t) {
        UnhangSpares(p.wiring.nodes, e.departure.readers, t, r);
      }
      CloseSpares(p.backs, e.departure.tracks, t);
    }
  }

  lemma WiredIsRead(p: Lifecycle, t: Track, r: Reader)
    requires Wired(p, t, r)
    ensures HasReaders(p)
  {
    AnyReadIff(p.wiring.nodes, p.wiring.receivers);
    AnyReadIff(p.backs, p.senders);
    if t in p.wiring.receivers && r in Childs(p.wiring.nodes, t) {
      var i :| 0 <= i < |p.wiring.receivers| && p.wiring.receivers[i] == t;
      assert Childs(p.wiring.nodes, p.wiring.receivers[i]) != [];
    } else {
      var i :| 0 <= i < |p.senders| && p.senders[i] == t;
      assert Childs(p.backs, p.senders[i]) != [];
    }
  }

  lemma StepKeepsWire(w: World, step: Step, p: nat, t: Track, r: Reader)
    requires p < |w.prods| && Wired(w.prods[p], t, r) && Spares(step, p, t, r)
    ensures |Took(w, step).prods| == |w.prods| && Wired(Took(w, step).prods[p], t, r)
  {
    if step.Work? && step.p == p && !step.e.Stop? {
      WorkKeepsWire(w.prods[p], step.e, t, r);
    } else if step.Pass? && step.p == p {
      WiredIsRead(w.prods[p], t, r);
    }
  }

  /** A producer that is read is swept by nobody: whatever attachments begin and end, and
      whichever sweeps they bring, the reader stays until its consumer leaves or the
      producer is reconnected. */
  lemma {:induction false} WiredStays(w: World, steps: seq<Step>, p: nat, t: Track, r: Reader)
    requires p < |w.prods| && Wired(w.prods[p], t, r)
    requires forall i :: 0 <= i < |steps| ==> Spares(steps[i], p, t, r)
    ensures var w' := TookAll(w, steps); |w'.prods| == |w.prods| && Wired(w'.prods[p], t, r)
    decreases |steps|
  {
    if steps != [] {
      assert Spares(steps[0], p, t, r);
      StepKeepsWire(w, steps[0], p, t, r);
      WiredStays(Took(w, steps[0]), steps[1..], p, t, r);
    }
  }

  /** Two scans at once. Attachment `a` gets a track of producer `p`, others do what they
      like, it reads the track, and others do what they like again, with sweeps of their
      own: the producer is then still read through that track. */
  lemma WiredByScanIsNotSwept(w: World, a: nat, p: nat, codec: Codec, answer: Option<Track>, between: seq<Step>,
                              r: Reader, after: seq<Step>)
    requires Counted(w) && a in w.inside && p < |w.prods| && NilExactlyInNone(w.prods[p])
    requires Answered(w.prods[p], codec, answer).Some?
    requires Inside(Took(w, Work(p, GetTrack(codec, answer))), between, a) && Undisturbed(between, p, w.sweeps)
    requires forall i :: 0 <= i < |after| ==> Spares(after[i], p, Answered(w.prods[p], codec, answer).value, r)
    ensures var t := Answered(w.prods[p], codec, answer).value;
            var read := Took(TookAll(Took(w, Work(p, GetTrack(codec, answer))), between), Work(p, Attach(t, r)));
            var end := TookAll(read, after);
            && |end.prods| == |w.prods| && Wired(end.prods[p], t, r)
            && forall s :: s in end.sweeps ==> Took(end, Pass(s, p)) == end
  {
    var t := Answered(w.prods[p], codec, answer).value;
    var got := Took(w, Work(p, GetTrack(codec, answer)));
    GetTrackOffers(w.prods[p], codec, answer);
    GotTrackStays(got, between, a, p, t, w.sweeps);
    var later := TookAll(got, between);
    var read := Took(later, Work(p, Attach(t, r)));
    assert Childs(read.prods[p].wiring.nodes, t) == Childs(later.prods[p].wiring.nodes, t) + [r];
    WiredStays(read, after, p, t, r);
    WiredIsRead(TookAll(read, after).prods[p], t, r);
  }

  // ----------------------------------------------------------------- what goes wrong

  lemma AnsweredIsOpen(p: Lifecycle, codec: Codec, answer: Option<Track>)
    requires Answered(p, codec, answer).Some?
    ensures AfterGetTrack(p, codec, answer).state != StateNone
  {
  }

  lemma SweptThenRead(p: Lifecycle, t: Track, r: Reader)
    requires p.state != StateNone && p.state != StateExternal && !HasReaders(p)
    ensures var q := AfterAttach(Swept(0, p), t, r); q.state == StateNone && !Held(q.wiring, r)
  {
  }

  /** A sweep on its way that comes by between the two steps gives up a producer that
      nobody reads, and the reader that follows hangs below a track of nobody. */
  lemma LateSweepTakesTrack(w: World, s: nat, p: nat, got: Lifecycle, codec: Codec, answer: Option<Track>, r: Reader)
    requires s in w.sweeps && p < |w.prods| && Answered(w.prods[p], codec, answer).Some?
    requires got == AfterGetTrack(w.prods[p], codec, answer)
    requires got.state != StateExternal && !HasReaders(got)
    ensures var t := Answered(w.prods[p], codec, answer).value;
            var w' := Took(Took(Took(w, Work(p, GetTrack(codec, answer))), Pass(s, p)), Work(p, Attach(t, r)));
            |w'.prods| == |w.prods| && w'.prods[p].state == StateNone && !Held(w'.prods[p].wiring, r)
  {
    var t := Answered(w.prods[p], codec, answer).value;
    AnsweredIsOpen(w.prods[p], codec, answer);
    SweptThenRead(got, t, r);
    var w1 := Took(w, Work(p, GetTrack(codec, answer)));
    assert w1.prods[p] == got && w1.sweeps == w.sweeps;
    var w2 := Took(w1, Pass(s, p));
    assert w2.prods[p] == Swept(0, got);
  }

  lemma NewTrackIsUnread(p: Lifecycle, t: Track)
    requires p.wiring.receivers == [] && p.senders == [] && t !in p.wiring.nodes
    ensures !HasReaders(AfterGetTrack(p, t.codec, Some(t)))
  {
    var q := AfterGetTrack(p, t.codec, Some(t));
    AnyReadIff(q.wiring.nodes, q.wiring.receivers);
    AnyReadIff(q.backs, q.senders);
  }

  /** And a sweep can be on its way although an attachment is under way: it has looked at
      the counter before the attachment raised it and dialled a producer that was stopped. */
  lemma SweepBesideAttachment(p: Lifecycle, s: nat, a: nat, conn: ConnId, t: Track)
    requires p.state == StateNone && p.wiring.receivers == [] && p.senders == [] && t !in p.wiring.nodes
    ensures var q := AfterDial(p, Some(conn));
            && Took(Took(Took(World([p], 0, {}, {}), Check(s)), Enter(a)), Work(0, Event.Dial(Some(conn))))
               == World([q], 1, {a}, {s})
            && Answered(q, t.codec, Some(t)) == Some(t) && !HasReaders(AfterGetTrack(q, t.codec, Some(t)))
  {
    NewTrackIsUnread(AfterDial(p, Some(conn)), t);
    var w := World([p], 0, {}, {});
    assert Took(w, Check(s)) == World([p], 0, {}, {s});
    assert Took(World([p], 0, {}, {s}), Enter(a)) == World([p], 1, {a}, {s});
  }

  /** With a reconnect between the two steps, to a connection whose tracks are new, the
      reader is held exactly when no media of it takes over that receiver. */
  lemma ReaderMeetsReconnectIff(p: Lifecycle, index: nat, c: Connection, k: nat, r: Reader)
    requires Inv(p) && index < |p.activities|
    requires p.activities[index].Reconnecting? && p.activities[index].id == p.workerID
    requires k < |p.wiring.receivers| && Foreign(p.wiring.receivers, c.answers)
    requires forall j :: 0 <= j < |p.wiring.receivers| && j != k ==> p.wiring.receivers[j] != p.wiring.receivers[k]
    requires Gone(AfterReconnect(p, index, Some(c)).wiring.nodes, r)
    ensures Held(AfterAttach(AfterReconnect(p, index, Some(c)), p.wiring.receivers[k], r).wiring, r) <==>
            !exists m :: 0 <= m < |c.medias| && TakesOver(p.wiring, c.medias, m, c.answers, k)
  {
    BatonMeansConn(p, index);
    var t, q := p.wiring.receivers[k], AfterReconnect(p, index, Some(c));
    HungIsHeldIff(q, t, r);
    assert q.wiring.receivers == MoveAll(p.wiring, c.medias, |c.medias|, c.answers).receivers;
    forall j | 0 <= j < |p.wiring.receivers|
      ensures q.wiring.receivers[j] == t ==> j == k
    {
      LeavesIff(p.wiring, c.medias, |c.medias|, c.answers, j);
    }
    LeavesIff(p.wiring, c.medias, |c.medias|, c.answers, k);
  }
}
