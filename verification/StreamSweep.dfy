/** A stream shares its producers among its consumers, and stops the producers
    that nobody reads whenever a consumer leaves. */
module StreamSweep {
  import opened Tracks
  import opened Closing
  import opened Handover
  import opened ProducerLifecycle

  /** Some of the tracks has readers. */
  predicate AnyRead(nodes: Nodes, tracks: seq<Track>)
    decreases |tracks|
  {
    tracks != [] && (AnyRead(nodes, tracks[..|tracks| - 1]) || Childs(nodes, tracks[|tracks| - 1]) != [])
  }

  lemma {:induction false} AnyReadIff(nodes: Nodes, tracks: seq<Track>)
    ensures AnyRead(nodes, tracks) <==> exists i :: 0 <= i < |tracks| && Childs(nodes, tracks[i]) != []
    decreases |tracks|
  {
    if tracks != [] {
      var n := |tracks| - 1;
      AnyReadIff(nodes, tracks[..n]);
      if AnyRead(nodes, tracks[..n]) {
        var i :| 0 <= i < n && Childs(nodes, tracks[..n][i]) != [];
        assert Childs(nodes, tracks[i]) != [];
      }
    }
  }

  /** Some track of the producer has readers. */
  predicate HasReaders(p: Lifecycle) {
    AnyRead(p.wiring.nodes, p.wiring.receivers) || AnyRead(p.backs, p.senders)
  }

  /** What a sweep does to one producer. */
  function Swept(pending: int, p: Lifecycle): Lifecycle {
    if pending > 0 || HasReaders(p) then p else AfterStop(p)
  }

  /** A sweep leaves a producer without readers in the initial state, unless it is
      external; it stops its connection exactly then. With readers, or while a
      consumer is being attached, nothing happens. */
  lemma SweepStopsExactlyUnread(pending: int, p: Lifecycle)
    requires Inv(p)
    ensures var q := Swept(pending, p);
            && Inv(q)
            && (p.state != StateNone ==>
                  (q.state == StateNone <==> pending <= 0 && !HasReaders(p) && p.state != StateExternal))
            && (q.state == p.state ==> q == p)
            && (q.state != p.state ==> p.conn.Some? && q.stopped == p.stopped + multiset{p.conn.value})
  {
    StopKeepsInv(p);
  }

  /** A held reader is never cut off by a sweep. */
  lemma SweepKeepsReaders(pending: int, p: Lifecycle, r: Reader)
    requires Held(p.wiring, r)
    ensures Swept(pending, p) == p
  {
    var i :| 0 <= i < |p.wiring.receivers| && r in Childs(p.wiring.nodes, p.wiring.receivers[i]);
    assert Childs(p.wiring.nodes, p.wiring.receivers[i]) != [];
    AnyReadIff(p.wiring.nodes, p.wiring.receivers);
  }

  /** The first `n` producers are swept. */
  function SweptUpTo(pending: int, prods: seq<Lifecycle>, n: nat): (r: seq<Lifecycle>)
    requires n <= |prods|
    ensures |r| == |prods|
  {
    if n == 0 then prods else SweptUpTo(pending, prods, n - 1)[n - 1 := Swept(pending, prods[n - 1])]
  }

  function SweepEach(pending: int, prods: seq<Lifecycle>): (r: seq<Lifecycle>)
    ensures |r| == |prods|
  {
    SweptUpTo(pending, prods, |prods|)
  }

  lemma {:induction false} SweptUpToAt(pending: int, prods: seq<Lifecycle>, n: nat, i: nat)
    requires i < |prods| && n <= |prods|
    ensures SweptUpTo(pending, prods, n)[i] == if i < n then Swept(pending, prods[i]) else prods[i]
  {
    if n != 0 {
      SweptUpToAt(pending, prods, n - 1, i);
    }
  }

  /** A sweep of all producers does to each what a sweep does to it. */
  lemma SweepEachAt(pending: int, prods: seq<Lifecycle>, i: nat)
    requires i < |prods|
    ensures SweepEach(pending, prods)[i] == Swept(pending, prods[i])
  {
    SweptUpToAt(pending, prods, |prods|, i);
  }

  lemma NoSweep(pending: int, prods: seq<Lifecycle>)
    requires pending > 0
    ensures SweepEach(pending, prods) == prods
  {
    forall i | 0 <= i < |prods| ensures SweepEach(pending, prods)[i] == prods[i] {
      SweepEachAt(pending, prods, i);
    }
  }

  ghost predicate SoundAt(prods: seq<Lifecycle>, i: nat)
    requires i < |prods|
  {
    Inv(prods[i])
  }

  /** Every producer keeps its invariant. */
  ghost predicate AllSound(prods: seq<Lifecycle>) {
    forall i :: 0 <= i < |prods| ==> SoundAt(prods, i)
  }

  lemma AllSoundIff(prods: seq<Lifecycle>)
    ensures AllSound(prods) <==> forall i :: 0 <= i < |prods| ==> Inv(prods[i])
  {
    if AllSound(prods) {
      forall i | 0 <= i < |prods| ensures Inv(prods[i]) {
        assert SoundAt(prods, i);
      }
    }
  }

  lemma SweepEachKeepsInv(pending: int, prods: seq<Lifecycle>)
    requires AllSound(prods)
    ensures AllSound(SweepEach(pending, prods))
  {
    AllSoundIff(prods);
    forall i | 0 <= i < |prods| ensures Inv(SweepEach(pending, prods)[i]) {
      SweepEachAt(pending, prods, i);
      StopKeepsInv(prods[i]);
    }
    AllSoundIff(SweepEach(pending, prods));
  }

  // ------------------------------------------------------------- a consumer leaves

  function DepartedUpTo(prods: seq<Lifecycle>, d: Departure, n: nat): (r: seq<Lifecycle>)
    requires n <= |prods|
    ensures |r| == |prods|
  {
    if n == 0 then prods else DepartedUpTo(prods, d, n - 1)[n - 1 := AfterDepart(prods[n - 1], d)]
  }

  lemma {:induction false} DepartedUpToAt(prods: seq<Lifecycle>, d: Departure, n: nat, i: nat)
    requires i < |prods| && n <= |prods|
    ensures DepartedUpTo(prods, d, n)[i] == if i < n then AfterDepart(prods[i], d) else prods[i]
  {
    if n != 0 {
      DepartedUpToAt(prods, d, n - 1, i);
    }
  }

  lemma DepartedKeepsInv(prods: seq<Lifecycle>, d: Departure)
    requires AllSound(prods)
    ensures AllSound(DepartedUpTo(prods, d, |prods|))
  {
    AllSoundIff(prods);
    forall i | 0 <= i < |prods| ensures Inv(DepartedUpTo(prods, d, |prods|)[i]) {
      DepartedUpToAt(prods, d, |prods|, i);
    }
    AllSoundIff(DepartedUpTo(prods, d, |prods|));
  }

  /** Every reader of track `t` is one of the consumer's. */
  ghost predicate OnlyReadBy(nodes: Nodes, t: Track, d: Departure) {
    forall r :: r in Childs(nodes, t) ==> (t, r) in d.readers
  }

  lemma {:induction false} ReadersAtIff(hung: seq<Hanging>, t: Track, r: Reader)
    ensures r in ReadersAt(hung, t) <==> (t, r) in hung
    decreases |hung|
  {
    if hung != [] {
      var n := |hung| - 1;
      ReadersAtIff(hung[..n], t, r);
      assert hung == hung[..n] + [hung[n]];
    }
  }

  /** A track has lost all readers exactly when all were the consumer's. */
  lemma UnreadIff(nodes: Nodes, d: Departure, t: Track)
    requires NoRepeat(Childs(nodes, t))
    ensures Childs(Unhang(nodes, d.readers), t) == [] <==> OnlyReadBy(nodes, t, d)
  {
    var before, after, gone := Childs(nodes, t), Childs(Unhang(nodes, d.readers), t), ReadersAt(d.readers, t);
    UnhangCounts(nodes, d.readers, t);
    if after == [] {
      forall r | r in before ensures (t, r) in d.readers {
        assert r in multiset(before) && r !in multiset(after);
        assert r in gone;
        ReadersAtIff(d.readers, t, r);
      }
    } else {
      var r := after[0];
      assert r in multiset(after) && r in multiset(before);
      OnceInMultiset(before, r);
      assert r !in gone;
      ReadersAtIff(d.readers, t, r);
    }
  }

  lemma OnceInMultiset(s: seq<Reader>, r: Reader)
    requires NoRepeat(s) && r in s
    ensures multiset(s)[r] == 1
  {
    var i :| 0 <= i < |s| && s[i] == r;
    assert s == s[..i] + [r] + s[i + 1..];
    assert r !in s[..i] && r !in s[i + 1..];
  }

  /** Nothing of the producer is read but by the consumer that leaves: all readers of its
      receivers are that consumer's, and each of its senders with readers is a track of
      the consumer that has at most two. */
  ghost predicate OnlyReader(p: Lifecycle, d: Departure) {
    && (forall i :: 0 <= i < |p.wiring.receivers| ==> OnlyReadBy(p.wiring.nodes, p.wiring.receivers[i], d))
    && (forall i :: 0 <= i < |p.senders| ==>
          Childs(p.backs, p.senders[i]) == [] || (p.senders[i] in d.tracks && |Childs(p.backs, p.senders[i])| <= 2))
  }

  ghost predicate Different(tracks: seq<Track>) {
    forall i, j :: 0 <= i < j < |tracks| ==> tracks[i] != tracks[j]
  }

  lemma DepartedIsUnreadIff(p: Lifecycle, d: Departure)
    requires NoRepeats(p.wiring.nodes) && NoRepeats(p.backs) && Different(d.tracks)
    ensures HasReaders(AfterDepart(p, d)) <==> !OnlyReader(p, d)
  {
    var q := AfterDepart(p, d);
    AnyReadIff(q.wiring.nodes, q.wiring.receivers);
    AnyReadIff(q.backs, q.senders);
    forall i | 0 <= i < |p.wiring.receivers|
      ensures Childs(q.wiring.nodes, q.wiring.receivers[i]) == []
              <==> OnlyReadBy(p.wiring.nodes, p.wiring.receivers[i], d)
    {
      UnreadIff(p.wiring.nodes, d, p.wiring.receivers[i]);
    }
    forall i | 0 <= i < |p.senders|
      ensures Childs(q.backs, q.senders[i]) == [] <==>
              Childs(p.backs, p.senders[i]) == [] || (p.senders[i] in d.tracks && |Childs(p.backs, p.senders[i])| <= 2)
    {
      CloseTracksOnce(p.backs, d.tracks, p.senders[i]);
      ClosedIsSpared(Childs(p.backs, p.senders[i]));
    }
  }

  /** When a consumer leaves and nobody is being attached, a producer is given up exactly
      when it is not external and nothing of it is read but by that consumer. */
  lemma LastReaderStopsProducer(p: Lifecycle, d: Departure, pending: int)
    requires Inv(p) && p.state != StateNone
    requires NoRepeats(p.wiring.nodes) && NoRepeats(p.backs) && Different(d.tracks)
    ensures var q := Swept(pending, AfterDepart(p, d));
            && Inv(q)
            && (q.state == StateNone <==> pending <= 0 && p.state != StateExternal && OnlyReader(p, d))
            && (q.state == StateNone ==> q.stopped == p.stopped + multiset{p.conn.value})
  {
    DepartedIsUnreadIff(p, d);
    SweepStopsExactlyUnread(pending, AfterDepart(p, d));
  }

  /** So it is for the departure of a consumer at the end of any run of the producer. */
  lemma LastReaderAfterRun(start: Lifecycle, es: seq<Event>, p: Lifecycle, d: Departure, pending: int)
    requires Reached(start, es, p) && p.state != StateNone && Different(d.tracks)
    ensures Swept(pending, AfterDepart(p, d)).state == StateNone <==>
            pending <= 0 && p.state != StateExternal && OnlyReader(p, d)
  {
    ReachedIsSound(start, es, p);
    LastReaderStopsProducer(p, d, pending);
  }

  /** Nothing of the producer has to do with the consumer. */
  ghost predicate Apart(p: Lifecycle, d: Departure) {
    && (forall t, r :: (t, r) in d.readers ==> r !in Childs(p.wiring.nodes, t))
    && (forall t :: t in d.tracks ==> Childs(p.backs, t) == [])
  }

  lemma {:induction false} UnhangApart(nodes: Nodes, hung: seq<Hanging>, t: Track)
    requires forall u, r :: (u, r) in hung ==> r !in Childs(nodes, u)
    ensures Childs(Unhang(nodes, hung), t) == Childs(nodes, t)
    decreases |hung|
  {
    if hung != [] {
      var n := |hung| - 1;
      UnhangApart(nodes, hung[..n], t);
      var (u, r) := hung[n];
      assert (u, r) in hung;
    }
  }

  lemma {:induction false} CloseApart(nodes: Nodes, tracks: seq<Track>, t: Track)
    requires forall u :: u in tracks ==> Childs(nodes, u) == []
    ensures Childs(CloseTracks(nodes, tracks), t) == Childs(nodes, t)
    decreases |tracks|
  {
    if tracks != [] {
      CloseApart(nodes, tracks[..|tracks| - 1], t);
      assert tracks[|tracks| - 1] in tracks;
    }
  }

  /** A producer with readers that has nothing to do with the consumer keeps all it has. */
  lemma OthersAreUntouched(p: Lifecycle, d: Departure, pending: int, t: Track)
    requires Apart(p, d) && HasReaders(p)
    ensures var q := Swept(pending, AfterDepart(p, d));
            && q == p.(wiring := p.wiring.(nodes := q.wiring.nodes), backs := q.backs)
            && Childs(q.wiring.nodes, t) == Childs(p.wiring.nodes, t)
            && Childs(q.backs, t) == Childs(p.backs, t)
  {
    var q := AfterDepart(p, d);
    forall u
      ensures Childs(q.wiring.nodes, u) == Childs(p.wiring.nodes, u) && Childs(q.backs, u) == Childs(p.backs, u)
    {
      UnhangApart(p.wiring.nodes, d.readers, u);
      CloseApart(p.backs, d.tracks, u);
    }
    AnyReadIff(p.wiring.nodes, p.wiring.receivers);
    AnyReadIff(p.backs, p.senders);
    AnyReadIff(q.wiring.nodes, q.wiring.receivers);
    AnyReadIff(q.backs, q.senders);
    assert HasReaders(q);
  }
}
