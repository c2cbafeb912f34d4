/** What a reconnect hands over from the old connection to the new one: the readers of
    the receivers that the new one takes over, and the senders. Then the old connection
    is stopped, which closes its own tracks. */
module Handover {
  import opened Seqs
  import opened Wrappers
  import opened Tracks
  import opened Closing

  // ------------------------------------------------------------------- receivers

  /** A connection hands out a track again without listing it twice. */
  function Own(owned: seq<Track>, t: Track): seq<Track> {
    if t in owned then owned else owned + [t]
  }

  /** The tracks that the new connection has been asked for after `n` medias. */
  function Asked(w: Wiring, medias: seq<Media>, n: nat, answers: Answers): seq<Track>
    requires n <= |medias|
  {
    if n == 0 then []
    else
      var v, before := MoveAll(w, medias, n - 1, answers), Asked(w, medias, n - 1, answers);
      var i := FirstTaken(v, medias[n - 1], n - 1, 0, answers);
      if medias[n - 1].direction.Recvonly? && i < |v.receivers| then Own(before, answers[(n - 1, i)]) else before
  }

  /** The receivers and their readers after all medias and the end of the old
      connection, whose tracks were `owned`. */
  function Handed(w: Wiring, medias: seq<Media>, answers: Answers, owned: seq<Track>): (w': Wiring)
    ensures |w'.receivers| == |w.receivers|
  {
    var moved := MoveAll(w, medias, |medias|, answers);
    moved.(nodes := CloseTracks(moved.nodes, owned))
  }

  /** Every reader hangs in one place. */
  ghost predicate Tree(nodes: Nodes) {
    SingleParent(nodes) && NoRepeats(nodes)
  }

  lemma {:induction false} MoveAllKeepsTree(w: Wiring, medias: seq<Media>, n: nat, answers: Answers)
    requires n <= |medias| && Tree(w.nodes)
    ensures Tree(MoveAll(w, medias, n, answers).nodes)
  {
    MoveAllKeepsGraph(w, medias, n, answers);
    if n != 0 {
      MoveAllKeepsTree(w, medias, n - 1, answers);
    }
  }

  /** Track by track, `nodes'` has no more readers than `nodes`, in an order without repeats. */
  ghost predicate Thinner(nodes': Nodes, nodes: Nodes) {
    && NoRepeats(nodes')
    && forall t, r :: r in Childs(nodes', t) ==> r in Childs(nodes, t)
  }

  lemma ThinnerKeepsTree(nodes': Nodes, nodes: Nodes)
    requires Tree(nodes) && Thinner(nodes', nodes)
    ensures Tree(nodes')
  {
    forall s, t, r | s in nodes' && t in nodes' && r in nodes'[s] && r in nodes'[t]
      ensures s == t
    {
      assert r in Childs(nodes', s) && r in Childs(nodes', t);
      assert r in Childs(nodes, s) && r in Childs(nodes, t);
    }
  }

  lemma CloseKeepsTree(nodes: Nodes, tracks: seq<Track>)
    requires Tree(nodes)
    ensures Tree(CloseTracks(nodes, tracks))
  {
    var nodes' := CloseTracks(nodes, tracks);
    forall t
      ensures NoRepeats(nodes') && forall r :: r in Childs(nodes', t) ==> r in Childs(nodes, t)
    {
      CloseTracksAt(nodes, tracks, t);
    }
    assert NoRepeats(nodes') by { CloseTracksAt(nodes, tracks, Track(0, Codec(0, "", 0, 0))); }
    ThinnerKeepsTree(nodes', nodes);
  }

  lemma HeldAfterClose(w: Wiring, owned: seq<Track>, r: Reader)
    requires NoRepeats(w.nodes) && Held(w.(nodes := CloseTracks(w.nodes, owned)), r)
    ensures Held(w, r)
  {
    var nodes' := CloseTracks(w.nodes, owned);
    var i :| 0 <= i < |w.receivers| && r in Childs(nodes', w.receivers[i]);
    CloseTracksAt(w.nodes, owned, w.receivers[i]);
    assert r in Childs(w.nodes, w.receivers[i]);
  }

  /** The first reader of a track that is closed hangs nowhere any more. */
  lemma FirstReaderIsCut(w: Wiring, owned: seq<Track>, k: nat) returns (r: Reader)
    requires Tree(w.nodes) && k < |w.receivers| && w.receivers[k] in owned && Childs(w.nodes, w.receivers[k]) != []
    ensures Held(w, r) && !Held(w.(nodes := CloseTracks(w.nodes, owned)), r)
  {
    var t, nodes' := w.receivers[k], CloseTracks(w.nodes, owned);
    r := Childs(w.nodes, t)[0];
    assert r in Childs(w.nodes, w.receivers[k]);
    forall i | 0 <= i < |w.receivers|
      ensures r !in Childs(nodes', w.receivers[i])
    {
      CloseTracksAt(w.nodes, owned, w.receivers[i]);
      if r in Childs(w.nodes, w.receivers[i]) {
        assert w.receivers[i] == t;
      }
    }
  }

  /** Some receiver is still one of the old connection's tracks, and has readers. */
  ghost predicate LeftBehind(w: Wiring, owned: seq<Track>) {
    exists k :: 0 <= k < |w.receivers| && w.receivers[k] in owned && Childs(w.nodes, w.receivers[k]) != []
  }

  /** A reconnect keeps every reader exactly when no media overwrites a held track that
      has readers, and after all medias no receiver with readers is left that the old
      connection closes when it is stopped. */
  lemma ReadersKeptIff(w: Wiring, medias: seq<Media>, answers: Answers, owned: seq<Track>)
    requires Tree(w.nodes)
    ensures (forall r :: Held(w, r) <==> Held(Handed(w, medias, answers, owned), r))
            <==> !AnyClobbers(w, medias, |medias|, answers) && !LeftBehind(MoveAll(w, medias, |medias|, answers), owned)
  {
    var n := |medias|;
    var moved, w' := MoveAll(w, medias, n, answers), Handed(w, medias, answers, owned);
    MoveAllKeepsTree(w, medias, n, answers);
    forall r | Held(w', r) ensures Held(moved, r) && Held(w, r) {
      HeldAfterClose(moved, owned, r);
      HeldBefore(w, medias, n, answers, r);
    }
    if AnyClobbers(w, medias, n, answers) {
      var r := MoveAllLosesReader(w, medias, n, answers);
      assert !Held(moved, r);
    } else if LeftBehind(moved, owned) {
      var k :| 0 <= k < |moved.receivers| && moved.receivers[k] in owned
               && Childs(moved.nodes, moved.receivers[k]) != [];
      var r := FirstReaderIsCut(moved, owned, k);
      HeldBefore(w, medias, n, answers, r);
    } else {
      forall r | Held(w, r) ensures Held(w', r) {
        MoveAllKeepsReader(w, medias, n, answers, r);
        UnclosedKeeps(moved, owned, r);
      }
    }
  }

  lemma UnclosedKeeps(w: Wiring, owned: seq<Track>, r: Reader)
    requires NoRepeats(w.nodes) && Held(w, r) && !LeftBehind(w, owned)
    ensures Held(w.(nodes := CloseTracks(w.nodes, owned)), r)
  {
    var i :| 0 <= i < |w.receivers| && r in Childs(w.nodes, w.receivers[i]);
    assert w.receivers[i] !in owned;
    CloseTracksAt(w.nodes, owned, w.receivers[i]);
    assert r in Childs(CloseTracks(w.nodes, owned), w.receivers[i]);
  }

  // --------------------------------------------- when the new connection's tracks are new

  /** The receiver that media `m` takes over is track `t`. */
  predicate MovesTrack(w: Wiring, medias: seq<Media>, m: nat, answers: Answers, t: Track)
    requires m < |medias|
  {
    var v := MoveAll(w, medias, m, answers);
    var i := FirstTaken(v, medias[m], m, 0, answers);
    medias[m].direction.Recvonly? && i < |v.receivers| && v.receivers[i] == t
  }

  /** Some of the first `n` medias takes over track `t`. */
  ghost predicate Moved(w: Wiring, medias: seq<Media>, n: nat, answers: Answers, t: Track)
    requires n <= |medias|
  {
    exists m :: 0 <= m < n && MovesTrack(w, medias, m, answers, t)
  }

  /** The readers of a track go with its first move, and nobody else comes to it. */
  lemma {:induction false} MovedEmpties(w: Wiring, medias: seq<Media>, n: nat, answers: Answers, t: Track)
    requires n <= |medias| && Foreign([t], answers)
    ensures Childs(MoveAll(w, medias, n, answers).nodes, t) ==
            if Moved(w, medias, n, answers, t) then [] else Childs(w.nodes, t)
  {
    if n != 0 {
      MovedEmpties(w, medias, n - 1, answers, t);
      assert Moved(w, medias, n, answers, t) <==>
             Moved(w, medias, n - 1, answers, t) || MovesTrack(w, medias, n - 1, answers, t);
      var v := MoveAll(w, medias, n - 1, answers);
      var i := FirstTaken(v, medias[n - 1], n - 1, 0, answers);
      if medias[n - 1].direction.Recvonly? && i < |v.receivers| {
        assert Takes(v, medias[n - 1], n - 1, i, answers);
        assert answers[(n - 1, i)] !in [t];
      }
    }
  }

  /** A receiver with readers that the old connection owns and no media takes over. */
  ghost predicate Stranded(w: Wiring, medias: seq<Media>, answers: Answers, owned: seq<Track>, k: nat)
    requires k < |w.receivers|
  {
    && w.receivers[k] in owned && Childs(w.nodes, w.receivers[k]) != []
    && !Moved(w, medias, |medias|, answers, w.receivers[k])
  }

  /** The tracks of the new connection belong to nobody else. */
  ghost predicate Strange(w: Wiring, owned: seq<Track>, answers: Answers) {
    Foreign(w.receivers, answers) && Foreign(owned, answers)
  }

  lemma LeftBehindIffStranded(w: Wiring, medias: seq<Media>, answers: Answers, owned: seq<Track>)
    requires Strange(w, owned, answers)
    ensures LeftBehind(MoveAll(w, medias, |medias|, answers), owned) <==>
            exists k :: 0 <= k < |w.receivers| && Stranded(w, medias, answers, owned, k)
  {
    var n := |medias|;
    var v := MoveAll(w, medias, n, answers);
    forall k | 0 <= k < |w.receivers|
      ensures v.receivers[k] in owned && Childs(v.nodes, v.receivers[k]) != []
              <==> Stranded(w, medias, answers, owned, k)
    {
      var t := w.receivers[k];
      assert Foreign([t], answers);
      MovedEmpties(w, medias, n, answers, t);
      LeavesIff(w, medias, n, answers, k);
      if v.receivers[k] != t {
        FreshReceivers(w, medias, n, answers, v.receivers[k]);
        FirstMove(w, medias, n, answers, k);
      }
    }
  }

  /** A receiver that is not what it was has been moved. */
  lemma {:induction false} FirstMove(w: Wiring, medias: seq<Media>, n: nat, answers: Answers, k: nat)
    requires n <= |medias| && k < |w.receivers| && MoveAll(w, medias, n, answers).receivers[k] != w.receivers[k]
    ensures Moved(w, medias, n, answers, w.receivers[k])
  {
    var v := MoveAll(w, medias, n - 1, answers);
    if v.receivers[k] != w.receivers[k] {
      FirstMove(w, medias, n - 1, answers, k);
    } else {
      assert MovesTrack(w, medias, n - 1, answers, w.receivers[k]);
    }
  }

  /** With a new connection that brings its own tracks, all readers are kept exactly when
      no media overwrites and every receiver that has readers, and that the old
      connection owns, is taken over by some media. */
  lemma ReadersKeptIffTakenOver(w: Wiring, medias: seq<Media>, answers: Answers, owned: seq<Track>)
    requires Tree(w.nodes) && Strange(w, owned, answers)
    ensures (forall r :: Held(w, r) <==> Held(Handed(w, medias, answers, owned), r))
            <==> && !AnyClobbers(w, medias, |medias|, answers)
                 && forall k :: 0 <= k < |w.receivers| ==> !Stranded(w, medias, answers, owned, k)
  {
    ReadersKeptIff(w, medias, answers, owned);
    LeftBehindIffStranded(w, medias, answers, owned);
  }

  /** Reader `r` hangs below a receiver that is a track of the new connection. */
  ghost predicate Fed(w: Wiring, tracks: seq<Track>, r: Reader) {
    exists i :: 0 <= i < |w.receivers| && w.receivers[i] in tracks && r in Childs(w.nodes, w.receivers[i])
  }

  lemma {:induction false} ReceiversAsked(w: Wiring, medias: seq<Media>, n: nat, answers: Answers, k: nat)
    requires n <= |medias| && k < |w.receivers|
    ensures var t := MoveAll(w, medias, n, answers).receivers[k];
            t == w.receivers[k] || t in Asked(w, medias, n, answers)
    ensures forall t :: t in Asked(w, medias, n, answers) ==> exists key :: key in answers && answers[key] == t
  {
    if n != 0 {
      ReceiversAsked(w, medias, n - 1, answers, k);
      var v := MoveAll(w, medias, n - 1, answers);
      var i := FirstTaken(v, medias[n - 1], n - 1, 0, answers);
      if medias[n - 1].direction.Recvonly? && i < |v.receivers| {
        assert Takes(v, medias[n - 1], n - 1, i, answers);
        assert (n - 1, i) in answers;
      }
    }
  }

  lemma FedIsHeld(w: Wiring, medias: seq<Media>, answers: Answers, owned: seq<Track>, r: Reader)
    requires NoRepeats(MoveAll(w, medias, |medias|, answers).nodes)
    requires Fed(Handed(w, medias, answers, owned), Asked(w, medias, |medias|, answers), r)
    ensures Held(MoveAll(w, medias, |medias|, answers), r)
  {
    var w' := Handed(w, medias, answers, owned);
    var i :| 0 <= i < |w'.receivers| && w'.receivers[i] in Asked(w, medias, |medias|, answers)
             && r in Childs(w'.nodes, w'.receivers[i]);
    assert Held(w', r);
    HeldAfterClose(MoveAll(w, medias, |medias|, answers), owned, r);
  }

  /** The readers of a receiver that is not taken over do not get the new packets. */
  lemma UnmovedIsNotFed(w: Wiring, medias: seq<Media>, answers: Answers, owned: seq<Track>, k: nat) returns (r: Reader)
    requires Tree(w.nodes) && Strange(w, owned, answers) && k < |w.receivers|
    requires Childs(w.nodes, w.receivers[k]) != [] && !Moved(w, medias, |medias|, answers, w.receivers[k])
    ensures Held(w, r) && !Fed(Handed(w, medias, answers, owned), Asked(w, medias, |medias|, answers), r)
  {
    var n := |medias|;
    var v, w', asked := MoveAll(w, medias, n, answers), Handed(w, medias, answers, owned), Asked(w, medias, n, answers);
    var t := w.receivers[k];
    r := Childs(w.nodes, t)[0];
    assert r in Childs(w.nodes, w.receivers[k]);
    MoveAllKeepsTree(w, medias, n, answers);
    assert Foreign([t], answers);
    MovedEmpties(w, medias, n, answers, t);
    forall i | 0 <= i < |w'.receivers| && r in Childs(w'.nodes, w'.receivers[i])
      ensures w'.receivers[i] !in asked
    {
      CloseTracksAt(v.nodes, owned, w'.receivers[i]);
      assert w'.receivers[i] == t;
      ReceiversAsked(w, medias, n, answers, i);
    }
  }

  /** And all readers get the new connection's packets exactly when no media overwrites
      and every receiver that has readers, whoever owned it, is taken over. */
  lemma ReadersFedIff(w: Wiring, medias: seq<Media>, answers: Answers, owned: seq<Track>)
    requires Tree(w.nodes) && Strange(w, owned, answers)
    ensures (forall r :: Held(w, r) ==> Fed(Handed(w, medias, answers, owned), Asked(w, medias, |medias|, answers), r))
            <==> && !AnyClobbers(w, medias, |medias|, answers)
                 && forall k :: 0 <= k < |w.receivers| && Childs(w.nodes, w.receivers[k]) != [] ==>
                      Moved(w, medias, |medias|, answers, w.receivers[k])
  {
    var n := |medias|;
    var v := MoveAll(w, medias, n, answers);
    MoveAllKeepsTree(w, medias, n, answers);
    if AnyClobbers(w, medias, n, answers) {
      var r := MoveAllLosesReader(w, medias, n, answers);
      assert !Held(v, r);
      if Fed(Handed(w, medias, answers, owned), Asked(w, medias, n, answers), r) {
        FedIsHeld(w, medias, answers, owned, r);
        assert false;
      }
    } else if k :| 0 <= k < |w.receivers| && Childs(w.nodes, w.receivers[k]) != []
                   && !Moved(w, medias, n, answers, w.receivers[k]) {
      var r := UnmovedIsNotFed(w, medias, answers, owned, k);
    } else {
      forall r | Held(w, r) ensures Fed(Handed(w, medias, answers, owned), Asked(w, medias, n, answers), r) {
        MoveAllKeepsReader(w, medias, n, answers, r);
        var i :| 0 <= i < |v.receivers| && r in Childs(v.nodes, v.receivers[i]);
        TakenIsFed(w, medias, answers, owned, r, i);
      }
    }
  }

  /** A reader that hangs below receiver `i` after the moves gets the new packets, if
      everything with readers was taken over. */
  lemma TakenIsFed(w: Wiring, medias: seq<Media>, answers: Answers, owned: seq<Track>, r: Reader, i: nat)
    requires Strange(w, owned, answers) && NoRepeats(MoveAll(w, medias, |medias|, answers).nodes)
    requires var v := MoveAll(w, medias, |medias|, answers); i < |v.receivers| && r in Childs(v.nodes, v.receivers[i])
    requires forall k :: 0 <= k < |w.receivers| && Childs(w.nodes, w.receivers[k]) != [] ==>
               Moved(w, medias, |medias|, answers, w.receivers[k])
    ensures Fed(Handed(w, medias, answers, owned), Asked(w, medias, |medias|, answers), r)
  {
    var n := |medias|;
    var v, w' := MoveAll(w, medias, n, answers), Handed(w, medias, answers, owned);
    var t := v.receivers[i];
    ReceiversAsked(w, medias, n, answers, i);
    if t == w.receivers[i] {
      assert Foreign([t], answers);
      MovedEmpties(w, medias, n, answers, t);
      assert false;
    }
    CloseTracksAt(v.nodes, owned, t);
    assert w'.receivers[i] == t && r in Childs(w'.nodes, w'.receivers[i]);
  }

  // ------------------------------------------------------ seen from the codecs alone

  function CodecsOf(ts: seq<Track>): (cs: seq<Codec>)
    ensures |cs| == |ts| && forall i :: 0 <= i < |ts| ==> cs[i] == ts[i].codec
  {
    seq(|ts|, i requires 0 <= i < |ts| => ts[i].codec)
  }

  /** The first codec of the list that matches. */
  function MatchedIn(codecs: seq<Codec>, remote: Codec): (r: Option<Codec>)
    ensures r.Some? <==> exists i :: 0 <= i < |codecs| && Matches(codecs[i], remote)
  {
    if codecs == [] then None
    else if Matches(codecs[0], remote) then Some(codecs[0])
    else
      assert forall i :: 1 <= i < |codecs| ==> codecs[i] == codecs[1..][i - 1];
      MatchedIn(codecs[1..], remote)
  }

  /** The first of the codecs that a media matches, from place `i` on. */
  function FirstSuited(media: Media, codecs: seq<Codec>, i: nat): (r: nat)
    requires i <= |codecs|
    ensures i <= r <= |codecs|
    decreases |codecs| - i
  {
    if i == |codecs| || MatchCodec(media, codecs[i]) then i else FirstSuited(media, codecs, i + 1)
  }

  /** The codecs of the receivers after the first `n` medias. */
  function CodecsAfter(codecs: seq<Codec>, medias: seq<Media>, n: nat): (r: seq<Codec>)
    requires n <= |medias|
    ensures |r| == |codecs|
  {
    if n == 0 then codecs
    else
      var cs, media := CodecsAfter(codecs, medias, n - 1), medias[n - 1];
      var i := FirstSuited(media, cs, 0);
      if media.direction.Recvonly? && i < |cs| && MatchedIn(media.codecs, cs[i]).Some?
      then cs[i := MatchedIn(media.codecs, cs[i]).value] else cs
  }

  /** Every track that can be asked for is answered, with the codec that was asked for. */
  ghost predicate Obliging(codecs: seq<Codec>, medias: seq<Media>, answers: Answers) {
    forall m, i {:trigger (m, i) in answers} ::
      0 <= m < |medias| && 0 <= i < |codecs| && MatchCodec(medias[m], CodecsAfter(codecs, medias, m)[i]) ==>
        && (m, i) in answers
        && Some(answers[(m, i)].codec) == MatchedIn(medias[m].codecs, CodecsAfter(codecs, medias, m)[i])
  }

  lemma {:induction false} FirstTakenIsFirstSuited(w: Wiring, media: Media, m: nat, i: nat, answers: Answers,
                                                   codecs: seq<Codec>)
    requires codecs == CodecsOf(w.receivers) && i <= |codecs|
    requires forall k :: 0 <= k < |codecs| && MatchCodec(media, codecs[k]) ==> (m, k) in answers
    ensures FirstTaken(w, media, m, i, answers) == FirstSuited(media, codecs, i)
    decreases |codecs| - i
  {
    if i < |codecs| {
      FirstTakenIsFirstSuited(w, media, m, i + 1, answers, codecs);
    }
  }

  lemma {:induction false} CodecsFollow(w: Wiring, medias: seq<Media>, n: nat, answers: Answers)
    requires n <= |medias| && Obliging(CodecsOf(w.receivers), medias, answers)
    ensures CodecsOf(MoveAll(w, medias, n, answers).receivers) == CodecsAfter(CodecsOf(w.receivers), medias, n)
    decreases n
  {
    if n != 0 {
      CodecsFollow(w, medias, n - 1, answers);
      var v, cs := MoveAll(w, medias, n - 1, answers), CodecsAfter(CodecsOf(w.receivers), medias, n - 1);
      forall k | 0 <= k < |cs| && MatchCodec(medias[n - 1], cs[k])
        ensures (n - 1, k) in answers
      {
      }
      FirstTakenIsFirstSuited(v, medias[n - 1], n - 1, 0, answers, cs);
      var i := FirstTaken(v, medias[n - 1], n - 1, 0, answers);
      if medias[n - 1].direction.Recvonly? && i < |v.receivers| {
        assert Takes(v, medias[n - 1], n - 1, i, answers) && (n - 1, i) in answers;
      }
    }
  }

  /** When every track that is asked for is answered, receiver `k` is moved exactly when,
      by the lists of codecs alone, it is the first that some media suits at its turn. */
  lemma LeavesIffFirstSuited(w: Wiring, medias: seq<Media>, answers: Answers, k: nat)
    requires k < |w.receivers| && Foreign(w.receivers, answers) && Obliging(CodecsOf(w.receivers), medias, answers)
    ensures MoveAll(w, medias, |medias|, answers).receivers[k] !in w.receivers <==>
            exists m :: 0 <= m < |medias| && medias[m].direction.Recvonly?
                        && FirstSuited(medias[m], CodecsAfter(CodecsOf(w.receivers), medias, m), 0) == k
  {
    LeavesIff(w, medias, |medias|, answers, k);
    var codecs := CodecsOf(w.receivers);
    forall m | 0 <= m < |medias|
      ensures TakesOver(w, medias, m, answers, k) <==>
              medias[m].direction.Recvonly? && FirstSuited(medias[m], CodecsAfter(codecs, medias, m), 0) == k
    {
      CodecsFollow(w, medias, m, answers);
      var v, cs := MoveAll(w, medias, m, answers), CodecsAfter(codecs, medias, m);
      forall i | 0 <= i < |cs| && MatchCodec(medias[m], cs[i])
        ensures (m, i) in answers
      {
      }
      FirstTakenIsFirstSuited(v, medias[m], m, 0, answers, cs);
    }
  }

  // --------------------------------------------------------------------- senders

  /** A reader that a connection has hung below a track of a consumer. */
  type Hanging = (Track, Reader)

  /** What the new connection hangs below a sender it accepts; a pair of media and
      sender that is missing is an error, which is ignored. */
  type Accepts = map<(nat, nat), Reader>

  /** What the new connection hangs for media `m` below the first `n` senders. */
  function SentFor(senders: seq<Track>, media: Media, m: nat, n: nat, accepts: Accepts): seq<Hanging>
    requires n <= |senders|
  {
    if n == 0 then []
    else
      var before := SentFor(senders, media, m, n - 1, accepts);
      if MatchCodec(media, senders[n - 1].codec) && (m, n - 1) in accepts
      then before + [(senders[n - 1], accepts[(m, n - 1)])] else before
  }

  /** And for the first `n` medias. */
  function SentAll(senders: seq<Track>, medias: seq<Media>, n: nat, accepts: Accepts): seq<Hanging>
    requires n <= |medias|
  {
    if n == 0 then []
    else
      var before := SentAll(senders, medias, n - 1, accepts);
      if medias[n - 1].direction.Sendonly? then before + SentFor(senders, medias[n - 1], n - 1, |senders|, accepts)
      else before
  }

  function Hang(nodes: Nodes, h: Hanging): Nodes {
    nodes[h.0 := Childs(nodes, h.0) + [h.1]]
  }

  function HangAll(nodes: Nodes, hung: seq<Hanging>): Nodes
    decreases |hung|
  {
    if hung == [] then nodes else Hang(HangAll(nodes, hung[..|hung| - 1]), hung[|hung| - 1])
  }

  lemma HangSnoc(nodes: Nodes, hung: seq<Hanging>, h: Hanging)
    ensures HangAll(nodes, hung + [h]) == Hang(HangAll(nodes, hung), h)
  {
    assert (hung + [h])[..|hung|] == hung;
  }

  /** Closing what a connection has hung takes each reader off its track. */
  function Unhang(nodes: Nodes, hung: seq<Hanging>): Nodes
    decreases |hung|
  {
    if hung == [] then nodes
    else
      var n := |hung| - 1;
      var before, (t, r) := Unhang(nodes, hung[..n]), hung[n];
      before[t := RemoveFirst(Childs(before, t), r)]
  }

  method UnhangAll(nodes: Nodes, hung: seq<Hanging>) returns (r: Nodes)
    ensures r == Unhang(nodes, hung)
  {
    r := nodes;
    for i := 0 to |hung|
      invariant r == Unhang(nodes, hung[..i])
    {
      assert hung[..i + 1][..i] == hung[..i];
      var (t, reader) := hung[i];
      r := r[t := RemoveFirst(Childs(r, t), reader)];
    }
    assert hung[..|hung|] == hung;
  }

  lemma NoRepeatBefore(x: Reader, s: seq<Reader>)
    requires NoRepeat(s) && x !in s
    ensures NoRepeat([x] + s)
  {
    assert forall i :: 0 <= i < |s| ==> s[i] in s;
  }

  lemma {:induction false} RemoveFirstThins(s: seq<Reader>, x: Reader)
    requires NoRepeat(s)
    ensures NoRepeat(RemoveFirst(s, x)) && forall r :: r in RemoveFirst(s, x) ==> r in s
  {
    if s != [] {
      var tail := s[1..];
      assert forall i :: 0 <= i < |tail| ==> tail[i] == s[i + 1];
      RemoveFirstThins(tail, x);
      if s[0] != x {
        NoRepeatBefore(s[0], RemoveFirst(tail, x));
      }
    }
  }

  lemma {:induction false} UnhangKeepsTree(nodes: Nodes, hung: seq<Hanging>)
    requires Tree(nodes)
    ensures Tree(Unhang(nodes, hung))
    decreases |hung|
  {
    if hung != [] {
      var n := |hung| - 1;
      var before, h := Unhang(nodes, hung[..n]), hung[n];
      UnhangKeepsTree(nodes, hung[..n]);
      RemoveFirstThins(Childs(before, h.0), h.1);
      ThinnerKeepsTree(Unhang(nodes, hung), before);
    }
  }

  /** A reader that hangs nowhere yet. */
  lemma HangKeepsTree(nodes: Nodes, h: Hanging)
    requires Tree(nodes) && Gone(nodes, h.1)
    ensures Tree(Hang(nodes, h))
  {
    var nodes', childs := Hang(nodes, h), Childs(nodes, h.0);
    assert h.1 !in childs && nodes'[h.0] == childs + [h.1];
    assert forall r :: r in childs + [h.1] <==> r in childs || r == h.1;
    forall s, t, r | s in nodes' && t in nodes' && r in nodes'[s] && r in nodes'[t]
      ensures s == t
    {
      if r != h.1 {
        assert r in Childs(nodes, s) && r in Childs(nodes, t);
      }
    }
  }

  /** Different readers that hang nowhere yet. */
  ghost predicate NewReaders(nodes: Nodes, hung: seq<Hanging>) {
    && (forall i, j :: 0 <= i < j < |hung| ==> hung[i].1 != hung[j].1)
    && (forall i :: 0 <= i < |hung| ==> Gone(nodes, hung[i].1))
  }

  lemma {:induction false} StillGone(nodes: Nodes, hung: seq<Hanging>, r: Reader)
    requires Gone(nodes, r) && forall i :: 0 <= i < |hung| ==> hung[i].1 != r
    ensures Gone(HangAll(nodes, hung), r)
    decreases |hung|
  {
    if hung != [] {
      StillGone(nodes, hung[..|hung| - 1], r);
    }
  }

  lemma {:induction false} HangAllKeepsTree(nodes: Nodes, hung: seq<Hanging>)
    requires Tree(nodes) && NewReaders(nodes, hung)
    ensures Tree(HangAll(nodes, hung))
    decreases |hung|
  {
    if hung != [] {
      var n := |hung| - 1;
      HangAllKeepsTree(nodes, hung[..n]);
      StillGone(nodes, hung[..n], hung[n].1);
      HangKeepsTree(HangAll(nodes, hung[..n]), hung[n]);
    }
  }

  /** What a new connection hangs below senders is new, and each only once. */
  ghost predicate NewAccepts(nodes: Nodes, accepts: Accepts) {
    && (forall key :: key in accepts ==> Gone(nodes, accepts[key]))
    && (forall k, l :: k in accepts && l in accepts && k != l ==> accepts[k] != accepts[l])
  }

  /** Reader `r` was accepted for a media before `m`, or for `m` and a sender before `n`. */
  ghost predicate AcceptedBefore(r: Reader, accepts: Accepts, m: nat, n: nat) {
    exists key :: key in accepts && accepts[key] == r && (key.0 < m || (key.0 == m && key.1 < n))
  }

  ghost predicate AllAccepted(hung: seq<Hanging>, accepts: Accepts, m: nat, n: nat) {
    forall i :: 0 <= i < |hung| ==> AcceptedBefore(hung[i].1, accepts, m, n)
  }

  lemma AcceptedLater(hung: seq<Hanging>, accepts: Accepts, m: nat, n: nat)
    requires AllAccepted(hung, accepts, m, n)
    ensures AllAccepted(hung, accepts, m, n + 1) && AllAccepted(hung, accepts, m + 1, 0)
  {
    forall i | 0 <= i < |hung|
      ensures AcceptedBefore(hung[i].1, accepts, m, n + 1) && AcceptedBefore(hung[i].1, accepts, m + 1, 0)
    {
      assert AcceptedBefore(hung[i].1, accepts, m, n);
    }
  }

  lemma OneMoreAccepted(nodes: Nodes, hung: seq<Hanging>, accepts: Accepts, m: nat, n: nat, t: Track)
    requires NewAccepts(nodes, accepts) && NewReaders(nodes, hung) && AllAccepted(hung, accepts, m, n)
    requires (m, n) in accepts
    ensures var hung' := hung + [(t, accepts[(m, n)])];
            NewReaders(nodes, hung') && AllAccepted(hung', accepts, m, n + 1)
  {
    var hung' := hung + [(t, accepts[(m, n)])];
    AcceptedLater(hung, accepts, m, n);
    forall i | 0 <= i < |hung|
      ensures hung[i].1 != accepts[(m, n)]
    {
      assert AcceptedBefore(hung[i].1, accepts, m, n);
    }
    assert AcceptedBefore(accepts[(m, n)], accepts, m, n + 1);
  }

  lemma {:induction false} SentForIsNew(nodes: Nodes, before: seq<Hanging>, senders: seq<Track>, media: Media, m: nat,
                                        n: nat, accepts: Accepts)
    requires n <= |senders| && NewAccepts(nodes, accepts)
    requires NewReaders(nodes, before) && AllAccepted(before, accepts, m, 0)
    ensures var hung := before + SentFor(senders, media, m, n, accepts);
            NewReaders(nodes, hung) && AllAccepted(hung, accepts, m, n)
  {
    if n == 0 {
      assert before + [] == before;
    } else {
      SentForIsNew(nodes, before, senders, media, m, n - 1, accepts);
      var sent := SentFor(senders, media, m, n - 1, accepts);
      AcceptedLater(before + sent, accepts, m, n - 1);
      if MatchCodec(media, senders[n - 1].codec) && (m, n - 1) in accepts {
        OneMoreAccepted(nodes, before + sent, accepts, m, n - 1, senders[n - 1]);
        Regroup(before, sent, [(senders[n - 1], accepts[(m, n - 1)])]);
      }
    }
  }

  lemma {:induction false} SentIsNew(nodes: Nodes, senders: seq<Track>, medias: seq<Media>, n: nat, accepts: Accepts)
    requires n <= |medias| && NewAccepts(nodes, accepts)
    ensures var hung := SentAll(senders, medias, n, accepts);
            NewReaders(nodes, hung) && AllAccepted(hung, accepts, n, 0)
  {
    if n != 0 {
      SentIsNew(nodes, senders, medias, n - 1, accepts);
      var before := SentAll(senders, medias, n - 1, accepts);
      SentForIsNew(nodes, before, senders, medias[n - 1], n - 1, |senders|, accepts);
      AcceptedLater(before, accepts, n - 1, 0);
      AcceptedLater(before + SentFor(senders, medias[n - 1], n - 1, |senders|, accepts), accepts, n - 1, |senders|);
    }
  }

  /** The readers of one track, in order. */
  function ReadersAt(hung: seq<Hanging>, t: Track): seq<Reader>
    decreases |hung|
  {
    if hung == [] then []
    else
      var n := |hung| - 1;
      ReadersAt(hung[..n], t) + if hung[n].0 == t then [hung[n].1] else []
  }

  lemma {:induction false} RemoveFirstCounts(s: seq<Reader>, x: Reader)
    ensures multiset(RemoveFirst(s, x)) == multiset(s) - multiset{x}
  {
    if s == [] {
    } else if s[0] == x {
      assert s == [x] + s[1..];
    } else {
      var rest := s[1..];
      assert s == [s[0]] + rest;
      RemoveFirstCounts(rest, x);
      assert RemoveFirst(s, x) == [s[0]] + RemoveFirst(rest, x);
    }
  }

  lemma {:induction false} UnhangCounts(nodes: Nodes, hung: seq<Hanging>, t: Track)
    ensures multiset(Childs(Unhang(nodes, hung), t)) == multiset(Childs(nodes, t)) - multiset(ReadersAt(hung, t))
    decreases |hung|
  {
    if hung != [] {
      var n := |hung| - 1;
      var (u, r) := hung[n];
      UnhangCounts(nodes, hung[..n], t);
      if u == t {
        RemoveFirstCounts(Childs(Unhang(nodes, hung[..n]), t), r);
      }
    }
  }

  lemma {:induction false} HangCounts(nodes: Nodes, hung: seq<Hanging>, t: Track)
    ensures multiset(Childs(HangAll(nodes, hung), t)) == multiset(Childs(nodes, t)) + multiset(ReadersAt(hung, t))
    decreases |hung|
  {
    if hung != [] {
      HangCounts(nodes, hung[..|hung| - 1], t);
    }
  }

  /** After a reconnect each sender has the readers it had, without those of the old
      connection, `hung`, and with those that the new one has hung. */
  lemma SendersHandedOver(nodes: Nodes, senders: seq<Track>, medias: seq<Media>, accepts: Accepts, hung: seq<Hanging>,
                          t: Track)
    ensures var sent := SentAll(senders, medias, |medias|, accepts);
            multiset(Childs(Unhang(HangAll(nodes, sent), hung), t)) ==
            multiset(Childs(nodes, t)) + multiset(ReadersAt(sent, t)) - multiset(ReadersAt(hung, t))
  {
    var sent := SentAll(senders, medias, |medias|, accepts);
    HangCounts(nodes, sent, t);
    UnhangCounts(HangAll(nodes, sent), hung, t);
  }
}
