/** Media tracks and their readers: the part of the node graph that a reconnect
    rewires when it carries readers from an old connection to a new one. */
module Tracks {
  /** A codec. `ref` stands for its address: two codecs are the same object
      exactly when the records are equal. */
  datatype Codec = Codec(ref: nat, name: string, clockRate: nat, channels: nat)

  /** A receiver of a connection. */
  datatype Track = Track(id: nat, codec: Codec)

  datatype Direction = Recvonly | Sendonly | Sendrecv

  datatype Media = Media(kind: string, direction: Direction, codecs: seq<Codec>)

  type Reader = nat

  /** Which readers hang below which track, in order. */
  type Nodes = map<Track, seq<Reader>>

  /** What the tracks of a new connection answer: the pair is the position of the
      media and of the receiver in the two loops, which never asks twice about a
      pair. A pair that is missing is an error. */
  type Answers = map<(nat, nat), Track>

  /** The receivers of a producer together with the node graph. */
  datatype Wiring = Wiring(receivers: seq<Track>, nodes: Nodes)

  predicate Matches(c: Codec, remote: Codec) {
    || remote.name == "ALL"
    || remote.name == "ANY"
    || (&& c.name == remote.name
        && (c.clockRate == remote.clockRate || remote.clockRate == 0)
        && (c.channels == remote.channels || remote.channels == 0))
  }

  predicate MatchCodec(m: Media, remote: Codec) {
    exists i :: 0 <= i < |m.codecs| && Matches(m.codecs[i], remote)
  }

  function Childs(nodes: Nodes, t: Track): seq<Reader> {
    if t in nodes then nodes[t] else []
  }

  /** Moves the readers of `src` to `dst`. The list of `dst` is overwritten. */
  function Replace(nodes: Nodes, src: Track, dst: Track): Nodes {
    nodes[src := []][dst := Childs(nodes, src)]
  }

  /** Media number `m` of the new connection can take over receiver `i`. */
  predicate Takes(w: Wiring, media: Media, m: nat, i: nat, answers: Answers)
    requires i < |w.receivers|
  {
    MatchCodec(media, w.receivers[i].codec) && (m, i) in answers
  }

  /** The first receiver at or after `i` that media `m` can take over, if any. */
  function FirstTaken(w: Wiring, media: Media, m: nat, i: nat, answers: Answers): (r: nat)
    requires i <= |w.receivers|
    ensures i <= r <= |w.receivers|
    ensures r < |w.receivers| ==> Takes(w, media, m, r, answers)
    ensures forall j :: i <= j < r ==> !Takes(w, media, m, j, answers)
    decreases |w.receivers| - i
  {
    if i == |w.receivers| || Takes(w, media, m, i, answers) then i
    else FirstTaken(w, media, m, i + 1, answers)
  }

  /** Receiver `i` becomes `t`, and its readers move there. */
  function MoveTo(w: Wiring, i: nat, t: Track): Wiring
    requires i < |w.receivers|
  {
    Wiring(w.receivers[i := t], Replace(w.nodes, w.receivers[i], t))
  }

  /** What one media of the new connection does to the receivers. */
  function MoveMedia(w: Wiring, media: Media, m: nat, answers: Answers): (w': Wiring)
    ensures |w'.receivers| == |w.receivers|
  {
    if !media.direction.Recvonly? then w
    else
      var i := FirstTaken(w, media, m, 0, answers);
      if i == |w.receivers| then w else MoveTo(w, i, answers[(m, i)])
  }

  /** What the first `n` medias of the new connection do. */
  function MoveAll(w: Wiring, medias: seq<Media>, n: nat, answers: Answers): (w': Wiring)
    requires n <= |medias|
    ensures |w'.receivers| == |w.receivers|
  {
    if n == 0 then w
    else MoveMedia(MoveAll(w, medias, n - 1, answers), medias[n - 1], n - 1, answers)
  }

  /** Reader `r` hangs below one of the receivers. */
  ghost predicate Held(w: Wiring, r: Reader) {
    exists i :: 0 <= i < |w.receivers| && r in Childs(w.nodes, w.receivers[i])
  }

  /** No reader hangs below two tracks. */
  ghost predicate SingleParent(nodes: Nodes) {
    forall s, t, r :: s in nodes && t in nodes && r in nodes[s] && r in nodes[t] ==> s == t
  }

  /** Moving receiver `i` to `t` overwrites a held track that has readers. */
  predicate Clobbers(w: Wiring, i: nat, t: Track)
    requires i < |w.receivers|
  {
    t in w.receivers && t != w.receivers[i] && Childs(w.nodes, t) != []
  }

  predicate MediaClobbers(w: Wiring, media: Media, m: nat, answers: Answers) {
    && media.direction.Recvonly?
    && var i := FirstTaken(w, media, m, 0, answers);
       i < |w.receivers| && Clobbers(w, i, answers[(m, i)])
  }

  /** Some media among the first `n` overwrites a held track that has readers. */
  predicate AnyClobbers(w: Wiring, medias: seq<Media>, n: nat, answers: Answers)
    requires n <= |medias|
  {
    n != 0 &&
    (|| AnyClobbers(w, medias, n - 1, answers)
     || MediaClobbers(MoveAll(w, medias, n - 1, answers), medias[n - 1], n - 1, answers))
  }

  /** Reader `r` hangs nowhere at all. */
  ghost predicate Gone(nodes: Nodes, r: Reader) {
    forall t :: t in nodes ==> r !in nodes[t]
  }

  // ------------------------------------------------------------------ one move

  lemma MoveKeepsReader(w: Wiring, i: nat, t: Track, r: Reader)
    requires i < |w.receivers| && Held(w, r) && !Clobbers(w, i, t)
    ensures Held(MoveTo(w, i, t), r)
  {
    var w' := MoveTo(w, i, t);
    var j :| 0 <= j < |w.receivers| && r in Childs(w.nodes, w.receivers[j]);
    if w.receivers[j] == w.receivers[i] {
      assert w'.receivers[i] == t && r in Childs(w'.nodes, t);
    } else {
      assert w.receivers[j] in w.receivers;
      assert w'.receivers[j] == w.receivers[j] && r in Childs(w'.nodes, w'.receivers[j]);
    }
  }

  lemma MoveKeepsSingleParent(w: Wiring, i: nat, t: Track)
    requires i < |w.receivers| && SingleParent(w.nodes)
    ensures SingleParent(MoveTo(w, i, t).nodes)
  {
  }

  lemma MoveKeepsGone(w: Wiring, i: nat, t: Track, r: Reader)
    requires i < |w.receivers| && Gone(w.nodes, r)
    ensures Gone(MoveTo(w, i, t).nodes, r)
  {
  }

  lemma ClobberLosesReader(w: Wiring, i: nat, t: Track) returns (r: Reader)
    requires i < |w.receivers| && SingleParent(w.nodes) && Clobbers(w, i, t)
    ensures Held(w, r) && Gone(MoveTo(w, i, t).nodes, r)
  {
    r := Childs(w.nodes, t)[0];
    var j :| 0 <= j < |w.receivers| && w.receivers[j] == t;
    assert r in Childs(w.nodes, w.receivers[j]);
    assert t in w.nodes && r in w.nodes[t];
    var nodes' := MoveTo(w, i, t).nodes;
    forall u | u in nodes' ensures r !in nodes'[u] {
      if u == t {
        var src := w.receivers[i];
        assert src in w.nodes ==> r !in w.nodes[src];
      }
    }
  }

  // ----------------------------------------------------------- a whole reconnect

  lemma {:induction false} MoveAllKeepsGraph(w: Wiring, medias: seq<Media>, n: nat, answers: Answers)
    requires n <= |medias| && SingleParent(w.nodes)
    ensures SingleParent(MoveAll(w, medias, n, answers).nodes)
  {
    if n != 0 {
      MoveAllKeepsGraph(w, medias, n - 1, answers);
      var v := MoveAll(w, medias, n - 1, answers);
      var i := FirstTaken(v, medias[n - 1], n - 1, 0, answers);
      if medias[n - 1].direction.Recvonly? && i < |v.receivers| {
        MoveKeepsSingleParent(v, i, answers[(n - 1, i)]);
      }
    }
  }

  lemma {:induction false} MoveAllKeepsReader(w: Wiring, medias: seq<Media>, n: nat, answers: Answers, r: Reader)
    requires n <= |medias| && Held(w, r) && !AnyClobbers(w, medias, n, answers)
    ensures Held(MoveAll(w, medias, n, answers), r)
  {
    if n != 0 {
      MoveAllKeepsReader(w, medias, n - 1, answers, r);
      var v := MoveAll(w, medias, n - 1, answers);
      var i := FirstTaken(v, medias[n - 1], n - 1, 0, answers);
      if medias[n - 1].direction.Recvonly? && i < |v.receivers| {
        MoveKeepsReader(v, i, answers[(n - 1, i)], r);
      }
    }
  }

  lemma {:induction false} MoveAllLosesReader(w: Wiring, medias: seq<Media>, n: nat, answers: Answers)
      returns (r: Reader)
    requires n <= |medias| && SingleParent(w.nodes) && AnyClobbers(w, medias, n, answers)
    ensures Held(w, r) && Gone(MoveAll(w, medias, n, answers).nodes, r)
  {
    var v := MoveAll(w, medias, n - 1, answers);
    var i := FirstTaken(v, medias[n - 1], n - 1, 0, answers);
    if AnyClobbers(w, medias, n - 1, answers) {
      r := MoveAllLosesReader(w, medias, n - 1, answers);
      if medias[n - 1].direction.Recvonly? && i < |v.receivers| {
        MoveKeepsGone(v, i, answers[(n - 1, i)], r);
      }
    } else {
      MoveAllKeepsGraph(w, medias, n - 1, answers);
      r := ClobberLosesReader(v, i, answers[(n - 1, i)]);
      HeldBefore(w, medias, n - 1, answers, r);
    }
  }

  /** Moving tracks brings in no reader from outside: readers that a track of the
      new connection had before are overwritten. */
  lemma {:induction false} HeldBefore(w: Wiring, medias: seq<Media>, n: nat, answers: Answers, r: Reader)
    requires n <= |medias| && Held(MoveAll(w, medias, n, answers), r)
    ensures Held(w, r)
  {
    if n != 0 {
      var v := MoveAll(w, medias, n - 1, answers);
      var i := FirstTaken(v, medias[n - 1], n - 1, 0, answers);
      if medias[n - 1].direction.Recvonly? && i < |v.receivers| {
        var t := answers[(n - 1, i)];
        var w' := MoveTo(v, i, t);
        var j :| 0 <= j < |w'.receivers| && r in Childs(w'.nodes, w'.receivers[j]);
        if w'.receivers[j] == t {
          assert r in Childs(v.nodes, v.receivers[i]);
        } else {
          assert r in Childs(v.nodes, v.receivers[j]);
        }
      }
      HeldBefore(w, medias, n - 1, answers, r);
    }
  }

  /** A reconnect keeps every reader exactly when no media overwrites a held
      track that still has readers. */
  lemma ReadersSurviveIffNoClobber(w: Wiring, medias: seq<Media>, answers: Answers)
    requires SingleParent(w.nodes)
    ensures (forall r :: Held(w, r) <==> Held(MoveAll(w, medias, |medias|, answers), r))
            <==> !AnyClobbers(w, medias, |medias|, answers)
  {
    var n := |medias|;
    var w' := MoveAll(w, medias, n, answers);
    forall r | Held(w', r) ensures Held(w, r) {
      HeldBefore(w, medias, n, answers, r);
    }
    if AnyClobbers(w, medias, n, answers) {
      var r := MoveAllLosesReader(w, medias, n, answers);
      assert !Held(w', r);
    } else {
      forall r | Held(w, r) ensures Held(w', r) {
        MoveAllKeepsReader(w, medias, n, answers, r);
      }
    }
  }

  /** The tracks of the new connection are not receivers yet, and two medias
      never answer with the same track. */
  ghost predicate FreshAnswers(w: Wiring, answers: Answers) {
    && (forall k :: k in answers ==> answers[k] !in w.receivers)
    && (forall k, l :: k in answers && l in answers && k.0 != l.0 ==> answers[k] != answers[l])
  }

  lemma {:induction false} FreshReceivers(w: Wiring, medias: seq<Media>, n: nat, answers: Answers, t: Track)
    requires n <= |medias| && t in MoveAll(w, medias, n, answers).receivers
    ensures || t in w.receivers
            || exists m, i {:trigger (m, i) in answers} :: 0 <= m < n && (m, i) in answers && answers[(m, i)] == t
  {
    if n != 0 {
      var v := MoveAll(w, medias, n - 1, answers);
      var i := FirstTaken(v, medias[n - 1], n - 1, 0, answers);
      if t in v.receivers {
        FreshReceivers(w, medias, n - 1, answers, t);
      } else {
        assert (n - 1, i) in answers && answers[(n - 1, i)] == t;
      }
    }
  }

  lemma {:induction false} FreshAnswersDoNotClobber(w: Wiring, medias: seq<Media>, n: nat, answers: Answers)
    requires n <= |medias| && FreshAnswers(w, answers)
    ensures !AnyClobbers(w, medias, n, answers)
  {
    if n != 0 {
      FreshAnswersDoNotClobber(w, medias, n - 1, answers);
      var v := MoveAll(w, medias, n - 1, answers);
      var i := FirstTaken(v, medias[n - 1], n - 1, 0, answers);
      if MediaClobbers(v, medias[n - 1], n - 1, answers) {
        FreshReceivers(w, medias, n - 1, answers, answers[(n - 1, i)]);
        assert false;
      }
    }
  }

  // ------------------------------------------------------------- what goes wrong

  const H264_A := Codec(1, "H264", 90000, 0)
  const H264_B := Codec(2, "H264", 90000, 0)
  const OPUS := Codec(3, "OPUS", 48000, 2)

  /** A connection that answers two medias with one track loses the reader of
      the first receiver. */
  lemma SharedTrackLosesReader()
    ensures var v, a, t := Track(1, H264_A), Track(2, OPUS), Track(3, H264_B);
            var w := Wiring([v, a], map[v := [7], a := [8]]);
            var medias := [Media("video", Recvonly, [H264_B]), Media("audio", Recvonly, [OPUS])];
            var w' := MoveAll(w, medias, 2, map[(0, 0) := t, (1, 1) := t]);
            Held(w, 7) && !Held(w', 7) && Held(w', 8)
  {
    var v, a, t := Track(1, H264_A), Track(2, OPUS), Track(3, H264_B);
    var w := Wiring([v, a], map[v := [7], a := [8]]);
    var medias := [Media("video", Recvonly, [H264_B]), Media("audio", Recvonly, [OPUS])];
    var answers := map[(0, 0) := t, (1, 1) := t];
    assert 7 in Childs(w.nodes, w.receivers[0]);
    assert Matches(medias[0].codecs[0], H264_A) && Matches(medias[1].codecs[0], OPUS);
    assert !Matches(medias[1].codecs[0], H264_B);
    var w1 := MoveAll(w, medias, 1, answers);
    assert MoveAll(w, medias, 0, answers) == w;
    assert w1 == MoveTo(w, 0, t);
    assert FirstTaken(w1, medias[1], 1, 0, answers) == 1;
    var w2 := MoveAll(w, medias, 2, answers);
    assert w2 == MoveTo(w1, 1, t);
    assert 8 in Childs(w2.nodes, w2.receivers[1]);
  }

  /** Media `m` of the new connection takes over receiver `k`. */
  predicate TakesOver(w: Wiring, medias: seq<Media>, m: nat, answers: Answers, k: nat)
    requires m < |medias|
  {
    && medias[m].direction.Recvonly? && k < |w.receivers|
    && FirstTaken(MoveAll(w, medias, m, answers), medias[m], m, 0, answers) == k
  }

  /** No track that is answered is a receiver already. */
  ghost predicate Foreign(tracks: seq<Track>, answers: Answers) {
    forall key :: key in answers ==> answers[key] !in tracks
  }

  /** Only the first receiver that a media can take over moves. So, of the first `n`
      medias, receiver `k` is moved to the new connection exactly when one of them has
      it as the first. */
  lemma {:induction false} LeavesIff(w: Wiring, medias: seq<Media>, n: nat, answers: Answers, k: nat)
    requires n <= |medias| && k < |w.receivers| && Foreign(w.receivers, answers)
    ensures var t := MoveAll(w, medias, n, answers).receivers[k];
            && (t !in w.receivers <==> exists m :: 0 <= m < n && TakesOver(w, medias, m, answers, k))
            && (t in w.receivers ==> t == w.receivers[k])
  {
    if n != 0 {
      LeavesIff(w, medias, n - 1, answers, k);
      if TakesOver(w, medias, n - 1, answers, k) {
        var v := MoveAll(w, medias, n - 1, answers);
        assert Takes(v, medias[n - 1], n - 1, k, answers);
      }
    }
  }

  /** Two video receivers and a new connection with two video medias that both
      suit both receivers: the first receiver is moved twice, the second never. */
  lemma SecondVideoReceiverIsStranded()
    ensures var a, b := Track(1, H264_A), Track(2, H264_B);
            var w := Wiring([a, b], map[a := [7], b := [8]]);
            var medias := [Media("video", Recvonly, [H264_A]), Media("video", Recvonly, [H264_B])];
            var t, u := Track(3, H264_A), Track(4, H264_B);
            MoveAll(w, medias, 2, map[(0, 0) := t, (0, 1) := t, (1, 0) := u, (1, 1) := u]).receivers == [u, b]
  {
    var a, b := Track(1, H264_A), Track(2, H264_B);
    var w := Wiring([a, b], map[a := [7], b := [8]]);
    var medias := [Media("video", Recvonly, [H264_A]), Media("video", Recvonly, [H264_B])];
    var t, u := Track(3, H264_A), Track(4, H264_B);
    var answers := map[(0, 0) := t, (0, 1) := t, (1, 0) := u, (1, 1) := u];
    assert Matches(medias[0].codecs[0], H264_A) && Matches(medias[1].codecs[0], H264_A);
    assert MoveAll(w, medias, 0, answers) == w;
    assert MoveAll(w, medias, 1, answers) == MoveTo(w, 0, t);
    assert MoveAll(w, medias, 2, answers) == MoveTo(MoveTo(w, 0, t), 0, u);
  }
}
