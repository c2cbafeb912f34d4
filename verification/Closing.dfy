/** Closing a track: the loop over the readers below it that has each of them take
    itself off the very list that is looped over. */
module Closing {
  import opened Seqs
  import opened Tracks

  /** The backing array of a list of length `l` after element `k` was cut out in place:
      what follows moves up, and the last place keeps what it had. */
  function CutOut(b: seq<Reader>, l: nat, k: nat): (r: seq<Reader>)
    requires k < l <= |b|
    ensures |r| == |b|
  {
    b[..k] + b[k + 1..l] + b[l - 1..]
  }

  lemma CutOutAt(b: seq<Reader>, l: nat, k: nat, j: nat)
    requires k < l <= |b| && j < |b|
    ensures CutOut(b, l, k)[j] == if k <= j < l - 1 then b[j + 1] else b[j]
  {
    var front := b[..k] + b[k + 1..l];
    assert |front| == l - 1;
  }

  /** The position of the first `x`, or the length. */
  function Find(s: seq<Reader>, x: Reader): (k: nat)
    ensures k <= |s| && (k < |s| ==> s[k] == x)
    ensures forall j :: 0 <= j < k ==> s[j] != x
  {
    if s == [] || s[0] == x then 0 else 1 + Find(s[1..], x)
  }

  /** The loop from position `i` of the array on; the list is its first `l` elements. */
  function CloseFrom(b: seq<Reader>, l: nat, i: nat): seq<Reader>
    requires l <= |b|
    decreases |b| - i
  {
    if i >= |b| then b[..l]
    else
      var k := Find(b[..l], b[i]);
      if k == l then CloseFrom(b, l, i + 1) else CloseFrom(CutOut(b, l, k), l - 1, i + 1)
  }

  /** What is left below a track that is closed. */
  function Closed(childs: seq<Reader>): seq<Reader> {
    CloseFrom(childs, |childs|, 0)
  }

  lemma FindIs(s: seq<Reader>, x: Reader, k: nat)
    requires k <= |s| && (k < |s| ==> s[k] == x)
    requires forall j :: 0 <= j < k ==> s[j] != x
    ensures Find(s, x) == k
  {
  }

  /** Takes a reader off the list, in place. */
  method RemoveChild(b: array<Reader>, l: nat, x: Reader) returns (l': nat)
    requires l <= b.Length
    modifies b
    ensures var k := Find(old(b[..])[..l], x);
            if k == l then l' == l && b[..] == old(b[..]) else l' == l - 1 && b[..] == CutOut(old(b[..]), l, k)
  {
    var i := 0;
    while i < l && b[i] != x
      invariant 0 <= i <= l && b[..] == old(b[..])
      invariant forall j :: 0 <= j < i ==> b[j] != x
    {
      i := i + 1;
    }
    ghost var was := b[..];
    FindIs(was[..l], x, i);
    if i == l {
      return l;
    }
    forall j | i <= j < l - 1 {
      b[j] := b[j + 1];
    }
    forall j | 0 <= j < b.Length ensures b[..][j] == CutOut(was, l, i)[j] {
      CutOutAt(was, l, i, j);
      assert was[j] == old(b[j]) && (j + 1 < b.Length ==> was[j + 1] == old(b[j + 1]));
    }
    assert b[..] == CutOut(was, l, i);
    l' := l - 1;
  }

  /** Closes a track: the readers are visited by their places at the beginning, while
      each that is found moves those behind it up. */
  method CloseInPlace(b: array<Reader>) returns (l: nat)
    modifies b
    ensures l <= b.Length && b[..l] == Closed(old(b[..]))
  {
    l := b.Length;
    for i := 0 to b.Length
      invariant l <= b.Length
      invariant CloseFrom(b[..], l, i) == Closed(old(b[..]))
    {
      ghost var before := b[..];
      assert before[i] == b[i];
      l := RemoveChild(b, l, b[i]);
    }
    assert b[..][..l] == b[..l];
  }

  method CloseChilds(childs: seq<Reader>) returns (r: seq<Reader>)
    ensures r == Closed(childs)
  {
    var b := new Reader[|childs|](i requires 0 <= i < |childs| => childs[i]);
    assert b[..] == childs;
    var l := CloseInPlace(b);
    r := b[..l];
  }

  // ------------------------------------------------------------- what is left behind

  ghost predicate NoRepeat(s: seq<Reader>) {
    forall i, j :: 0 <= i < j < |s| ==> s[i] != s[j]
  }

  /** Every second reader, but for the last one. */
  function Spared(childs: seq<Reader>): seq<Reader> {
    if |childs| <= 2 then [] else [childs[1]] + Spared(childs[2..])
  }

  /** Places that hold nobody of the list change nothing. */
  lemma {:induction false} NothingFound(b: seq<Reader>, l: nat, i: nat)
    requires l <= |b| && forall j :: i <= j < |b| ==> b[j] !in b[..l]
    ensures CloseFrom(b, l, i) == b[..l]
    decreases |b| - i
  {
    if i < |b| {
      NothingFound(b, l, i + 1);
    }
  }

  /** Where the loop stands: the list is `kept`, which is behind it, and `rest`, and after
      the list come copies of its last element. */
  ghost predicate Standing(b: seq<Reader>, l: nat, kept: seq<Reader>, rest: seq<Reader>) {
    && rest != [] && NoRepeat(kept + rest)
    && l <= |b| && b[..l] == kept + rest
    && forall j :: l <= j < |b| ==> b[j] == rest[|rest| - 1]
  }

  lemma FindAt(s: seq<Reader>, k: nat)
    requires k < |s| && NoRepeat(s)
    ensures Find(s, s[k]) == k
  {
    FindIs(s, s[k], k);
  }

  /** The next reader is cut out. */
  lemma NextCutOut(b: seq<Reader>, l: nat, kept: seq<Reader>, rest: seq<Reader>)
    requires Standing(b, l, kept, rest)
    ensures |kept| < l && Find(b[..l], b[|kept|]) == |kept|
    ensures var b' := CutOut(b, l, |kept|);
            && b'[..l - 1] == kept + rest[1..]
            && forall j :: l - 1 <= j < |b| ==> b'[j] == rest[|rest| - 1]
  {
    var i, live := |kept|, kept + rest;
    assert b[i] == live[i];
    FindAt(live, i);
    var b' := CutOut(b, l, i);
    forall j | 0 <= j < |b|
      ensures b'[j] == if i <= j < l - 1 then b[j + 1] else b[j]
    {
      CutOutAt(b, l, i, j);
    }
    forall j | 0 <= j < l - 1
      ensures b'[..l - 1][j] == (kept + rest[1..])[j]
    {
      assert b'[j] == live[if i <= j then j + 1 else j];
    }
    assert b[l - 1] == live[l - 1] == rest[|rest| - 1];
  }

  lemma LastIsNew(kept: seq<Reader>, rest: seq<Reader>)
    requires rest != [] && NoRepeat(kept + rest)
    ensures rest[|rest| - 1] !in kept
  {
    var s, n := kept + rest, |kept| + |rest| - 1;
    assert s[n] == rest[|rest| - 1];
    forall i | 0 <= i < |kept|
      ensures kept[i] != rest[|rest| - 1]
    {
      assert s[i] == kept[i];
    }
  }

  /** The last reader goes. */
  lemma LastOneGoes(b: seq<Reader>, l: nat, kept: seq<Reader>, rest: seq<Reader>)
    requires Standing(b, l, kept, rest) && |rest| == 1
    ensures CloseFrom(b, l, |kept|) == kept
  {
    var n := |kept|;
    NextCutOut(b, l, kept, rest);
    LastIsNew(kept, rest);
    var b' := CutOut(b, l, n);
    assert b'[..n] == kept;
    NothingFound(b', n, n + 1);
  }

  /** So do the last two: the second is found again in the place behind the list. */
  lemma LastTwoGo(b: seq<Reader>, l: nat, kept: seq<Reader>, rest: seq<Reader>)
    requires Standing(b, l, kept, rest) && |rest| == 2
    ensures CloseFrom(b, l, |kept|) == kept
  {
    var n, last := |kept|, rest[1];
    NextCutOut(b, l, kept, rest);
    LastIsNew(kept, rest);
    var b' := CutOut(b, l, n);
    assert b'[..n + 1] == kept + [last];
    assert b'[n + 1] == last == (kept + [last])[n];
    FindLast(kept, last);
    var b'' := CutOut(b', n + 1, n);
    forall j | 0 <= j < |b|
      ensures b''[j] == b'[j]
    {
      CutOutAt(b', n + 1, n, j);
    }
    assert b''[..n] == b'[..n + 1][..n] == kept;
    NothingFound(b'', n, n + 2);
  }

  lemma {:induction false} FindLast(kept: seq<Reader>, x: Reader)
    requires x !in kept
    ensures Find(kept + [x], x) == |kept|
  {
    FindIs(kept + [x], x, |kept|);
  }

  /** One turn cuts a reader out and passes the next one by. */
  lemma OneTurn(b: seq<Reader>, l: nat, kept: seq<Reader>, rest: seq<Reader>)
    requires Standing(b, l, kept, rest) && |rest| > 2
    ensures |kept| < l && Standing(CutOut(b, l, |kept|), l - 1, kept + [rest[1]], rest[2..])
    ensures CloseFrom(b, l, |kept|) == CloseFrom(CutOut(b, l, |kept|), l - 1, |kept| + 1)
  {
    NextCutOut(b, l, kept, rest);
    assert kept + rest[1..] == kept + [rest[1]] + rest[2..];
    NoRepeatWithout(kept, rest);
  }

  lemma {:induction false} CloseRest(b: seq<Reader>, l: nat, kept: seq<Reader>, rest: seq<Reader>)
    requires Standing(b, l, kept, rest)
    ensures CloseFrom(b, l, |kept|) == kept + Spared(rest)
    decreases |rest|
  {
    if |rest| == 1 {
      LastOneGoes(b, l, kept, rest);
    } else if |rest| == 2 {
      LastTwoGo(b, l, kept, rest);
    } else {
      OneTurn(b, l, kept, rest);
      CloseRest(CutOut(b, l, |kept|), l - 1, kept + [rest[1]], rest[2..]);
      Regroup(kept, [rest[1]], Spared(rest[2..]));
    }
  }

  lemma NoRepeatWithout(kept: seq<Reader>, rest: seq<Reader>)
    requires |rest| > 2 && NoRepeat(kept + rest)
    ensures NoRepeat(kept + [rest[1]] + rest[2..])
  {
    var a, b := kept + rest, kept + [rest[1]] + rest[2..];
    forall i | 0 <= i < |b|
      ensures b[i] == a[if i < |kept| then i else i + 1]
    {
    }
  }

  /** Closing a track with different readers does not detach all of them: every second
      one stays, but for the last. */
  lemma ClosedIsSpared(childs: seq<Reader>)
    requires NoRepeat(childs)
    ensures Closed(childs) == Spared(childs)
  {
    if childs != [] {
      assert [] + childs == childs == childs[..|childs|];
      CloseRest(childs, |childs|, [], childs);
    }
  }

  lemma {:induction false} SparedAt(childs: seq<Reader>, k: nat)
    requires NoRepeat(childs) && k < |childs|
    ensures childs[k] in Spared(childs) <==> k % 2 == 1 && k < |childs| - 1
    decreases |childs|
  {
    if |childs| > 2 {
      var rest := childs[2..];
      SparedAreThere(rest);
      if k >= 2 {
        SparedAt(rest, k - 2);
        assert rest[k - 2] == childs[k];
      }
      assert forall j :: 0 <= j < |rest| ==> rest[j] == childs[j + 2];
    }
  }

  lemma {:induction false} SparedAreThere(childs: seq<Reader>)
    ensures forall r :: r in Spared(childs) ==> r in childs
    decreases |childs|
  {
    if |childs| > 2 {
      SparedAreThere(childs[2..]);
    }
  }

  /** The reader at place `k` outlives the closing of its track exactly when `k` is odd
      and not the last place; so all are detached exactly when there are at most two. */
  lemma OutlivesIff(childs: seq<Reader>, k: nat)
    requires NoRepeat(childs) && k < |childs|
    ensures childs[k] in Closed(childs) <==> k % 2 == 1 && k < |childs| - 1
    ensures Closed(childs) == [] <==> |childs| <= 2
  {
    ClosedIsSpared(childs);
    SparedAt(childs, k);
  }

  /** Nobody is added. */
  lemma ClosedAreThere(childs: seq<Reader>)
    requires NoRepeat(childs)
    ensures forall r :: r in Closed(childs) ==> r in childs
    ensures childs != [] ==> childs[0] !in Closed(childs)
  {
    ClosedIsSpared(childs);
    SparedAreThere(childs);
    if childs != [] {
      SparedAt(childs, 0);
    }
  }

  // ----------------------------------------------------------------- many tracks

  function CloseOne(nodes: Nodes, t: Track): Nodes {
    nodes[t := Closed(Childs(nodes, t))]
  }

  /** Closes the tracks of a connection, one after the other. */
  function CloseTracks(nodes: Nodes, tracks: seq<Track>): Nodes
    decreases |tracks|
  {
    if tracks == [] then nodes else CloseOne(CloseTracks(nodes, tracks[..|tracks| - 1]), tracks[|tracks| - 1])
  }

  method CloseAll(nodes: Nodes, tracks: seq<Track>) returns (r: Nodes)
    ensures r == CloseTracks(nodes, tracks)
  {
    r := nodes;
    for i := 0 to |tracks|
      invariant r == CloseTracks(nodes, tracks[..i])
    {
      assert tracks[..i + 1][..i] == tracks[..i];
      var childs := CloseChilds(Childs(r, tracks[i]));
      r := r[tracks[i] := childs];
    }
    assert tracks[..|tracks|] == tracks;
  }

  ghost predicate NoRepeats(nodes: Nodes) {
    forall t :: t in nodes ==> NoRepeat(nodes[t])
  }

  lemma {:induction false} NoRepeatSpared(childs: seq<Reader>)
    requires NoRepeat(childs)
    ensures NoRepeat(Spared(childs))
    decreases |childs|
  {
    if |childs| > 2 {
      var rest := childs[2..];
      NoRepeatSpared(rest);
      SparedAreThere(rest);
      forall j | 0 <= j < |rest|
        ensures rest[j] != childs[1]
      {
        assert rest[j] == childs[j + 2];
      }
      var spared := Spared(rest);
      assert childs[1] !in spared;
      assert forall j :: 0 <= j < |spared| ==> spared[j] in spared;
    }
  }

  /** Closing tracks leaves other tracks alone, and takes the first reader at least off
      each that has any. */
  lemma {:induction false} CloseTracksAt(nodes: Nodes, tracks: seq<Track>, t: Track)
    requires NoRepeats(nodes)
    ensures NoRepeats(CloseTracks(nodes, tracks))
    ensures t !in tracks ==> Childs(CloseTracks(nodes, tracks), t) == Childs(nodes, t)
    ensures forall r :: r in Childs(CloseTracks(nodes, tracks), t) ==> r in Childs(nodes, t)
    ensures t in tracks && Childs(nodes, t) != [] ==> Childs(nodes, t)[0] !in Childs(CloseTracks(nodes, tracks), t)
    decreases |tracks|
  {
    if tracks != [] {
      var n := |tracks| - 1;
      var before, last := CloseTracks(nodes, tracks[..n]), tracks[n];
      CloseTracksAt(nodes, tracks[..n], t);
      ClosedIsSpared(Childs(before, last));
      ClosedAreThere(Childs(before, last));
      NoRepeatSpared(Childs(before, last));
      if t == last && Childs(nodes, t) != [] && t !in tracks[..n] {
        assert Childs(before, t) == Childs(nodes, t);
      }
    }
  }

  /** Of tracks that are listed once, each is closed once. */
  lemma {:induction false} CloseTracksOnce(nodes: Nodes, tracks: seq<Track>, t: Track)
    requires forall i, j :: 0 <= i < j < |tracks| ==> tracks[i] != tracks[j]
    ensures Childs(CloseTracks(nodes, tracks), t) ==
            if t in tracks then Closed(Childs(nodes, t)) else Childs(nodes, t)
    decreases |tracks|
  {
    if tracks != [] {
      var n := |tracks| - 1;
      CloseTracksOnce(nodes, tracks[..n], t);
      assert tracks[n] !in tracks[..n];
    } else {
      assert t !in tracks;
    }
  }
}
