/** Fitting a media of a producer to a media of a consumer. */
module Medias {
  import opened Wrappers
  import opened Tracks

  /** The kinds are the same, and a one-way media meets its opposite. */
  predicate Opposite(m: Media, remote: Media) {
    && m.kind == remote.kind
    && (m.direction.Sendonly? ==> remote.direction.Recvonly?)
    && (m.direction.Recvonly? ==> remote.direction.Sendonly?)
  }

  /** Codec `c` with the first of the remote codecs that it matches. */
  function PairFor(c: Codec, remotes: seq<Codec>): Option<(Codec, Codec)> {
    if remotes == [] then None
    else if Matches(c, remotes[0]) then Some((c, remotes[0]))
    else PairFor(c, remotes[1..])
  }

  /** The first codec that has such a pair. */
  function FirstPair(codecs: seq<Codec>, remotes: seq<Codec>): Option<(Codec, Codec)> {
    if codecs == [] then None
    else if PairFor(codecs[0], remotes).Some? then PairFor(codecs[0], remotes)
    else FirstPair(codecs[1..], remotes)
  }

  function MatchMedia(m: Media, remote: Media): Option<(Codec, Codec)> {
    if Opposite(m, remote) then FirstPair(m.codecs, remote.codecs) else None
  }

  /** The media takes whatever codec there is. */
  predicate MatchAll(m: Media) {
    exists i :: 0 <= i < |m.codecs| && m.codecs[i].name == "ALL"
  }

  lemma {:induction false} PairForIff(c: Codec, remotes: seq<Codec>)
    ensures PairFor(c, remotes).Some? <==> exists j :: 0 <= j < |remotes| && Matches(c, remotes[j])
    ensures PairFor(c, remotes).Some? ==>
              exists j :: 0 <= j < |remotes| && PairFor(c, remotes).value == (c, remotes[j])
                          && Matches(c, remotes[j]) && forall l :: 0 <= l < j ==> !Matches(c, remotes[l])
  {
    if remotes != [] {
      PairForIff(c, remotes[1..]);
      if Matches(c, remotes[0]) {
        assert PairFor(c, remotes).value == (c, remotes[0]);
      } else if PairFor(c, remotes).Some? {
        var j :| 0 <= j < |remotes[1..]| && PairFor(c, remotes).value == (c, remotes[1..][j])
                 && Matches(c, remotes[1..][j]) && forall l :: 0 <= l < j ==> !Matches(c, remotes[1..][l]);
        assert remotes[j + 1] == remotes[1..][j];
        assert forall l :: 1 <= l < j + 1 ==> remotes[l] == remotes[1..][l - 1];
      } else {
        assert forall j :: 1 <= j < |remotes| ==> remotes[j] == remotes[1..][j - 1];
      }
    }
  }

  ghost predicate Fits(codecs: seq<Codec>, remotes: seq<Codec>, i: nat)
    requires i < |codecs|
  {
    exists j :: 0 <= j < |remotes| && Matches(codecs[i], remotes[j])
  }

  lemma {:induction false} FirstPairIff(codecs: seq<Codec>, remotes: seq<Codec>)
    ensures FirstPair(codecs, remotes).Some? <==> exists i :: 0 <= i < |codecs| && Fits(codecs, remotes, i)
    ensures FirstPair(codecs, remotes).Some? ==>
              exists i :: 0 <= i < |codecs| && FirstPair(codecs, remotes) == PairFor(codecs[i], remotes)
                          && forall l :: 0 <= l < i ==> !Fits(codecs, remotes, l)
  {
    if codecs != [] {
      var rest := codecs[1..];
      FirstPairIff(rest, remotes);
      PairForIff(codecs[0], remotes);
      assert forall i :: 0 <= i < |rest| ==> (Fits(rest, remotes, i) <==> Fits(codecs, remotes, i + 1));
      if Fits(codecs, remotes, 0) {
      } else if FirstPair(codecs, remotes).Some? {
        var i :| 0 <= i < |rest| && FirstPair(rest, remotes) == PairFor(rest[i], remotes)
                 && forall l :: 0 <= l < i ==> !Fits(rest, remotes, l);
        assert FirstPair(codecs, remotes) == PairFor(codecs[i + 1], remotes);
        assert forall l :: 1 <= l < i + 1 ==> (Fits(codecs, remotes, l) <==> Fits(rest, remotes, l - 1));
      } else {
        assert forall i :: 1 <= i < |codecs| ==> (Fits(codecs, remotes, i) <==> Fits(rest, remotes, i - 1));
      }
    }
  }

  /** Two medias fit exactly when they are opposite and some codec of the one matches some
      codec of the other; of the producer's codecs that do, the first is taken, with the
      first of the consumer's that it matches. */
  lemma MatchMediaIff(m: Media, remote: Media)
    ensures MatchMedia(m, remote).Some? <==>
            Opposite(m, remote) && exists i :: 0 <= i < |m.codecs| && Fits(m.codecs, remote.codecs, i)
    ensures MatchMedia(m, remote).Some? ==>
              exists i, j :: 0 <= i < |m.codecs| && 0 <= j < |remote.codecs|
                             && MatchMedia(m, remote).value == (m.codecs[i], remote.codecs[j])
                             && Matches(m.codecs[i], remote.codecs[j])
                             && (forall l :: 0 <= l < i ==> !Fits(m.codecs, remote.codecs, l))
                             && (forall l :: 0 <= l < j ==> !Matches(m.codecs[i], remote.codecs[l]))
  {
    FirstPairIff(m.codecs, remote.codecs);
    if MatchMedia(m, remote).Some? {
      var i :| 0 <= i < |m.codecs| && FirstPair(m.codecs, remote.codecs) == PairFor(m.codecs[i], remote.codecs)
               && forall l :: 0 <= l < i ==> !Fits(m.codecs, remote.codecs, l);
      PairForIff(m.codecs[i], remote.codecs);
    }
  }

  method FindPair(m: Media, remote: Media) returns (pair: Option<(Codec, Codec)>)
    ensures pair == MatchMedia(m, remote)
  {
    if m.kind != remote.kind
       || (m.direction == Sendonly && remote.direction != Recvonly)
       || (m.direction == Recvonly && remote.direction != Sendonly) {
      return None;
    }
    for i := 0 to |m.codecs|
      invariant FirstPair(m.codecs, remote.codecs) == FirstPair(m.codecs[i..], remote.codecs)
    {
      for j := 0 to |remote.codecs|
        invariant PairFor(m.codecs[i], remote.codecs) == PairFor(m.codecs[i], remote.codecs[j..])
      {
        if Matches(m.codecs[i], remote.codecs[j]) {
          return Some((m.codecs[i], remote.codecs[j]));
        }
        assert remote.codecs[j..][1..] == remote.codecs[j + 1..];
      }
      assert m.codecs[i..][1..] == m.codecs[i + 1..];
    }
    return None;
  }

  method TakesAll(m: Media) returns (all: bool)
    ensures all == MatchAll(m)
  {
    for i := 0 to |m.codecs|
      invariant forall j :: 0 <= j < i ==> m.codecs[j].name != "ALL"
    {
      if m.codecs[i].name == "ALL" {
        return true;
      }
    }
    return false;
  }
}
