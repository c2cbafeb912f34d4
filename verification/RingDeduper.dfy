/** Suppressing the second report of one physical doorbell press. The code takes a press for
    a duplicate when it comes less than the window after the last one dispatched; the comment
    on it speaks of the most recent press. */
module RingDeduper {
  /** A press of one camera's button, with its time. */
  datatype Press = Press(camera: string, at: int)

  type Rings = map<string, int>

  predicate Dispatches(last: Rings, window: int, p: Press) {
    !(p.camera in last && p.at - last[p.camera] < window)
  }

  function After(last: Rings, window: int, p: Press): Rings {
    if Dispatches(last, window, p) then last[p.camera := p.at] else last
  }

  /** The presses that are dispatched when `ps` arrive in this order. */
  function Dispatched(last: Rings, window: int, ps: seq<Press>): seq<Press>
    decreases |ps|
  {
    if ps == [] then []
    else
      var rest := Dispatched(After(last, window, ps[0]), window, ps[1..]);
      if Dispatches(last, window, ps[0]) then [ps[0]] + rest else rest
  }

  /** The presses of one camera. */
  function Of(camera: string, ps: seq<Press>): seq<Press> {
    if ps == [] then []
    else if ps[0].camera == camera then [ps[0]] + Of(camera, ps[1..])
    else Of(camera, ps[1..])
  }

  /** Each press comes at least the window after the one before it. */
  ghost predicate Spaced(ps: seq<Press>, window: int) {
    forall i :: 0 <= i < |ps| - 1 ==> ps[i].at + window <= ps[i + 1].at
  }

  /** The first of `ps` comes at least the window after the last dispatched press. */
  ghost predicate Begins(last: Rings, window: int, camera: string, ps: seq<Press>) {
    ps != [] && camera in last ==> last[camera] + window <= ps[0].at
  }

  lemma {:induction false} DispatchedSpacedFrom(last: Rings, window: int, ps: seq<Press>, camera: string)
    ensures Spaced(Of(camera, Dispatched(last, window, ps)), window)
    ensures Begins(last, window, camera, Of(camera, Dispatched(last, window, ps)))
    decreases |ps|
  {
    if ps != [] {
      var last' := After(last, window, ps[0]);
      DispatchedSpacedFrom(last', window, ps[1..], camera);
      var rest := Dispatched(last', window, ps[1..]);
      if Dispatches(last, window, ps[0]) {
        assert Dispatched(last, window, ps)[1..] == rest;
      }
    }
  }

  /** In any order of arrival, the dispatched presses of one camera are at least the
      window apart; with a positive window their times increase. */
  lemma DispatchedAreSpaced(window: int, ps: seq<Press>, camera: string)
    ensures Spaced(Of(camera, Dispatched(map[], window, ps)), window)
  {
    DispatchedSpacedFrom(map[], window, ps, camera);
  }

  /** Cameras do not affect each other: the dispatched presses of a camera are those
      that would be dispatched if no other camera existed. */
  lemma {:induction false} CamerasAreIndependent(last: Rings, other: Rings, window: int, ps: seq<Press>, camera: string)
    requires (camera in last <==> camera in other) && (camera in last ==> last[camera] == other[camera])
    ensures Of(camera, Dispatched(last, window, ps)) == Dispatched(other, window, Of(camera, ps))
    decreases |ps|
  {
    if ps != [] {
      var p, rest := ps[0], ps[1..];
      var last' := After(last, window, p);
      if p.camera == camera {
        CamerasAreIndependent(last', After(other, window, p), window, rest, camera);
        assert Of(camera, ps)[1..] == Of(camera, rest);
      } else {
        CamerasAreIndependent(last', other, window, rest, camera);
      }
      if Dispatches(last, window, p) {
        assert ([p] + Dispatched(last', window, rest))[1..] == Dispatched(last', window, rest);
      }
    }
  }

  // --------------------------------------------------------------------- optimality

  /** `s` picks some of `ps`, in order. */
  ghost predicate Picks(s: seq<Press>, ps: seq<Press>) {
    if s == [] then true
    else if ps == [] then false
    else (s[0] == ps[0] && Picks(s[1..], ps[1..])) || Picks(s, ps[1..])
  }

  ghost predicate InOrder(ps: seq<Press>) {
    forall i, j :: 0 <= i < j < |ps| ==> ps[i].at <= ps[j].at
  }

  ghost predicate OneCamera(camera: string, ps: seq<Press>) {
    forall i :: 0 <= i < |ps| ==> ps[i].camera == camera
  }

  lemma {:induction false} PicksTail(s: seq<Press>, ps: seq<Press>)
    requires s != [] && Picks(s, ps)
    ensures Picks(s[1..], ps)
    decreases |ps|
  {
    if !(s[0] == ps[0] && Picks(s[1..], ps[1..])) {
      PicksTail(s, ps[1..]);
    }
  }

  lemma {:induction false} PickedIsThere(s: seq<Press>, ps: seq<Press>)
    requires s != [] && Picks(s, ps)
    ensures s[0] in ps
    decreases |ps|
  {
    if !(s[0] == ps[0] && Picks(s[1..], ps[1..])) {
      PickedIsThere(s, ps[1..]);
    }
  }

  /** Staying ahead: for presses in order of time, no spaced choice that begins late
      enough is longer than what is dispatched. */
  lemma {:induction false} StaysAhead(last: Rings, window: int, ps: seq<Press>, camera: string, s: seq<Press>)
    requires window >= 0 && InOrder(ps) && OneCamera(camera, ps)
    requires Picks(s, ps) && Spaced(s, window) && Begins(last, window, camera, s)
    ensures |s| <= |Dispatched(last, window, ps)|
    decreases |ps|
  {
    if s != [] {
      var p, rest := ps[0], ps[1..];
      assert p.camera == camera;
      assert InOrder(rest) && OneCamera(camera, rest);
      var last' := After(last, window, p);
      if Dispatches(last, window, p) {
        var tail := s[1..];
        PicksTail(s, ps);
        if tail != [] {
          PickedIsThere(s, ps);
          assert p.at <= s[0].at;
          if !(s[0] == p && Picks(tail, rest)) {
            PicksTail(s, rest);
          }
        }
        assert Picks(tail, rest);
        StaysAhead(last', window, rest, camera, tail);
      } else {
        StaysAhead(last', window, rest, camera, s);
      }
    }
  }

  lemma {:induction false} DispatchedPicks(last: Rings, window: int, ps: seq<Press>)
    ensures Picks(Dispatched(last, window, ps), ps)
    decreases |ps|
  {
    if ps != [] {
      DispatchedPicks(After(last, window, ps[0]), window, ps[1..]);
      var rest := Dispatched(After(last, window, ps[0]), window, ps[1..]);
      assert ([ps[0]] + rest)[1..] == rest;
    }
  }

  /** For presses of a camera that arrive in order of time, what is dispatched is
      itself a choice spaced by the window, and no such choice is larger. */
  lemma DispatchesTheMost(window: int, ps: seq<Press>, camera: string, s: seq<Press>)
    requires window >= 0 && InOrder(ps) && OneCamera(camera, ps)
    ensures Picks(Dispatched(map[], window, ps), ps) && Spaced(Dispatched(map[], window, ps), window)
    ensures Picks(s, ps) && Spaced(s, window) ==> |s| <= |Dispatched(map[], window, ps)|
  {
    DispatchedPicks(map[], window, ps);
    DispatchedAreSpaced(window, ps, camera);
    AllOfOne(map[], window, ps, camera);
    if Picks(s, ps) && Spaced(s, window) {
      StaysAhead(map[], window, ps, camera, s);
    }
  }

  lemma {:induction false} AllOfOne(last: Rings, window: int, ps: seq<Press>, camera: string)
    requires OneCamera(camera, ps)
    ensures Of(camera, Dispatched(last, window, ps)) == Dispatched(last, window, ps)
    decreases |ps|
  {
    if ps != [] {
      var last' := After(last, window, ps[0]);
      assert OneCamera(camera, ps[1..]) && ps[0].camera == camera;
      AllOfOne(last', window, ps[1..], camera);
      var rest := Dispatched(last', window, ps[1..]);
      assert ([ps[0]] + rest)[1..] == rest;
    }
  }

  // ------------------------------------------------------------ presses out of order

  /** What is remembered after a run. */
  function StateAfter(last: Rings, window: int, ps: seq<Press>): Rings {
    if ps == [] then last else After(StateAfter(last, window, ps[..|ps| - 1]), window, ps[|ps| - 1])
  }

  /** Press number `j` of a run is dispatched. */
  predicate DispatchedAt(last: Rings, window: int, ps: seq<Press>, j: nat)
    requires j < |ps|
  {
    Dispatches(StateAfter(last, window, ps[..j]), window, ps[j])
  }

  lemma {:induction false} StateAfterFirst(last: Rings, window: int, ps: seq<Press>)
    requires ps != []
    ensures StateAfter(last, window, ps) == StateAfter(After(last, window, ps[0]), window, ps[1..])
    decreases |ps|
  {
    var n := |ps| - 1;
    if n == 0 {
      assert ps[..0] == [] && ps[1..] == [];
    } else {
      StateAfterFirst(last, window, ps[..n]);
      assert ps[..n][1..] == ps[1..][..n - 1];
    }
  }

  /** What is dispatched grows by a press exactly when that press is dispatched. */
  lemma {:induction false} DispatchedSnoc(last: Rings, window: int, ps: seq<Press>, p: Press)
    ensures Dispatched(last, window, ps + [p]) ==
            Dispatched(last, window, ps) + if Dispatches(StateAfter(last, window, ps), window, p) then [p] else []
    decreases |ps|
  {
    if ps == [] {
      assert [] + [p] == [p] && [p][1..] == [];
      assert Dispatched(After(last, window, p), window, []) == [];
    } else {
      assert (ps + [p])[1..] == ps[1..] + [p];
      DispatchedSnoc(After(last, window, ps[0]), window, ps[1..], p);
      StateAfterFirst(last, window, ps);
    }
  }

  /** Any press of a camera so far is earlier than the window after the time remembered for
      it, or not after it, as every one is that was dispatched. */
  lemma {:induction false} Remembered(last: Rings, window: int, ps: seq<Press>, i: nat)
    requires window >= 0 && i < |ps|
    ensures var now := StateAfter(last, window, ps);
            && ps[i].camera in now && (ps[i].at < now[ps[i].camera] + window || ps[i].at <= now[ps[i].camera])
            && (DispatchedAt(last, window, ps, i) ==> ps[i].at <= now[ps[i].camera])
    decreases |ps|
  {
    var n := |ps| - 1;
    if i < n {
      Remembered(last, window, ps[..n], i);
      assert ps[..n][..i] == ps[..i] && ps[..n][i] == ps[i];
    }
  }

  /** And it is the time of a press that was dispatched. */
  lemma {:induction false} RememberedIsDispatched(window: int, ps: seq<Press>, camera: string) returns (i: nat)
    requires camera in StateAfter(map[], window, ps)
    ensures i < |ps| && ps[i].camera == camera && DispatchedAt(map[], window, ps, i)
    ensures ps[i].at == StateAfter(map[], window, ps)[camera]
    decreases |ps|
  {
    var n := |ps| - 1;
    var before := StateAfter(map[], window, ps[..n]);
    if ps[n].camera == camera && Dispatches(before, window, ps[n]) {
      i := n;
    } else {
      i := RememberedIsDispatched(window, ps[..n], camera);
      assert ps[..n][..i] == ps[..i] && ps[..n][i] == ps[i];
    }
  }

  /** A press that is reported after a later one of its camera is never dispatched, however
      far apart the two are. */
  lemma LateIsSuppressed(last: Rings, window: int, ps: seq<Press>, i: nat, j: nat)
    requires window > 0 && i < j < |ps| && ps[i].camera == ps[j].camera && ps[j].at <= ps[i].at
    ensures !DispatchedAt(last, window, ps, j)
  {
    Remembered(last, window, ps[..j], i);
  }

  /** In any run, a press is suppressed exactly when it is earlier than the window after
      some press of its camera that was dispatched before it. */
  lemma SuppressedIff(window: int, ps: seq<Press>, j: nat)
    requires window >= 0 && j < |ps|
    ensures !DispatchedAt(map[], window, ps, j) <==>
            exists i :: 0 <= i < j && ps[i].camera == ps[j].camera && DispatchedAt(map[], window, ps, i)
                        && ps[j].at < ps[i].at + window
  {
    if !DispatchedAt(map[], window, ps, j) {
      var i := RememberedIsDispatched(window, ps[..j], ps[j].camera);
      assert ps[..j][..i] == ps[..i];
      assert DispatchedAt(map[], window, ps, i);
    }
    forall i | 0 <= i < j && ps[i].camera == ps[j].camera && DispatchedAt(map[], window, ps, i)
               && ps[j].at < ps[i].at + window
      ensures !DispatchedAt(map[], window, ps, j)
    {
      assert ps[..j][..i] == ps[..i];
      Remembered(map[], window, ps[..j], i);
    }
  }

  /** No press of the same camera that was reported before press `j` is within the window
      of it. */
  ghost predicate Alone(window: int, ps: seq<Press>, j: nat)
    requires j < |ps|
  {
    forall i :: 0 <= i < j && ps[i].camera == ps[j].camera ==>
      ps[i].at + window <= ps[j].at || ps[j].at + window <= ps[i].at
  }

  /** A press without a duplicate is lost exactly when a later press of its camera was
      reported before it. */
  lemma LostIff(window: int, ps: seq<Press>, j: nat)
    requires window >= 0 && j < |ps| && Alone(window, ps, j)
    ensures !DispatchedAt(map[], window, ps, j) <==>
            exists i :: 0 <= i < j && ps[i].camera == ps[j].camera && ps[j].at < ps[i].at
  {
    SuppressedIff(window, ps, j);
    forall i | 0 <= i < j && ps[i].camera == ps[j].camera && ps[j].at < ps[i].at
      ensures !DispatchedAt(map[], window, ps, j)
    {
      Remembered(map[], window, ps[..j], i);
    }
  }

  // -------------------------------------------- the rule as the comment has it

  /** The most recent press of a camera, and the first of its chain: the presses since
      then came each within the window of the one before. */
  datatype Chain = Chain(recent: int, head: int)

  type Chains = map<string, Chain>

  /** Suppressed is what comes within the window of the most recent press, dispatched or
      not. */
  predicate Breaks(chains: Chains, window: int, p: Press) {
    !(p.camera in chains && p.at - chains[p.camera].recent < window)
  }

  function Extended(chains: Chains, window: int, p: Press): Chains {
    chains[p.camera := Chain(p.at, if Breaks(chains, window, p) then p.at else chains[p.camera].head)]
  }

  function ChainsAfter(window: int, ps: seq<Press>): Chains {
    if ps == [] then map[] else Extended(ChainsAfter(window, ps[..|ps| - 1]), window, ps[|ps| - 1])
  }

  /** Both rules decide alike on press number `j`. */
  ghost predicate AgreeAt(window: int, ps: seq<Press>, j: nat)
    requires j < |ps|
  {
    DispatchedAt(map[], window, ps, j) == Breaks(ChainsAfter(window, ps[..j]), window, ps[j])
  }

  /** Press number `j` is within the window of the most recent press of its camera exactly
      when it is within the window of the first of that chain. */
  predicate NearBothOrNone(window: int, ps: seq<Press>, j: nat)
    requires j < |ps|
  {
    var chains := ChainsAfter(window, ps[..j]);
    ps[j].camera in chains ==>
      (ps[j].at - chains[ps[j].camera].recent < window <==> ps[j].at - chains[ps[j].camera].head < window)
  }

  /** The code remembers the heads of the chains. */
  ghost predicate SameHeads(last: Rings, chains: Chains) {
    && last.Keys == chains.Keys
    && forall camera :: camera in last ==> last[camera] == chains[camera].head
  }

  lemma {:induction false} HeadsAreRemembered(window: int, ps: seq<Press>)
    requires forall j :: 0 <= j < |ps| ==> AgreeAt(window, ps, j)
    ensures SameHeads(StateAfter(map[], window, ps), ChainsAfter(window, ps))
    decreases |ps|
  {
    if ps != [] {
      var n := |ps| - 1;
      forall j | 0 <= j < n
        ensures AgreeAt(window, ps[..n], j)
      {
        assert ps[..n][..j] == ps[..j];
        assert AgreeAt(window, ps, j);
      }
      HeadsAreRemembered(window, ps[..n]);
      assert AgreeAt(window, ps, n);
    }
  }

  lemma {:induction false} AgreeUpTo(window: int, ps: seq<Press>, n: nat)
    requires n <= |ps| && forall j :: 0 <= j < |ps| ==> NearBothOrNone(window, ps, j)
    ensures forall j :: 0 <= j < n ==> AgreeAt(window, ps, j)
    decreases n
  {
    if n != 0 {
      AgreeUpTo(window, ps, n - 1);
      PrefixAgrees(window, ps, n - 1);
      HeadsAreRemembered(window, ps[..n - 1]);
      assert NearBothOrNone(window, ps, n - 1);
    }
  }

  lemma PrefixAgrees(window: int, ps: seq<Press>, n: nat)
    requires n <= |ps| && forall j :: 0 <= j < n ==> AgreeAt(window, ps, j)
    ensures forall j :: 0 <= j < n ==> AgreeAt(window, ps[..n], j)
  {
    forall j | 0 <= j < n
      ensures AgreeAt(window, ps[..n], j)
    {
      assert ps[..n][..j] == ps[..j];
      assert AgreeAt(window, ps, j);
    }
  }

  /** The code and the comment decide alike on every press of a run exactly when each press
      is near the most recent one and the first of its chain, or near neither. */
  lemma RulesAgreeIff(window: int, ps: seq<Press>)
    ensures (forall j :: 0 <= j < |ps| ==> AgreeAt(window, ps, j)) <==>
            forall j :: 0 <= j < |ps| ==> NearBothOrNone(window, ps, j)
  {
    if forall j :: 0 <= j < |ps| ==> AgreeAt(window, ps, j) {
      forall j | 0 <= j < |ps|
        ensures NearBothOrNone(window, ps, j)
      {
        PrefixAgrees(window, ps, j);
        HeadsAreRemembered(window, ps[..j]);
        assert AgreeAt(window, ps, j);
      }
    }
    if forall j :: 0 <= j < |ps| ==> NearBothOrNone(window, ps, j) {
      AgreeUpTo(window, ps, |ps|);
    }
  }

  /** Three presses, each within the window of the one before: the code dispatches the
      third, as it is a window after the first. */
  lemma ThirdOfChainIsDispatched(camera: string)
    ensures var ps := [Press(camera, 0), Press(camera, 6), Press(camera, 12)];
            && Dispatched(map[], 10, ps) == [ps[0], ps[2]]
            && !Breaks(ChainsAfter(10, ps[..2]), 10, ps[2])
  {
    var a, b, c := Press(camera, 0), Press(camera, 6), Press(camera, 12);
    DispatchedSnoc(map[], 10, [], a);
    DispatchedSnoc(map[], 10, [a], b);
    DispatchedSnoc(map[], 10, [a, b], c);
    assert [] + [a] == [a] && [a] + [b] == [a, b] && [a, b] + [c] == [a, b, c];
    assert [a, b][..1] == [a] && [a][..0] == [] && [a, b, c][..2] == [a, b];
    assert StateAfter(map[], 10, [a]) == map[camera := 0] == StateAfter(map[], 10, [a, b]);
    assert ChainsAfter(10, [a]) == map[camera := Chain(0, 0)];
    assert ChainsAfter(10, [a, b]) == map[camera := Chain(6, 0)];
  }

  // --------------------------------------------------------------------------- code

  class Deduper {
    const window: int
    var lastRingAt: Rings

    constructor (window: int)
      ensures this.window == window && lastRingAt == map[]
    {
      this.window, lastRingAt := window, map[];
    }

    method ShouldDispatch(camera: string, at: int) returns (dispatch: bool)
      modifies this
      ensures dispatch == Dispatches(old(lastRingAt), window, Press(camera, at))
      ensures lastRingAt == After(old(lastRingAt), window, Press(camera, at))
    {
      if camera in lastRingAt {
        var last := lastRingAt[camera];
        if at - last < window {
          return false;
        }
      }
      lastRingAt := lastRingAt[camera := at];
      return true;
    }
  }
}
