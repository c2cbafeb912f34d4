/** The in-memory log: a ring of chunks that is appended to in place and forgets its
    oldest chunk when it needs a seventeenth. */
module LogRing {
  import Bits
  import opened Seqs

  const CHUNK_COUNT := 16
  const CHUNK_SIZE := 65536

  type byte = Bits.byte

  // --------------------------------------------------------------- the log as groups

  /** What the ring stands for: the writes since the last reset, those that are
      forgotten first, then the ones still held, grouped by chunk. */
  datatype Log = Log(forgotten: seq<seq<byte>>, groups: seq<seq<seq<byte>>>)

  function Empty(): Log {
    Log([], [[]])
  }

  function Bytes(group: seq<seq<byte>>): seq<byte> {
    Concat(group)
  }

  /** A write goes to the last chunk, or to a new one if it does not fit; with
      sixteen chunks in use a new one pushes out the first. */
  function Written(l: Log, p: seq<byte>): Log
    requires l.groups != []
  {
    var n := |l.groups| - 1;
    if |Bytes(l.groups[n])| + |p| <= CHUNK_SIZE then
      l.(groups := l.groups[n := l.groups[n] + [p]])
    else if n + 1 < CHUNK_COUNT then
      l.(groups := l.groups + [[p]])
    else
      Log(l.forgotten + l.groups[0], l.groups[1..] + [[p]])
  }

  /** Opening a new chunk, and appending to the last one. */
  function Advanced(l: Log): Log
    requires l.groups != []
  {
    if |l.groups| < CHUNK_COUNT then l.(groups := l.groups + [[]])
    else Log(l.forgotten + l.groups[0], l.groups[1..] + [[]])
  }

  function Appended(l: Log, p: seq<byte>): Log
    requires l.groups != []
  {
    l.(groups := l.groups[|l.groups| - 1 := l.groups[|l.groups| - 1] + [p]])
  }

  lemma WrittenInSteps(l: Log, p: seq<byte>)
    requires l.groups != []
    ensures Written(l, p) == if |Bytes(l.groups[|l.groups| - 1])| + |p| <= CHUNK_SIZE then Appended(l, p)
                             else Appended(Advanced(l), p)
  {
    assert [] + [p] == [p];
    assert (l.groups + [[]])[|l.groups| := [p]] == l.groups + [[p]];
    assert (l.groups[1..] + [[]])[|l.groups| - 1 := [p]] == l.groups[1..] + [[p]];
  }

  function WrittenAll(ps: seq<seq<byte>>): (l: Log)
    ensures 0 < |l.groups| <= CHUNK_COUNT
    decreases |ps|
  {
    if ps == [] then Empty() else Written(WrittenAll(ps[..|ps| - 1]), ps[|ps| - 1])
  }

  /** What the log prints. */
  function Held(l: Log): seq<byte> {
    Concat(Concat(l.groups))
  }

  /** The log forgets whole writes, oldest first, and changes nothing else. */
  lemma {:induction false} LogKeepsOrder(ps: seq<seq<byte>>)
    ensures ps == WrittenAll(ps).forgotten + Concat(WrittenAll(ps).groups)
    decreases |ps|
  {
    if ps == [] {
      assert Concat<seq<byte>>([[]]) == [];
    } else {
      var qs, p := ps[..|ps| - 1], ps[|ps| - 1];
      LogKeepsOrder(qs);
      WriteAppends(WrittenAll(qs), p);
      assert ps == qs + [p];
    }
  }

  lemma WriteAppends(l: Log, p: seq<byte>)
    requires l.groups != []
    ensures var l' := Written(l, p);
            l'.forgotten + Concat(l'.groups) == l.forgotten + Concat(l.groups) + [p]
  {
    var n := |l.groups| - 1;
    var l' := Written(l, p);
    if |Bytes(l.groups[n])| + |p| <= CHUNK_SIZE {
      assert l.groups == l.groups[..n] + [l.groups[n]];
      assert l'.groups == l.groups[..n] + [l.groups[n] + [p]];
      ConcatSplit(l.groups[..n], [l.groups[n]]);
      ConcatSplit(l.groups[..n], [l.groups[n] + [p]]);
      assert Concat([l.groups[n]]) == l.groups[n];
      assert Concat([l.groups[n] + [p]]) == l.groups[n] + [p];
    } else {
      assert Concat([[p]]) == [p];
      ConcatSplit(l.groups, [[p]]);
      ConcatSplit(l.groups[1..], [[p]]);
    }
  }

  /** Two neighbouring chunks together hold more than one chunk's worth. */
  ghost predicate NeighboursFull(l: Log) {
    forall i :: 0 <= i < |l.groups| - 1 ==> |Bytes(l.groups[i])| + |Bytes(l.groups[i + 1])| > CHUNK_SIZE
  }

  lemma WriteKeepsNeighbours(l: Log, p: seq<byte>)
    requires l.groups != [] && NeighboursFull(l)
    ensures NeighboursFull(Written(l, p))
  {
    var n := |l.groups| - 1;
    var l' := Written(l, p);
    ConcatSplit(l.groups[n], [p]);
    assert Concat([p]) == p;
    if |Bytes(l.groups[n])| + |p| > CHUNK_SIZE && n + 1 == CHUNK_COUNT {
      forall i | 0 <= i < |l'.groups| - 1
        ensures |Bytes(l'.groups[i])| + |Bytes(l'.groups[i + 1])| > CHUNK_SIZE
      {
        assert l'.groups[i] == l.groups[i + 1];
        if i < n - 1 {
          assert l'.groups[i + 1] == l.groups[i + 2];
        }
      }
    }
  }

  lemma {:induction false} LogNeighboursFull(ps: seq<seq<byte>>)
    ensures NeighboursFull(WrittenAll(ps))
    ensures WrittenAll(ps).forgotten != [] ==> |WrittenAll(ps).groups| == CHUNK_COUNT
    decreases |ps|
  {
    if ps != [] {
      LogNeighboursFull(ps[..|ps| - 1]);
      WriteKeepsNeighbours(WrittenAll(ps[..|ps| - 1]), ps[|ps| - 1]);
    }
  }

  lemma {:induction false} PairsAddUp(gs: seq<seq<seq<byte>>>, k: nat)
    requires |gs| == 2 * k
    requires forall i :: 0 <= i < |gs| - 1 ==> |Bytes(gs[i])| + |Bytes(gs[i + 1])| > CHUNK_SIZE
    ensures |Concat(Concat(gs))| >= k * (CHUNK_SIZE + 1)
  {
    if k != 0 {
      PairsAddUp(gs[2..], k - 1);
      assert gs == [gs[0]] + [gs[1]] + gs[2..];
      ConcatSplit([gs[0]] + [gs[1]], gs[2..]);
      ConcatSplit([gs[0]], [gs[1]]);
      assert Concat([gs[0]]) == gs[0] && Concat([gs[1]]) == gs[1];
      ConcatSplit(gs[0] + gs[1], Concat(gs[2..]));
      ConcatSplit(gs[0], gs[1]);
    }
  }

  /** The log refines a plain log of everything written since the last reset: it
      prints a suffix that starts at a write; nothing is missing as long as sixteen
      chunks suffice; and once anything is missing it still prints more than eight
      chunks' worth. */
  lemma {:induction false} LogIsSuffix(ps: seq<seq<byte>>)
    ensures var l := WrittenAll(ps);
            && |l.forgotten| <= |ps|
            && Held(l) == Concat(ps[|l.forgotten|..])
            && (|l.groups| < CHUNK_COUNT ==> Held(l) == Concat(ps))
            && (l.forgotten != [] ==> |Held(l)| > 8 * CHUNK_SIZE)
  {
    var l := WrittenAll(ps);
    LogKeepsOrder(ps);
    LogNeighboursFull(ps);
    assert ps[|l.forgotten|..] == Concat(l.groups);
    if l.forgotten != [] {
      PairsAddUp(l.groups, 8);
    }
  }

  /** A write goes to the last chunk, or to a new one; there is no bound on chunks. */
  function Grouped(gs: seq<seq<seq<byte>>>, p: seq<byte>): (r: seq<seq<seq<byte>>>)
    requires gs != []
    ensures r != []
  {
    var n := |gs| - 1;
    if |Bytes(gs[n])| + |p| <= CHUNK_SIZE then gs[n := gs[n] + [p]] else gs + [[p]]
  }

  /** The writes grouped by chunk as they would be if there were no bound on chunks. */
  function Chunked(ps: seq<seq<byte>>): (gs: seq<seq<seq<byte>>>)
    ensures gs != []
    decreases |ps|
  {
    if ps == [] then [[]] else Grouped(Chunked(ps[..|ps| - 1]), ps[|ps| - 1])
  }

  /** How many of `n` chunks a ring has had to give up. */
  function Excess(n: nat): nat {
    if n <= CHUNK_COUNT then 0 else n - CHUNK_COUNT
  }

  /** The log is the last sixteen of these groups, and has forgotten the others. */
  ghost predicate LastOf(l: Log, gs: seq<seq<seq<byte>>>) {
    var d := Excess(|gs|);
    l.groups == gs[d..] && l.forgotten == Concat(gs[..d])
  }

  lemma FitsKeepsLast(l: Log, gs: seq<seq<seq<byte>>>, p: seq<byte>)
    requires gs != [] && LastOf(l, gs) && |Bytes(gs[|gs| - 1])| + |p| <= CHUNK_SIZE
    ensures l.groups != [] && LastOf(Written(l, p), Grouped(gs, p))
  {
    var n, d, gs' := |gs| - 1, Excess(|gs|), Grouped(gs, p);
    assert l.groups[n - d] == gs[n];
    assert gs'[d..] == l.groups[n - d := gs[n] + [p]];
    assert gs'[..d] == gs[..d];
  }

  lemma NextKeepsLast(l: Log, gs: seq<seq<seq<byte>>>, p: seq<byte>)
    requires gs != [] && LastOf(l, gs) && |Bytes(gs[|gs| - 1])| + |p| > CHUNK_SIZE
    ensures l.groups != [] && LastOf(Written(l, p), Grouped(gs, p))
  {
    var n, d, gs' := |gs| - 1, Excess(|gs|), gs + [[p]];
    assert l.groups[n - d] == gs[n];
    if |gs| < CHUNK_COUNT {
      assert gs'[0..] == gs[0..] + [[p]];
    } else {
      assert gs'[d + 1..] == gs[d..][1..] + [[p]];
      assert gs'[..d + 1] == gs[..d] + [gs[d]];
      ConcatSnoc(gs[..d], gs[d]);
    }
  }

  /** The ring holds the last sixteen chunks of the unbounded log, and has forgotten
      those before them as a whole: nothing at all before a seventeenth is needed. */
  lemma {:induction false} HoldsLastChunks(ps: seq<seq<byte>>)
    ensures var l, gs := WrittenAll(ps), Chunked(ps);
            var d := Excess(|gs|);
            l.groups == gs[d..] && l.forgotten == Concat(gs[..d])
    decreases |ps|
  {
    if ps != [] {
      var qs, p := ps[..|ps| - 1], ps[|ps| - 1];
      HoldsLastChunks(qs);
      var l, gs := WrittenAll(qs), Chunked(qs);
      if |Bytes(gs[|gs| - 1])| + |p| <= CHUNK_SIZE {
        FitsKeepsLast(l, gs, p);
      } else {
        NextKeepsLast(l, gs, p);
      }
    }
  }

  // ------------------------------------------------------------------------- the ring

  /** The position of held chunk number `i` in a ring that is read from `r`. */
  function Place(r: nat, i: nat): nat {
    if r + i < CHUNK_COUNT then r + i else r + i - CHUNK_COUNT
  }

  /** The ring holds these groups, from `r` to `w`. */
  ghost predicate Shows(chunks: seq<seq<byte>>, r: nat, w: nat, groups: seq<seq<seq<byte>>>) {
    && 0 < |chunks| <= CHUNK_COUNT && r < |chunks| && w < |chunks|
    && 0 < |groups| <= CHUNK_COUNT
    && w == Place(r, |groups| - 1)
    && (r == 0 || |chunks| == |groups| == CHUNK_COUNT)
    && (forall i :: 0 <= i < |groups| ==> Place(r, i) < |chunks| && chunks[Place(r, i)] == Bytes(groups[i]))
  }

  /** One more chunk in a ring that is not full. */
  lemma GrowShows(chunks: seq<seq<byte>>, w: nat, groups: seq<seq<seq<byte>>>)
    requires Shows(chunks, 0, w, groups) && |groups| < CHUNK_COUNT
    ensures Shows(if w + 1 == |chunks| then chunks + [[]] else chunks[w + 1 := []], 0, w + 1, groups + [[]])
  {
    var chunks' := if w + 1 == |chunks| then chunks + [[]] else chunks[w + 1 := []];
    var groups' := groups + [[]];
    forall i | 0 <= i < |groups'|
      ensures Place(0, i) < |chunks'| && chunks'[Place(0, i)] == Bytes(groups'[i])
    {
      assert Place(0, i) == i;
      assert i < |groups| ==> chunks[Place(0, i)] == Bytes(groups[i]);
    }
  }

  /** The first chunk of a full ring becomes the last. */
  lemma WrapShows(chunks: seq<seq<byte>>, r: nat, w: nat, groups: seq<seq<seq<byte>>>)
    requires Shows(chunks, r, w, groups) && |groups| == CHUNK_COUNT
    ensures Place(w, 1) == r && Shows(chunks[r := []], Place(r, 1), r, groups[1..] + [[]])
  {
    var chunks', r', groups' := chunks[r := []], Place(r, 1), groups[1..] + [[]];
    forall i | 0 <= i < |groups'|
      ensures Place(r', i) < |chunks'| && chunks'[Place(r', i)] == Bytes(groups'[i])
    {
      if i < CHUNK_COUNT - 1 {
        assert Place(r', i) == Place(r, i + 1) && chunks[Place(r, i + 1)] == Bytes(groups[i + 1]);
      } else {
        assert Place(r', i) == r;
      }
    }
  }

  class CircularBuffer {
    var chunks: seq<seq<byte>>
    var r: nat
    var w: nat
    ghost var log: Log

    ghost predicate Valid()
      reads this
    {
      Shows(chunks, r, w, log.groups)
    }

    constructor ()
      ensures Valid() && log == Empty()
    {
      chunks, r, w, log := [[]], 0, 0, Empty();
    }

    /** Moves on to the next chunk. */
    method Advance()
      requires Valid()
      modifies this
      ensures Valid() && log == Advanced(old(log))
    {
      if |log.groups| < CHUNK_COUNT {
        assert r == 0 by {
          assert r != 0 ==> |log.groups| == CHUNK_COUNT;
        }
        GrowShows(chunks, w, log.groups);
      } else {
        WrapShows(chunks, r, w, log.groups);
      }
      w := w + 1;
      if w == CHUNK_COUNT {
        w := 0;
      }
      if r == w {
        r := r + 1;
        if r == CHUNK_COUNT {
          r := 0;
        }
      }
      if w == |chunks| {
        chunks := chunks + [[]];
      } else {
        chunks := chunks[w := []];
      }
      log := Advanced(log);
    }

    method Append(p: seq<byte>)
      requires Valid()
      modifies this
      ensures Valid() && log == Appended(old(log), p)
    {
      ghost var last := log.groups[|log.groups| - 1];
      ConcatSplit(last, [p]);
      assert Concat([p]) == p;
      chunks := chunks[w := chunks[w] + p];
      log := Appended(log, p);
    }

    method Write(p: seq<byte>) returns (n: nat)
      requires Valid()
      modifies this
      ensures Valid() && n == |p| && log == Written(old(log), p)
    {
      n := |p|;
      WrittenInSteps(log, p);
      if |chunks[w]| + n > CHUNK_SIZE {
        Advance();
      }
      Append(p);
    }

    method WriteTo() returns (buf: seq<byte>)
      requires Valid()
      ensures buf == Held(log)
    {
      buf := [];
      var i := r;
      ghost var k := 0;
      while true
        invariant 0 <= k < |log.groups| && i == Place(r, k)
        invariant buf == Concat(Concat(log.groups[..k]))
        decreases |log.groups| - k
      {
        buf := buf + chunks[i];
        assert log.groups[..k + 1] == log.groups[..k] + [log.groups[k]];
        ConcatSplit(log.groups[..k], [log.groups[k]]);
        assert Concat([log.groups[k]]) == log.groups[k];
        ConcatSplit(Concat(log.groups[..k]), log.groups[k]);
        if i == w {
          assert log.groups[..k + 1] == log.groups;
          return;
        }
        i := i + 1;
        if i == CHUNK_COUNT {
          i := 0;
        }
        k := k + 1;
      }
    }

    method Reset()
      requires Valid()
      modifies this
      ensures Valid() && log == Empty()
    {
      chunks := chunks[0 := []];
      r := 0;
      w := 0;
      log := Empty();
    }
  }
}
