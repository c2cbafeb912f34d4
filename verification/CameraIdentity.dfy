/** What becomes of a camera, as opposed to a name, when discoveries rename cameras: a
    camera is known by its MAC address, but its errors, its failures and its promotion
    are kept by name. */
module CameraIdentity {
  import opened Wrappers
  import opened CameraSlot
  import opened Discovery

  /** What was learnt about a camera. */
  datatype Flags = Flags(errors: nat, streak: nat, forced: bool)

  const UNKNOWN := Flags(0, 0, false)

  function FlagsOf(s: Slot): Flags {
    match s.cam
    case None => UNKNOWN
    case Some(c) => Flags(c.errors, c.streak, c.forced)
  }

  /** The camera with this MAC address has the entry of a name. */
  predicate Holds(s: Slot, mac: string) {
    s.cam.Some? && s.cam.value.info.mac == mac
  }

  // ------------------------------------------------------------ one discovery

  /** A camera that is found has afterwards at most the entry of its last name, and has
      it exactly when it is also the last camera of that name. What is known of it is
      then what was known under that name before, so that what had been learnt about it
      follows it exactly when it has kept its name, or the same was known under the new
      name. */
  lemma FlagsFollowIff(threshold: int, at: Slots, infos: seq<Info>, quality: string -> string, n: string, mac: string)
    requires Keyed(at) && Holds(at(n), mac) && HasMac(infos, mac)
    ensures var at', n' := Discovered(threshold, at, infos, quality), LastWithMac(infos, mac);
            && (forall k :: Holds(at'(k), mac) ==> k == n')
            && (Holds(at'(n'), mac) <==> LastNamed(infos, n').Some? && LastNamed(infos, n').value.mac == mac)
            && (Holds(at'(n'), mac) ==>
                  (FlagsOf(at'(n')) == FlagsOf(at(n)) <==> n' == n || FlagsOf(at(n')) == FlagsOf(at(n))))
  {
    var at', n' := Discovered(threshold, at, infos, quality), LastWithMac(infos, mac);
    forall k | Holds(at'(k), mac)
      ensures k == n'
    {
      EntryMac(threshold, at, infos, quality, k);
    }
    LastWithMacIsNamed(infos, mac);
    LastNamedIsThere(infos, n');
    FoundIs(threshold, at(n'), n', infos, quality);
  }

  /** A camera that is not found keeps its entry, and all that is known of it, exactly
      when no other camera was found under its name. */
  lemma UnlistedKeepsIff(threshold: int, at: Slots, infos: seq<Info>, quality: string -> string, n: string, mac: string)
    requires Keyed(at) && mac != "" && Holds(at(n), mac) && !HasMac(infos, mac)
    ensures var s := Discovered(threshold, at, infos, quality)(n);
            && (Holds(s, mac) <==> n !in Names(infos))
            && (Holds(s, mac) ==> FlagsOf(s) == FlagsOf(at(n)))
  {
    LastNamedIsThere(infos, n);
    if n in Names(infos) {
      FoundIs(threshold, at(n), n, infos, quality);
      var last := LastNamed(infos, n).value;
      assert last.mac != mac by {
        var i :| 0 <= i < |infos| && infos[i] == last;
        assert last.mac == mac ==> HasMac(infos, mac);
      }
    } else {
      AbsentIs(threshold, at(n), n, infos, quality);
    }
  }

  /** Two cameras that have swapped their names have swapped all that was learnt about
      them: a promoted camera is back on its default route, and the other is promoted. */
  lemma SwapExchangesFlags(threshold: int, at: Slots, a: Info, b: Info, quality: string -> string)
    requires Holds(at(a.name), b.mac) && Holds(at(b.name), a.mac)
    requires a.name != b.name && a.mac != b.mac && a.mac != "" && b.mac != ""
    ensures var at' := Discovered(threshold, at, [a, b], quality);
            && Holds(at'(a.name), a.mac) && FlagsOf(at'(a.name)) == FlagsOf(at(a.name))
            && Holds(at'(b.name), b.mac) && FlagsOf(at'(b.name)) == FlagsOf(at(b.name))
  {
    var infos := [a, b];
    assert infos[..1] == [a] && [a][..0] == [];
    assert LastNamed([a], a.name) == Some(a) && LastWithMac([a], a.mac) == a.name;
    assert LastNamed(infos, a.name) == Some(a) && LastNamed(infos, b.name) == Some(b);
    assert LastWithMac(infos, a.mac) == a.name && LastWithMac(infos, b.mac) == b.name;
    FoundIs(threshold, at(a.name), a.name, infos, quality);
    FoundIs(threshold, at(b.name), b.name, infos, quality);
  }

  /** A camera that was renamed to a name that is not in use loses its entry and starts
      anew: nothing is known of it, and it is routed as its model is. */
  lemma RenameForgets(threshold: int, at: Slots, infos: seq<Info>, quality: string -> string, n: string, info: Info)
    requires Holds(at(n), info.mac) && info.mac != "" && at(info.name).cam.None? && n !in Names(infos)
    requires LastNamed(infos, info.name) == Some(info) && LastWithMac(infos, info.mac) == info.name
    ensures var at' := Discovered(threshold, at, infos, quality);
            && at'(n).cam.None?
            && Holds(at'(info.name), info.mac) && FlagsOf(at'(info.name)) == UNKNOWN
            && !at'(info.name).cam.value.forced
  {
    LastNamedIsThere(infos, info.name);
    LastNamedIsThere(infos, n);
    FoundIs(threshold, at(info.name), info.name, infos, quality);
    var i :| 0 <= i < |infos| && infos[i] == info;
    assert HasMac(infos, info.mac);
    AbsentIs(threshold, at(n), n, infos, quality);
  }

  // -------------------------------------------------------- promoted a second time

  function Dos(n: string, es: seq<Event>): (ops: seq<Op>)
    ensures |ops| == |es|
  {
    seq(|es|, i requires 0 <= i < |es| => Do(n, es[i]))
  }

  lemma EmitKeepsPromoted(s: Slot, e: Effect)
    ensures e.Promoted? ==> HasPromoted(Emit(s, e).log)
    ensures HasPromoted(s.log) ==> HasPromoted(Emit(s, e).log)
  {
    var log' := Emit(s, e).log;
    assert log'[|s.log|] == e;
    if HasPromoted(s.log) {
      var i :| 0 <= i < |s.log| && s.log[i].Promoted?;
      assert log'[i].Promoted?;
    }
  }

  ghost predicate HasPromoted(log: seq<Effect>) {
    exists i :: 0 <= i < |log| && log[i].Promoted?
  }

  /** One failed attempt over TUTK: one more failure, or the promotion. */
  lemma FailureCountsOrPromotes(threshold: int, s: Slot)
    requires s.cam.Some? && !s.cam.value.forced && ProtocolOf(s.cam.value) == Tutk && threshold > 0
    ensures var s' := Step(threshold, s, Connect(true, false));
            && s'.cam.Some?
            && (if s.cam.value.streak + 1 < threshold
                then && !s'.cam.value.forced && ProtocolOf(s'.cam.value) == Tutk
                      && s'.cam.value.streak == s.cam.value.streak + 1
                else HasPromoted(s'.log))
  {
    var s1 := ChangePhase(s, Connecting);
    var c := ErrorAdded(s1.cam.value);
    var s2 := MaybeReportChronic(s1.(cam := Some(c)), c.errors);
    assert s2.cam == Some(c) && c.streak == s.cam.value.streak;
    assert Step(threshold, s, Connect(true, false)) == RecordTutkFailure(threshold, s2, Tutk, false);
    var s3 := Emit(s2, Failed(false));
    EmitKeepsPromoted(s3.(cam := Some(c.(streak := 0, forced := true))), Promoted(c.streak + 1));
  }

  lemma {:induction false} FailuresPromote(threshold: int, s: Slot, k: nat)
    requires s.cam.Some? && !s.cam.value.forced && ProtocolOf(s.cam.value) == Tutk && s.cam.value.streak < threshold
    requires k == threshold - s.cam.value.streak
    ensures HasPromoted(Run(threshold, s, Failures(k)).log)
    decreases k
  {
    FailureCountsOrPromotes(threshold, s);
    var s' := Step(threshold, s, Connect(true, false));
    assert Failures(k)[1..] == Failures(k - 1);
    assert Run(threshold, s, Failures(k)) == Run(threshold, s', Failures(k - 1));
    if s.cam.value.streak + 1 < threshold {
      FailuresPromote(threshold, s', k - 1);
    } else {
      assert Failures(0) == [];
    }
  }

  lemma {:induction false} RunSnoc(threshold: int, s: Slot, es: seq<Event>, e: Event)
    ensures Run(threshold, s, es + [e]) == Step(threshold, Run(threshold, s, es), e)
    decreases |es|
  {
    if es == [] {
      assert [] + [e] == [e] && [e][1..] == [];
      assert Run(threshold, Step(threshold, s, e), []) == Step(threshold, s, e);
    } else {
      assert (es + [e])[1..] == es[1..] + [e];
      RunSnoc(threshold, Step(threshold, s, es[0]), es[1..], e);
    }
  }

  lemma DosSnoc(n: string, es: seq<Event>)
    requires es != []
    ensures Dos(n, es) == Dos(n, es[..|es| - 1]) + [Do(n, es[|es| - 1])]
  {
  }

  /** Operations on one name act on that name alone. */
  lemma {:induction false} DosActOn(threshold: int, ops: seq<Op>, n: string, es: seq<Event>,
                                    quality: string -> string, k: string)
    ensures var at, at' := After(threshold, ops, quality), After(threshold, ops + Dos(n, es), quality);
            at'(k) == if k == n then Run(threshold, at(k), es) else at(k)
    decreases |es|
  {
    if es == [] {
      assert ops + Dos(n, es) == ops;
    } else {
      var m := |es| - 1;
      DosActOn(threshold, ops, n, es[..m], quality, k);
      var ops' := ops + Dos(n, es);
      DosSnoc(n, es);
      assert ops' == ops + Dos(n, es[..m]) + [Do(n, es[m])];
      assert ops'[..|ops'| - 1] == ops + Dos(n, es[..m]) && ops'[|ops'| - 1] == Do(n, es[m]);
      assert es == es[..m] + [es[m]];
      RunSnoc(threshold, After(threshold, ops, quality)(k), es[..m], es[m]);
    }
  }

  /** A discovery of one camera alone. */
  lemma DiscoverOne(threshold: int, at: Slots, info: Info, quality: string -> string)
    requires info.mac != ""
    ensures var s, s' := at(info.name), Discovered(threshold, at, [info], quality)(info.name);
            && (s.cam.None? ==> s'.cam == Some(Cam(info, Offline, quality(info.name), 0, 0, false)))
            && (s'.cam.Some? ==> s'.cam.value.info == info)
  {
    var infos := [info];
    assert infos[..0] == [];
    assert LastNamed(infos, info.name) == Some(info) && LastWithMac(infos, info.mac) == info.name;
    FoundIs(threshold, at(info.name), info.name, infos, quality);
  }

  /** The history of a camera that fails until it is promoted, is renamed, and fails as
      often again. */
  function RenamedRun(threshold: nat, was: Info, now: Info): seq<Op> {
    [Discover([was])] + Dos(was.name, Failures(threshold)) + [Discover([now])] + Dos(now.name, Failures(threshold))
  }

  /** The fallback can be reported twice for one camera: in this run it is promoted under
      its old name and, being unknown under the new one, once more. */
  lemma PromotedTwice(threshold: nat, was: Info, now: Info, quality: string -> string)
    requires threshold > 0 && was.mac == now.mac && was.mac != "" && was.name != now.name
    requires !was.webrtc && !was.gwell && !now.webrtc && !now.gwell
    ensures var at := After(threshold, RenamedRun(threshold, was, now), quality);
            HasPromoted(at(was.name).log) && HasPromoted(at(now.name).log)
  {
    var fails := Failures(threshold);
    var ops1 := [Discover([was])];
    var ops2 := ops1 + Dos(was.name, fails);
    var ops3 := ops2 + [Discover([now])];
    var at0, at1 := After(threshold, [], quality), After(threshold, ops1, quality);
    var at2, at3 := After(threshold, ops2, quality), After(threshold, ops3, quality);
    assert ops1[..0] == [] && at1 == Discovered(threshold, at0, [was], quality);
    DiscoverOne(threshold, at0, was, quality);
    FailuresPromote(threshold, at1(was.name), threshold);
    DosActOn(threshold, ops1, was.name, fails, quality, was.name);
    DosActOn(threshold, ops1, was.name, fails, quality, now.name);
    assert at1(now.name).cam.None? by {
      assert [was][..0] == [] && LastNamed([was], now.name).None?;
      AbsentIs(threshold, at0(now.name), now.name, [was], quality);
    }
    assert ops3[..|ops3| - 1] == ops2 && at3 == Discovered(threshold, at2, [now], quality);
    DiscoverOne(threshold, at2, now, quality);
    FailuresPromote(threshold, at3(now.name), threshold);
    DosActOn(threshold, ops3, now.name, fails, quality, was.name);
    DosActOn(threshold, ops3, now.name, fails, quality, now.name);
    DiscoverKeepsPromoted(threshold, at2(was.name), was.name, [now], quality);
    assert RenamedRun(threshold, was, now) == ops3 + Dos(now.name, fails);
  }

  lemma {:induction false} DiscoverKeepsPromoted(threshold: int, s: Slot, n: string, infos: seq<Info>,
                                                 quality: string -> string)
    requires HasPromoted(s.log)
    ensures HasPromoted(DiscoverAt(threshold, s, n, infos, quality).log)
  {
    var es := DiscoveryEvents(threshold, s, n, infos, quality);
    EventsExtendLog(threshold, s, es);
    var i :| 0 <= i < |s.log| && s.log[i].Promoted?;
    assert DiscoverAt(threshold, s, n, infos, quality).log[i].Promoted?;
  }

  // ------------------------------------------------ as long as nobody is renamed

  /** What a discovery does to a name, as events; one of them drops the entry exactly if
      its camera was seen under another name. */
  lemma DiscoveryEvents(threshold: int, s: Slot, n: string, infos: seq<Info>, quality: string -> string)
      returns (es: seq<Event>)
    ensures DiscoverAt(threshold, s, n, infos, quality) == Run(threshold, s, es)
    ensures Reaped in es <==> Orphan(Sighted(threshold, s, n, infos, quality), n, NameByMac(infos))
  {
    es := SightingEvents(threshold, s, n, infos, quality);
    var s1, names := Sighted(threshold, s, n, infos, quality), NameByMac(infos);
    if Orphan(s1, n, names) {
      RunSnoc(threshold, s, es, Reaped);
      es := es + [Reaped];
    }
    if n !in Names(infos) {
      RunSnoc(threshold, s, es, TakenOffline);
      es := es + [TakenOffline];
    }
  }

  lemma {:induction false} SightingEvents(threshold: int, s: Slot, n: string, infos: seq<Info>,
                                          quality: string -> string)
      returns (es: seq<Event>)
    ensures Sighted(threshold, s, n, infos, quality) == Run(threshold, s, es) && Reaped !in es
    decreases |infos|
  {
    if infos == [] {
      es := [];
    } else {
      var k := |infos| - 1;
      es := SightingEvents(threshold, s, n, infos[..k], quality);
      if infos[k].name == n {
        RunSnoc(threshold, s, es, Found(infos[k], quality(n)));
        es := es + [Found(infos[k], quality(n))];
      }
    }
  }

  /** A step only adds to the log, and creates an entry only where there is none. */
  ghost predicate Adds(s: Slot, s': Slot) {
    s.log <= s'.log && forall k :: |s.log| <= k < |s'.log| ==> s'.log[k] != Created
  }

  lemma RecordAdds(threshold: int, s: Slot, protocol: Protocol, lost: bool)
    requires s.cam.Some?
    ensures Adds(s, RecordTutkFailure(threshold, s, protocol, lost))
  {
  }

  lemma StepAdds(threshold: int, s: Slot, e: Event)
    ensures s.log <= Step(threshold, s, e).log
    ensures s.cam.Some? ==> Adds(s, Step(threshold, s, e))
  {
    if s.cam.Some? {
      var c := s.cam.value;
      match e {
        case Connect(attached, added) =>
          var s1 := ChangePhase(s, Connecting);
          var c1 := ErrorAdded(s1.cam.value);
          RecordAdds(threshold, MaybeReportChronic(s1.(cam := Some(c1)), c1.errors), ProtocolOf(s1.cam.value), false);
        case Check(alive) =>
          var c1 := ErrorAdded(c);
          var s1 := Emit(s.(cam := Some(c1)), Changed(Streaming, Failing));
          RecordAdds(threshold, MaybeReportChronic(s1, c1.errors), ProtocolOf(c1), true);
        case _ =>
      }
    }
  }

  lemma {:induction false} EventsExtendLog(threshold: int, s: Slot, es: seq<Event>)
    ensures s.log <= Run(threshold, s, es).log
    decreases |es|
  {
    if es != [] {
      StepAdds(threshold, s, es[0]);
      EventsExtendLog(threshold, Step(threshold, s, es[0]), es[1..]);
    }
  }

  /** The log of a name whose entry was created once, first of all. */
  ghost predicate OneCreation(s: Slot) {
    && (s.cam.None? ==> s.log == [])
    && forall k :: 0 < k < |s.log| ==> s.log[k] != Created
  }

  lemma {:induction false} CreatedOnce(threshold: int, s: Slot, es: seq<Event>)
    requires OneCreation(s) && Reaped !in es
    ensures OneCreation(Run(threshold, s, es))
    decreases |es|
  {
    if es != [] {
      StepAdds(threshold, s, es[0]);
      var s' := Step(threshold, s, es[0]);
      assert es[0] in es && s.cam.Some? ==> s'.cam.Some?;
      assert forall e :: e in es[1..] ==> e in es;
      CreatedOnce(threshold, s', es[1..]);
    }
  }

  /** In every discovery the camera is found under this name or not at all, and no other
      camera is found under it. */
  ghost predicate NameIsCamera(ops: seq<Op>, n: string, mac: string) {
    forall i, k :: 0 <= i < |ops| && ops[i].Discover? && 0 <= k < |ops[i].infos| ==>
      (ops[i].infos[k].mac == mac <==> ops[i].infos[k].name == n)
  }

  lemma NotReaped(threshold: int, s: Slot, n: string, mac: string, infos: seq<Info>, quality: string -> string)
    requires mac != "" && (s.cam.Some? ==> s.cam.value.info.mac == mac)
    requires forall k :: 0 <= k < |infos| ==> (infos[k].mac == mac <==> infos[k].name == n)
    ensures var s1 := Sighted(threshold, s, n, infos, quality);
            !Orphan(s1, n, NameByMac(infos)) && (s1.cam.Some? ==> s1.cam.value.info.mac == mac)
  {
    SightedIs(threshold, s, n, infos, quality);
    LastNamedIsThere(infos, n);
    NameByMacIs(infos, mac);
    if HasMac(infos, mac) {
      LastWithMacIsNamed(infos, mac);
    }
  }

  /** One operation is some events for the name, none of which drops its entry. */
  lemma NextEvents(threshold: int, at: Slots, op: Op, quality: string -> string, n: string, mac: string)
      returns (es: seq<Event>)
    requires ValidOp(op) && mac != "" && NameIsCamera([op], n, mac)
    requires at(n).cam.Some? ==> at(n).cam.value.info.mac == mac
    ensures Reaped !in es && Apply(threshold, at, op, quality)(n) == Run(threshold, at(n), es)
    ensures var s := Apply(threshold, at, op, quality)(n); s.cam.Some? ==> s.cam.value.info.mac == mac
  {
    match op {
      case Discover(infos) =>
        assert [op][0] == op;
        NotReaped(threshold, at(n), n, mac, infos, quality);
        es := DiscoveryEvents(threshold, at(n), n, infos, quality);
      case Do(name, e) =>
        es := if name == n then [e] else [];
        StepKeepsInfo(threshold, at(n), e);
        RunSnoc(threshold, at(n), [], e);
        assert [] + [e] == [e];
    }
  }

  /** From operation `i` on, a whole run is some events for the name, none of which
      drops its entry. */
  lemma {:induction false} EventsOf(threshold: int, ops: seq<Op>, quality: string -> string, n: string, mac: string,
                                    i: nat)
      returns (es: seq<Event>)
    requires i <= |ops| && mac != "" && NameIsCamera(ops, n, mac) && forall k :: 0 <= k < |ops| ==> ValidOp(ops[k])
    ensures Reaped !in es
    ensures After(threshold, ops, quality)(n) == Run(threshold, After(threshold, ops[..i], quality)(n), es)
    ensures var s := After(threshold, ops, quality)(n); s.cam.Some? ==> s.cam.value.info.mac == mac
    decreases |ops|
  {
    if |ops| == 0 {
      es := [];
    } else {
      var m := |ops| - 1;
      var before, at := ops[..m], After(threshold, ops[..m], quality);
      var last;
      if i == |ops| {
        var _ := EventsOf(threshold, before, quality, n, mac, 0);
        last := NextEvents(threshold, at, ops[m], quality, n, mac);
        assert ops[..i] == ops;
        es := [];
      } else {
        var first := EventsOf(threshold, before, quality, n, mac, i);
        last := NextEvents(threshold, at, ops[m], quality, n, mac);
        assert before[..i] == ops[..i];
        RunConcat(threshold, After(threshold, ops[..i], quality)(n), first, last);
        es := first + last;
      }
    }
  }

  /** What the fallback promises of a camera holds as long as the camera and its name
      belong together: in every run in which no discovery finds the camera under another
      name, or another camera under its name, it is promoted at most once, and from then
      on it is promoted and routed over WebRTC. */
  lemma StickyUnderOneName(threshold: int, ops: seq<Op>, quality: string -> string, n: string, mac: string, i: nat)
    requires i <= |ops| && mac != "" && NameIsCamera(ops, n, mac) && forall k :: 0 <= k < |ops| ==> ValidOp(ops[k])
    ensures var s, s' := After(threshold, ops[..i], quality)(n), After(threshold, ops, quality)(n);
            && (s.cam.Some? && s.cam.value.forced ==>
                  s'.cam.Some? && s'.cam.value.forced && ProtocolOf(s'.cam.value) == WebRtc)
            && (forall j, k :: 0 <= j < k < |s'.log| && s'.log[j].Promoted? ==> !s'.log[k].Promoted?)
  {
    var s, s' := After(threshold, ops[..i], quality)(n), After(threshold, ops, quality)(n);
    var es := EventsOf(threshold, ops, quality, n, mac, i);
    if s.cam.Some? && s.cam.value.forced {
      PromotionSticks(threshold, s, es);
    }
    var all := EventsOf(threshold, ops, quality, n, mac, 0);
    assert ops[..0] == [];
    CreatedOnce(threshold, NEVER_SEEN, all);
    forall j, k | 0 <= j < k < |s'.log| && s'.log[j].Promoted?
      ensures !s'.log[k].Promoted?
    {
      if s'.log[k].Promoted? {
        PromotedOnce(threshold, all, j, k);
        assert false;
      }
    }
  }
}
