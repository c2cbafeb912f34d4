/** One camera name as the manager sees it: the camera under that name, if any,
    whether a chronic error was reported for the name, and all that happened to it. */
module CameraSlot {
  import Bits
  import opened Wrappers

  /** Consecutive errors from which on a camera is reported as stuck. */
  const CHRONIC := 10

  datatype Phase = Offline | Discovering | Connecting | Streaming | Failing

  /** What discovery knows of a camera; the last two say whether its model streams over
      WebRTC and whether it uses the Gwell control plane. */
  datatype Info = Info(name: string, mac: string, lanIp: string, doorbell: bool, webrtc: bool, gwell: bool)

  datatype Cam = Cam(info: Info, phase: Phase, quality: string, errors: nat, streak: nat, forced: bool)

  datatype Protocol = Tutk | WebRtc | Gwell

  datatype Source = Wyze(info: Info, quality: string, notify: bool) | WebRtcShim(name: string) | PublishOnly

  /** What the callbacks report, with the birth and the end of an entry and the failures
      that count towards the fallback. */
  datatype Effect =
    | Created
    | Dropped
    | Changed(was: Phase, now: Phase)
    | Failed(lost: bool)
    | Promoted(streak: nat)
    | Chronic(errors: nat)
    | Recovered

  datatype Slot = Slot(cam: Option<Cam>, reported: bool, log: seq<Effect>)

  /** What can happen to one camera: discovery finds it or drops its entry, it is taken
      offline, an attempt to connect it (with no client attached, or a stream that is
      added or not), a health check (its stream is alive or not), a new quality. */
  datatype Event =
    | Found(info: Info, quality: string)
    | Reaped
    | TakenOffline
    | Connect(attached: bool, added: bool)
    | Check(alive: bool)
    | SetQuality(q: string)

  const NEVER_SEEN := Slot(None, false, [])

  // ------------------------------------------------------------------ the steps

  function Emit(s: Slot, e: Effect): Slot {
    s.(log := s.log + [e])
  }

  function ProtocolOf(c: Cam): Protocol {
    if c.forced || c.info.webrtc then WebRtc else if c.info.gwell then Gwell else Tutk
  }

  function StreamUrl(c: Cam, liveRing: bool): Source {
    Wyze(c.info, c.quality, liveRing && c.info.doorbell && !c.info.webrtc)
  }

  function SourceOf(c: Cam, liveRing: bool): Source {
    match ProtocolOf(c)
    case WebRtc => WebRtcShim(c.info.name)
    case Gwell => PublishOnly
    case Tutk => StreamUrl(c, liveRing)
  }

  function PhaseSet(c: Cam, p: Phase): Cam {
    if p == Streaming then c.(phase := p, errors := 0, streak := 0) else c.(phase := p)
  }

  function ErrorAdded(c: Cam): Cam {
    c.(errors := c.errors + 1, phase := Failing)
  }

  function ClearChronic(s: Slot): Slot {
    if s.reported then Emit(s.(reported := false), Recovered) else s
  }

  function ChangePhase(s: Slot, p: Phase): Slot
    requires s.cam.Some?
  {
    var c := s.cam.value;
    if c.phase == p then s
    else
      var s1 := s.(cam := Some(PhaseSet(c, p)));
      Emit(if p == Streaming then ClearChronic(s1) else s1, Changed(c.phase, p))
  }

  function MaybeReportChronic(s: Slot, errors: nat): Slot {
    if errors < CHRONIC || s.reported then s else Emit(s.(reported := true), Chronic(errors))
  }

  function Counted(s: Slot, c: Cam, lost: bool): Slot {
    Emit(s, Failed(lost)).(cam := Some(c.(streak := c.streak + 1)))
  }

  function PromotedNow(s: Slot, c: Cam, streak: nat): Slot {
    Emit(s.(cam := Some(c.(streak := 0, forced := true))), Promoted(streak))
  }

  /** A failed attempt counts towards the fallback when it used TUTK, a threshold is set
      and the camera is not promoted yet. */
  function RecordTutkFailure(threshold: int, s: Slot, protocol: Protocol, lost: bool): Slot
    requires s.cam.Some?
  {
    var c := s.cam.value;
    if protocol != Tutk || threshold <= 0 || c.forced then s
    else if c.streak + 1 < threshold then Counted(s, c, lost)
    else PromotedNow(Emit(s, Failed(lost)), c, c.streak + 1)
  }

  function Attempt(threshold: int, s: Slot, attached: bool, added: bool): Slot
    requires s.cam.Some?
  {
    var s1 := ChangePhase(s, Connecting);
    if !attached then s1
    else if added then ChangePhase(s1, Streaming)
    else
      var c := ErrorAdded(s1.cam.value);
      var s2 := MaybeReportChronic(s1.(cam := Some(c)), c.errors);
      RecordTutkFailure(threshold, s2, ProtocolOf(s1.cam.value), false)
  }

  function Checked(threshold: int, s: Slot, alive: bool): Slot
    requires s.cam.Some?
  {
    var c := s.cam.value;
    if c.phase != Streaming || c.info.gwell || alive then s
    else
      var c1 := ErrorAdded(c);
      var s1 := MaybeReportChronic(Emit(s.(cam := Some(c1)), Changed(Streaming, Failing)), c1.errors);
      RecordTutkFailure(threshold, s1, ProtocolOf(c1), true)
  }

  function StepPresent(threshold: int, s: Slot, e: Event): Slot
    requires s.cam.Some?
  {
    match e
    case Found(info, _) => s.(cam := Some(s.cam.value.(info := info)))
    case Reaped => Emit(s.(cam := None), Dropped)
    case TakenOffline => ChangePhase(s, Offline)
    case Connect(attached, added) => Attempt(threshold, s, attached, added)
    case Check(alive) => Checked(threshold, s, alive)
    case SetQuality(q) => s.(cam := Some(s.cam.value.(quality := q)))
  }

  /** The slot after an event; an operation on an unknown name does nothing. */
  function Step(threshold: int, s: Slot, e: Event): Slot {
    if s.cam.Some? then StepPresent(threshold, s, e)
    else if e.Found? then Emit(s.(cam := Some(Cam(e.info, Offline, e.quality, 0, 0, false))), Created)
    else s
  }

  function Run(threshold: int, s: Slot, es: seq<Event>): Slot
    decreases |es|
  {
    if es == [] then s else Run(threshold, Step(threshold, s, es[0]), es[1..])
  }

  // -------------------------------------------------------- what a log remembers

  /** What can be read off a log: the failures counted since the camera last streamed
      (each whether it was a lost stream), the promotions of the current entry, whether
      a chronic error stands reported, and whether it was left standing by a dropped
      entry. */
  datatype Memory = Memory(since: seq<bool>, promotions: nat, reported: bool, stale: bool)

  function Note(m: Memory, e: Effect): Memory {
    match e
    case Created => m.(since := [], promotions := 0)
    case Dropped => m.(since := [], stale := m.reported)
    case Changed(_, now) => if now == Streaming then m.(since := []) else m
    case Failed(lost) => m.(since := m.since + [lost])
    case Promoted(_) => m.(promotions := m.promotions + 1)
    case Chronic(_) => m.(reported := true)
    case Recovered => m.(reported := false, stale := false)
  }

  function Recall(log: seq<Effect>): Memory {
    if log == [] then Memory([], 0, false, false)
    else Note(Recall(log[..|log| - 1]), log[|log| - 1])
  }

  /** When an effect may come, given what came before it. */
  ghost predicate Fits(threshold: int, m: Memory, e: Effect) {
    match e
    case Failed(lost) => m.promotions == 0 && |m.since| < threshold && (lost ==> m.since == [])
    case Promoted(k) => m.promotions == 0 && k == threshold == |m.since| && Losses(m.since) == 0
    case Chronic(k) => !m.reported && k == CHRONIC
    case Recovered => m.reported
    case Changed(was, now) => was != now
    case _ => true
  }

  /** The failures after the first that were lost streams. */
  function Losses(since: seq<bool>): nat {
    if |since| <= 1 then 0 else Losses(since[..|since| - 1]) + if since[|since| - 1] then 1 else 0
  }

  lemma LossesSnoc(since: seq<bool>, lost: bool)
    requires Losses(since) == 0 && (lost ==> since == [])
    ensures Losses(since + [lost]) == 0
  {
    assert (since + [lost])[..|since|] == since;
  }

  /** Every effect of the log fits what came before it. */
  ghost predicate Sound(threshold: int, log: seq<Effect>) {
    log == [] ||
    var n := |log| - 1;
    Sound(threshold, log[..n]) && Fits(threshold, Recall(log[..n]), log[n])
  }

  lemma {:induction false} SoundAt(threshold: int, log: seq<Effect>, j: nat)
    requires Sound(threshold, log) && j < |log|
    ensures Fits(threshold, Recall(log[..j]), log[j])
    decreases |log|
  {
    var n := |log| - 1;
    if j < n {
      SoundAt(threshold, log[..n], j);
      assert log[..n][..j] == log[..j];
    }
  }

  /** One more effect that fits. */
  lemma SoundSnoc(threshold: int, log: seq<Effect>, e: Effect)
    requires Sound(threshold, log) && Fits(threshold, Recall(log), e)
    ensures Sound(threshold, log + [e]) && Recall(log + [e]) == Note(Recall(log), e)
  {
    assert (log + [e])[..|log|] == log;
  }

  // ---------------------------------------------------------------- the invariant

  /** How a camera agrees with what its log remembers. */
  ghost predicate Agrees(threshold: int, c: Cam, m: Memory) {
    && (c.phase == Streaming ==> c.errors == 0 && m.since == [])
    && m.promotions == (if c.forced then 1 else 0)
    && (c.forced ==> threshold > 0 && c.streak == 0)
    && (!c.forced ==> c.streak == |m.since| && (threshold > 0 ==> c.streak < threshold))
    && (threshold <= 0 ==> m.since == [])
    && Losses(m.since) == 0
  }

  /** How the report of a chronic error agrees with the camera. */
  ghost predicate ReportAgrees(s: Slot, m: Memory) {
    && m.reported == s.reported
    && (s.reported <==> m.stale || (s.cam.Some? && s.cam.value.errors >= CHRONIC))
  }

  ghost predicate Inv(threshold: int, s: Slot) {
    var m := Recall(s.log);
    && Sound(threshold, s.log)
    && (s.cam.Some? ==> Agrees(threshold, s.cam.value, m))
    && ReportAgrees(s, m)
  }

  lemma ChangeKeepsInv(threshold: int, s: Slot, p: Phase)
    requires Inv(threshold, s) && s.cam.Some?
    ensures Inv(threshold, ChangePhase(s, p))
  {
    var c := s.cam.value;
    if c.phase != p {
      var log := s.log;
      if p == Streaming && s.reported {
        SoundSnoc(threshold, log, Recovered);
        log := log + [Recovered];
      }
      SoundSnoc(threshold, log, Changed(c.phase, p));
    }
  }

  /** One more failure counted. */
  lemma FailureCounts(threshold: int, s: Slot, lost: bool)
    requires Inv(threshold, s) && s.cam.Some? && !s.cam.value.forced && threshold > 0
    requires lost ==> Recall(s.log).since == []
    ensures var m, m' := Recall(s.log), Recall(s.log + [Failed(lost)]);
            && Sound(threshold, s.log + [Failed(lost)])
            && m' == m.(since := m.since + [lost])
            && |m'.since| == s.cam.value.streak + 1 && Losses(m'.since) == 0
  {
    LossesSnoc(Recall(s.log).since, lost);
    SoundSnoc(threshold, s.log, Failed(lost));
  }

  /** The promotion that follows the failure that reaches the threshold. */
  lemma PromotionKeepsInv(threshold: int, s: Slot, c: Cam, m: Memory)
    requires s.cam == Some(c) && Sound(threshold, s.log) && Recall(s.log) == m && ReportAgrees(s, m)
    requires c.phase != Streaming && !c.forced && m.promotions == 0 && threshold > 0
    requires |m.since| == threshold && Losses(m.since) == 0
    ensures Inv(threshold, PromotedNow(s, c, threshold))
  {
    SoundSnoc(threshold, s.log, Promoted(threshold));
  }

  /** A failure below the threshold only counts. */
  lemma CountKeepsInv(threshold: int, s: Slot, c: Cam, lost: bool)
    requires Inv(threshold, s) && s.cam == Some(c) && !c.forced && threshold > 0
    requires c.phase != Streaming && c.streak + 1 < threshold
    requires lost ==> Recall(s.log).since == []
    ensures Inv(threshold, Counted(s, c, lost))
  {
    FailureCounts(threshold, s, lost);
  }

  lemma ReachedKeepsInv(threshold: int, s: Slot, c: Cam, lost: bool)
    requires Inv(threshold, s) && s.cam == Some(c) && !c.forced && threshold > 0
    requires c.phase != Streaming && c.streak + 1 >= threshold
    requires lost ==> Recall(s.log).since == []
    ensures Inv(threshold, PromotedNow(Emit(s, Failed(lost)), c, c.streak + 1))
  {
    FailureCounts(threshold, s, lost);
    var s1 := Emit(s, Failed(lost));
    PromotionKeepsInv(threshold, s1, c, Recall(s1.log));
  }

  lemma RecordKeeps(threshold: int, s: Slot, protocol: Protocol, lost: bool)
    requires Inv(threshold, s) && s.cam.Some? && s.cam.value.phase != Streaming
    requires lost && !s.cam.value.forced ==> Recall(s.log).since == []
    ensures Inv(threshold, RecordTutkFailure(threshold, s, protocol, lost))
  {
    var c := s.cam.value;
    if protocol == Tutk && threshold > 0 && !c.forced {
      if c.streak + 1 < threshold {
        CountKeepsInv(threshold, s, c, lost);
      } else {
        ReachedKeepsInv(threshold, s, c, lost);
      }
    }
  }

  /** One more error, and the report that may come of it. */
  lemma ErrorKeepsInv(threshold: int, s: Slot)
    requires Inv(threshold, s) && s.cam.Some?
    ensures var c := ErrorAdded(s.cam.value);
            var s' := MaybeReportChronic(s.(cam := Some(c)), c.errors);
            Inv(threshold, s') && s'.cam == Some(c) && Recall(s'.log).since == Recall(s.log).since
  {
    var c := ErrorAdded(s.cam.value);
    if c.errors >= CHRONIC && !s.reported {
      SoundSnoc(threshold, s.log, Chronic(c.errors));
    }
  }

  lemma AttemptKeepsInv(threshold: int, s: Slot, attached: bool, added: bool)
    requires Inv(threshold, s) && s.cam.Some?
    ensures Inv(threshold, Attempt(threshold, s, attached, added))
  {
    ChangeKeepsInv(threshold, s, Connecting);
    var s1 := ChangePhase(s, Connecting);
    if attached {
      if added {
        ChangeKeepsInv(threshold, s1, Streaming);
      } else {
        ErrorKeepsInv(threshold, s1);
        var c := ErrorAdded(s1.cam.value);
        RecordKeeps(threshold, MaybeReportChronic(s1.(cam := Some(c)), c.errors), ProtocolOf(s1.cam.value), false);
      }
    }
  }

  lemma CheckKeepsInv(threshold: int, s: Slot, alive: bool)
    requires Inv(threshold, s) && s.cam.Some?
    ensures Inv(threshold, Checked(threshold, s, alive))
  {
    var c := s.cam.value;
    if c.phase == Streaming && !c.info.gwell && !alive {
      var s1 := s.(log := s.log + [Changed(Streaming, Failing)]);
      SoundSnoc(threshold, s.log, Changed(Streaming, Failing));
      ErrorKeepsInv(threshold, s1);
      var c1 := ErrorAdded(c);
      RecordKeeps(threshold, MaybeReportChronic(s1.(cam := Some(c1)), c1.errors), ProtocolOf(c1), true);
    }
  }

  lemma FoundKeepsInv(threshold: int, s: Slot, info: Info, quality: string)
    requires Inv(threshold, s)
    ensures Inv(threshold, Step(threshold, s, Found(info, quality)))
  {
    if s.cam.None? {
      SoundSnoc(threshold, s.log, Created);
    }
  }

  lemma ReapedKeepsInv(threshold: int, s: Slot)
    requires Inv(threshold, s)
    ensures Inv(threshold, Step(threshold, s, Reaped))
  {
    SoundSnoc(threshold, s.log, Dropped);
  }

  lemma QualityKeepsInv(threshold: int, s: Slot, q: string)
    requires Inv(threshold, s)
    ensures Inv(threshold, Step(threshold, s, SetQuality(q)))
  {
  }

  lemma StepKeepsInv(threshold: int, s: Slot, e: Event)
    requires Inv(threshold, s)
    ensures Inv(threshold, Step(threshold, s, e))
  {
    match e {
      case Found(info, quality) => FoundKeepsInv(threshold, s, info, quality);
      case Reaped => ReapedKeepsInv(threshold, s);
      case SetQuality(q) => QualityKeepsInv(threshold, s, q);
      case TakenOffline =>
        if s.cam.Some? {
          ChangeKeepsInv(threshold, s, Offline);
        }
      case Connect(attached, added) =>
        if s.cam.Some? {
          AttemptKeepsInv(threshold, s, attached, added);
        }
      case Check(alive) =>
        if s.cam.Some? {
          CheckKeepsInv(threshold, s, alive);
        }
    }
  }

  lemma {:induction false} RunKeepsInv(threshold: int, s: Slot, es: seq<Event>)
    requires Inv(threshold, s)
    ensures Inv(threshold, Run(threshold, s, es))
    decreases |es|
  {
    if es != [] {
      StepKeepsInv(threshold, s, es[0]);
      RunKeepsInv(threshold, Step(threshold, s, es[0]), es[1..]);
    }
  }

  // ------------------------------------------------------- what holds in every run

  /** In every run: a streaming camera has no errors and no TUTK failures counted, and
      with a threshold the failures of a camera that is not promoted stay below it; a
      promoted camera counts none and is never routed over TUTK. */
  lemma StreaksStayBelow(threshold: int, es: seq<Event>)
    ensures var s := Run(threshold, NEVER_SEEN, es);
            s.cam.Some? ==>
              var c := s.cam.value;
              && (c.phase == Streaming ==> c.errors == 0 && c.streak == 0)
              && (threshold > 0 && !c.forced ==> c.streak < threshold)
              && (c.forced ==> c.streak == 0 && ProtocolOf(c) == WebRtc)
              && (threshold <= 0 ==> c.streak == 0 && !c.forced)
  {
    RunKeepsInv(threshold, NEVER_SEEN, es);
  }

  /** In every run, a promotion comes exactly on the threshold-th failure counted since
      the camera last streamed, and of these failures only the first can be a stream
      that was lost. */
  lemma PromotedOnThreshold(threshold: int, es: seq<Event>, j: nat)
    requires var log := Run(threshold, NEVER_SEEN, es).log; j < |log| && log[j].Promoted?
    ensures var log := Run(threshold, NEVER_SEEN, es).log;
            var since := Recall(log[..j]).since;
            && threshold == log[j].streak == |since|
            && forall i :: 0 < i < |since| ==> !since[i]
  {
    RunKeepsInv(threshold, NEVER_SEEN, es);
    var log := Run(threshold, NEVER_SEEN, es).log;
    SoundAt(threshold, log, j);
    NoLosses(Recall(log[..j]).since);
  }

  lemma {:induction false} NoLosses(since: seq<bool>)
    requires Losses(since) == 0
    ensures forall i :: 0 < i < |since| ==> !since[i]
  {
    if |since| > 1 {
      NoLosses(since[..|since| - 1]);
    }
  }

  lemma {:induction false} PromotionsPersist(log: seq<Effect>, i: nat, j: nat)
    requires i < j <= |log| && log[i].Promoted?
    requires forall k :: i < k < j ==> log[k] != Created
    ensures Recall(log[..j]).promotions >= 1
    decreases j
  {
    assert log[..j][..j - 1] == log[..j - 1];
    if i < j - 1 {
      PromotionsPersist(log, i, j - 1);
    }
  }

  /** In every run, two promotions under one name have a new entry between them: an
      entry is promoted at most once. */
  lemma PromotedOnce(threshold: int, es: seq<Event>, i: nat, j: nat)
    requires var log := Run(threshold, NEVER_SEEN, es).log;
             i < j < |log| && log[i].Promoted? && log[j].Promoted?
    ensures exists k :: i < k < j && Run(threshold, NEVER_SEEN, es).log[k] == Created
  {
    RunKeepsInv(threshold, NEVER_SEEN, es);
    var log := Run(threshold, NEVER_SEEN, es).log;
    SoundAt(threshold, log, j);
    if forall k :: i < k < j ==> log[k] != Created {
      PromotionsPersist(log, i, j);
    }
  }

  /** A promotion lasts as long as the entry: whatever happens, short of dropping the
      entry, a promoted camera stays promoted and is routed over WebRTC. */
  lemma {:induction false} PromotionSticks(threshold: int, s: Slot, es: seq<Event>)
    requires s.cam.Some? && s.cam.value.forced && forall i :: 0 <= i < |es| ==> es[i] != Reaped
    ensures var s' := Run(threshold, s, es);
            s'.cam.Some? && s'.cam.value.forced && ProtocolOf(s'.cam.value) == WebRtc
    decreases |es|
  {
    if es != [] {
      PromotionSticks(threshold, Step(threshold, s, es[0]), es[1..]);
    }
  }

  /** In every run, chronic errors are reported and recovered from in turn, starting
      with a report, and each report comes with the tenth error. */
  lemma ReportsAlternate(threshold: int, es: seq<Event>, j: nat)
    requires j < |Run(threshold, NEVER_SEEN, es).log|
    ensures var log := Run(threshold, NEVER_SEEN, es).log;
            && (log[j].Chronic? ==> !Recall(log[..j]).reported && log[j].errors == CHRONIC)
            && (log[j].Recovered? ==> Recall(log[..j]).reported)
  {
    RunKeepsInv(threshold, NEVER_SEEN, es);
    var log := Run(threshold, NEVER_SEEN, es).log;
    SoundAt(threshold, log, j);
  }

  /** In every run, a chronic error stands reported exactly when the camera has ten
      errors or more, or when an entry was dropped with its report standing and no
      camera under that name streamed since. */
  lemma ReportedIff(threshold: int, es: seq<Event>)
    ensures var s := Run(threshold, NEVER_SEEN, es);
            s.reported <==> Recall(s.log).stale || (s.cam.Some? && s.cam.value.errors >= CHRONIC)
  {
    RunKeepsInv(threshold, NEVER_SEEN, es);
  }

  // ------------------------------------------------------------ where it goes wrong

  /** A report outlives its entry: after a camera with a reported error is dropped, a
      new camera under that name stands reported without a single error, and will not
      be reported itself. */
  lemma ReportOutlivesEntry(threshold: int, s: Slot, info: Info, quality: string)
    requires s.cam.Some? && s.reported
    ensures var s' := Run(threshold, s, [Reaped, Found(info, quality)]);
            s'.reported && s'.cam.Some? && s'.cam.value.errors == 0
  {
    var es := [Reaped, Found(info, quality)];
    assert es[1..] == [Found(info, quality)] && es[1..][1..] == [];
    var s1 := Step(threshold, s, es[0]);
    assert Run(threshold, s, es) == Run(threshold, s1, es[1..]);
    assert Run(threshold, s1, es[1..]) == Run(threshold, Step(threshold, s1, es[1..][0]), []);
  }

  /** `k` failed attempts to connect. */
  function Failures(k: nat): (es: seq<Event>)
    ensures |es| == k && forall i :: 0 <= i < k ==> es[i] == Connect(true, false)
  {
    seq(k, _ => Connect(true, false))
  }

  lemma {:induction false} RunConcat(threshold: int, s: Slot, a: seq<Event>, b: seq<Event>)
    ensures Run(threshold, s, a + b) == Run(threshold, Run(threshold, s, a), b)
    decreases |a|
  {
    if a == [] {
      assert a + b == b;
    } else {
      assert (a + b)[1..] == a[1..] + b;
      RunConcat(threshold, Step(threshold, s, a[0]), a[1..], b);
    }
  }

  /** Each failed attempt is an error, and from ten on there is a report. */
  lemma {:induction false} FailuresAddUp(threshold: int, s: Slot, k: nat)
    requires s.cam.Some?
    ensures var s' := Run(threshold, s, Failures(k));
            && s'.cam.Some? && s'.cam.value.errors == s.cam.value.errors + k
            && (k != 0 ==> (s'.reported <==> s.reported || s.cam.value.errors + k >= CHRONIC))
    decreases k
  {
    if k != 0 {
      var s1 := Step(threshold, s, Connect(true, false));
      assert Failures(k)[0] == Connect(true, false) && Failures(k)[1..] == Failures(k - 1);
      assert s1.cam.Some? && s1.cam.value.errors == s.cam.value.errors + 1;
      assert s1.reported <==> s.reported || s1.cam.value.errors >= CHRONIC;
      FailuresAddUp(threshold, s1, k - 1);
    }
  }

  /** The run in which that happens: a new camera fails ten times, its entry is dropped, and
      a camera under its name is found. */
  lemma ReportOutlivesRun(threshold: int, info: Info, quality: string)
    ensures var es := [Found(info, quality)] + Failures(CHRONIC) + [Reaped, Found(info, quality)];
            var s := Run(threshold, NEVER_SEEN, es);
            s.reported && s.cam.Some? && s.cam.value.errors == 0
  {
    var first, fails, rest := [Found(info, quality)], Failures(CHRONIC), [Reaped, Found(info, quality)];
    var found := Step(threshold, NEVER_SEEN, Found(info, quality));
    assert first[1..] == [] && Run(threshold, found, []) == found;
    FailuresAddUp(threshold, found, CHRONIC);
    RunConcat(threshold, NEVER_SEEN, first, fails);
    RunConcat(threshold, NEVER_SEEN, first + fails, rest);
    ReportOutlivesEntry(threshold, Run(threshold, found, fails), info, quality);
  }

  /** Changing the quality re-adds the stream with the camera's own source, which is the
      one it is routed to exactly when it is routed over TUTK: a promoted camera, or one
      whose model streams over WebRTC, is put back on TUTK. */
  lemma QualityKeepsRouteIff(c: Cam, liveRing: bool)
    ensures StreamUrl(c, liveRing) == SourceOf(c, liveRing) <==> ProtocolOf(c) == Tutk
  {
  }

  // ---------------------------------------------------------------------- backoff

  /** Seconds to wait after `errors` errors. */
  function Backoff(errors: nat): nat {
    if 5 * Bits.Pow2(errors) <= 300 then 5 * Bits.Pow2(errors) else 300
  }

  lemma {:induction false} Pow2Monotone(m: nat, n: nat)
    requires m <= n
    ensures Bits.Pow2(m) <= Bits.Pow2(n)
    decreases n
  {
    if m < n {
      Pow2Monotone(m, n - 1);
    }
  }

  /** The wait starts at five seconds, doubles up to five errors and is five minutes
      exactly from the sixth on. */
  lemma BackoffGrows(n: nat)
    ensures Backoff(0) == 5
    ensures Backoff(n) <= Backoff(n + 1) <= 2 * Backoff(n)
    ensures Backoff(n) == 300 <==> n >= 6
    ensures Backoff(n + 1) == 2 * Backoff(n) <==> n + 1 <= 5
  {
    assert Bits.Pow2(5) == 32 && Bits.Pow2(6) == 64;
    if n <= 5 {
      Pow2Monotone(n, 5);
    } else {
      Pow2Monotone(6, n);
    }
  }
}
