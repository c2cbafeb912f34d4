/** The camera manager: cameras under their names, updated in place. */
module CameraManager {
  import opened Wrappers
  import opened CameraSlot
  import opened Discovery

  class Camera {
    var info: Info
    var phase: Phase
    var quality: string
    var errors: nat
    var streak: nat
    var forced: bool

    ghost function View(): Cam
      reads this
    {
      Cam(info, phase, quality, errors, streak, forced)
    }

    constructor (info: Info, quality: string)
      ensures View() == Cam(info, Offline, quality, 0, 0, false)
    {
      this.info, this.quality := info, quality;
      phase, errors, streak, forced := Offline, 0, 0, false;
    }

    method SetState(p: Phase)
      modifies this
      ensures View() == PhaseSet(old(View()), p)
    {
      phase := p;
      if p == Streaming {
        errors := 0;
        streak := 0;
      }
    }

    /** Counts an error and returns how long to wait before the next attempt. */
    method IncrementError() returns (wait: nat)
      modifies this
      ensures View() == ErrorAdded(old(View())) && wait == Backoff(errors)
    {
      errors := errors + 1;
      phase := Failing;
      wait := BackoffDuration();
    }

    method IncrementTUTKFail() returns (n: nat)
      modifies this`streak
      ensures n == streak == old(streak) + 1
    {
      streak := streak + 1;
      n := streak;
    }

    method ResetTUTKFail()
      modifies this`streak
      ensures streak == 0
    {
      streak := 0;
    }

    method SetForceWebRTC(on: bool) returns (changed: bool)
      modifies this`forced
      ensures forced == on && changed == (old(forced) != on)
    {
      if forced == on {
        return false;
      }
      forced := on;
      changed := true;
    }

    /** The wait in seconds: five, doubled for every error, five minutes at most. */
    method BackoffDuration() returns (d: nat)
      ensures d == Backoff(errors)
    {
      d := 5;
      for i := 0 to errors
        invariant d == 5 * Bits.Pow2(i) && d <= 300
      {
        d := d * 2;
        if d > 300 {
          Pow2Monotone(i + 1, errors);
          return 300;
        }
      }
    }

    method UpdateInfo(info: Info)
      modifies this`info
      ensures this.info == info
    {
      this.info := info;
    }

    method SetQuality(q: string)
      modifies this`quality
      ensures quality == q
    {
      quality := q;
    }
  }

  class Manager {
    const threshold: int
    const liveRing: bool
    const gwellEnabled: bool
    const filter: Filter
    /** The configured quality of a camera. */
    const camQuality: string -> string
    /** Whether the client of the streaming server is attached. */
    var attached: bool
    var cameras: map<string, Camera>
    var chronicReported: set<string>
    ghost var logs: map<string, seq<Effect>>

    ghost predicate Valid()
      reads this, set n | n in cameras :: cameras[n]
    {
      && (forall m, n :: m in cameras && n in cameras && m != n ==> cameras[m] != cameras[n])
      && forall n :: n in cameras ==> cameras[n].info.name == n
    }

    ghost function Log(n: string): seq<Effect>
      reads this`logs
    {
      if n in logs then logs[n] else []
    }

    ghost function At(n: string): Slot
      reads this, if n in cameras then {cameras[n]} else {}
    {
      Slot(if n in cameras then Some(cameras[n].View()) else None, n in chronicReported, Log(n))
    }

    constructor (threshold: int, liveRing: bool, gwellEnabled: bool, filter: Filter, camQuality: string -> string)
      ensures Valid() && !attached && cameras == map[] && forall n :: At(n) == NEVER_SEEN
    {
      this.threshold, this.liveRing, this.camQuality := threshold, liveRing, camQuality;
      this.gwellEnabled, this.filter := gwellEnabled, filter;
      attached, cameras, chronicReported, logs := false, map[], {}, map[];
    }

    ghost method Emit(n: string, e: Effect)
      modifies this`logs
      ensures Log(n) == old(Log(n)) + [e] && forall k :: k != n ==> Log(k) == old(Log(k))
    {
      logs := logs[n := Log(n) + [e]];
    }

    method SetGo2RTCAPI()
      modifies this`attached
      ensures attached
    {
      attached := true;
    }

    function StreamSourceFor(c: Camera): (r: (Source, Protocol))
      reads c
      ensures r.0 == SourceOf(c.View(), liveRing) && r.1 == ProtocolOf(c.View())
    {
      if c.forced || c.info.webrtc then (WebRtcShim(c.info.name), WebRtc)
      else if c.info.gwell then (PublishOnly, Gwell)
      else (Wyze(c.info, c.quality, liveRing && c.info.doorbell && !c.info.webrtc), Tutk)
    }

    method ClearChronic(n: string)
      modifies this`chronicReported, this`logs
      ensures n !in chronicReported
      ensures Log(n) == old(Log(n)) + if old(n in chronicReported) then [Recovered] else []
      ensures forall k :: k != n ==> Log(k) == old(Log(k)) && (k in chronicReported <==> k in old(chronicReported))
    {
      var had := n in chronicReported;
      if had {
        chronicReported := chronicReported - {n};
        Emit(n, Recovered);
      }
    }

    method MaybeReportChronic(n: string, errors: nat)
      requires Valid()
      modifies this`chronicReported, this`logs
      ensures Valid() && At(n) == CameraSlot.MaybeReportChronic(old(At(n)), errors)
      ensures forall k :: k != n ==> At(k) == old(At(k))
    {
      if errors < CHRONIC {
        return;
      }
      var already := n in chronicReported;
      if !already {
        chronicReported := chronicReported + {n};
        Emit(n, Chronic(errors));
      }
    }

    method ChangeState(n: string, p: Phase)
      requires Valid() && n in cameras
      modifies this`chronicReported, this`logs, cameras[n]
      ensures Valid() && At(n) == ChangePhase(old(At(n)), p)
      ensures forall k :: k != n ==> At(k) == old(At(k))
    {
      var cam := cameras[n];
      var was := cam.phase;
      if was == p {
        return;
      }
      cam.SetState(p);
      if p == Streaming {
        ClearChronic(n);
      }
      Emit(n, Changed(was, p));
    }

    method RecordTUTKFailure(n: string, protocol: Protocol, ghost lost: bool)
      requires Valid() && n in cameras
      modifies this`logs, cameras[n]
      ensures Valid() && At(n) == RecordTutkFailure(threshold, old(At(n)), protocol, lost)
      ensures forall k :: k != n ==> At(k) == old(At(k))
    {
      var cam := cameras[n];
      if protocol != Tutk || threshold <= 0 || cam.forced {
        return;
      }
      var streak := cam.IncrementTUTKFail();
      Emit(n, Failed(lost));
      if streak < threshold {
        return;
      }
      var changed := cam.SetForceWebRTC(true);
      if !changed {
        return;
      }
      cam.ResetTUTKFail();
      Emit(n, Promoted(streak));
    }

    /** One attempt to connect a camera; `added` is whether the server took the stream. */
    method ConnectCamera(n: string, added: bool)
      requires Valid() && n in cameras
      modifies this`chronicReported, this`logs, cameras[n]
      ensures Valid() && At(n) == Attempt(threshold, old(At(n)), attached, added)
      ensures forall k :: k != n ==> At(k) == old(At(k))
    {
      var cam := cameras[n];
      ChangeState(n, Connecting);
      if !attached {
        return;
      }
      var (url, protocol) := StreamSourceFor(cam);
      if !added {
        var wait := cam.IncrementError();
        MaybeReportChronic(n, cam.errors);
        RecordTUTKFailure(n, protocol, false);
        return;
      }
      ChangeState(n, Streaming);
    }

    method CheckOne(n: string, alive: bool)
      requires Valid() && n in cameras
      modifies this`chronicReported, this`logs, cameras[n]
      ensures Valid() && At(n) == Step(threshold, old(At(n)), Check(alive))
      ensures forall k :: k != n ==> At(k) == old(At(k))
    {
      var cam := cameras[n];
      if cam.phase != Streaming || cam.info.gwell || alive {
        return;
      }
      var was := cam.phase;
      var wait := cam.IncrementError();
      if was != Failing {
        Emit(n, Changed(was, Failing));
      }
      MaybeReportChronic(n, cam.errors);
      var (url, protocol) := StreamSourceFor(cam);
      RecordTUTKFailure(n, protocol, true);
    }

    /** One health check; `alive` are the names the server lists with a producer, or
        nothing when listing fails. The cameras are visited in any order. */
    method HealthCheck(alive: Option<set<string>>)
      requires Valid()
      modifies this`chronicReported, this`logs, set n | n in cameras :: cameras[n]
      ensures Valid() && cameras == old(cameras)
      ensures forall n :: At(n) == if attached && alive.Some? then Step(threshold, old(At(n)), Check(n in alive.value))
                                  else old(At(n))
    {
      if !attached || alive.None? {
        return;
      }
      var todo := cameras.Keys;
      while todo != {}
        invariant Valid() && todo <= cameras.Keys
        invariant forall n :: At(n) == if n in todo then old(At(n))
                                      else Step(threshold, old(At(n)), Check(n in alive.value))
        decreases todo
      {
        var n :| n in todo;
        assert At(n) == old(At(n));
        CheckOne(n, n in alive.value);
        todo := todo - {n};
      }
    }

    /** Changes the quality; the stream is removed and added again with the source that
        is returned, if there is such a camera and a client. */
    method SetQuality(n: string, q: string) returns (source: Option<Source>)
      requires Valid()
      modifies if n in cameras then {cameras[n]} else {}
      ensures Valid() && At(n) == Step(threshold, old(At(n)), CameraSlot.SetQuality(q))
      ensures forall k :: k != n ==> At(k) == old(At(k))
      ensures source == if At(n).cam.Some? && attached then Some(StreamUrl(At(n).cam.value, liveRing)) else None
    {
      if n !in cameras {
        return None;
      }
      var cam := cameras[n];
      cam.SetQuality(q);
      if !attached {
        return None;
      }
      source := Some(Wyze(cam.info, cam.quality, liveRing && cam.info.doorbell && !cam.info.webrtc));
    }

    method RestartStream(n: string, added: bool)
      requires Valid()
      modifies this`chronicReported, this`logs, if n in cameras then {cameras[n]} else {}
      ensures Valid() && At(n) == Run(threshold, old(At(n)), [TakenOffline, Connect(attached, added)])
      ensures forall k :: k != n ==> At(k) == old(At(k))
    {
      TwoSteps(threshold, At(n), TakenOffline, Connect(attached, added));
      if n !in cameras {
        return;
      }
      ChangeState(n, Offline);
      ConnectCamera(n, added);
    }

    method StartStream(n: string, added: bool)
      requires Valid()
      modifies this`chronicReported, this`logs, if n in cameras then {cameras[n]} else {}
      ensures Valid()
      ensures At(n) == if n in cameras && old(At(n)).cam.value.phase == Streaming then old(At(n))
                       else Run(threshold, old(At(n)), [TakenOffline, Connect(attached, added)])
      ensures forall k :: k != n ==> At(k) == old(At(k))
    {
      TwoSteps(threshold, At(n), TakenOffline, Connect(attached, added));
      if n !in cameras {
        return;
      }
      if cameras[n].phase == Streaming {
        return;
      }
      ChangeState(n, Offline);
      ConnectCamera(n, added);
    }

    method StopStream(n: string)
      requires Valid()
      modifies this`chronicReported, this`logs, if n in cameras then {cameras[n]} else {}
      ensures Valid() && At(n) == Step(threshold, old(At(n)), TakenOffline)
      ensures forall k :: k != n ==> At(k) == old(At(k))
    {
      if n !in cameras {
        return;
      }
      ChangeState(n, Offline);
    }

    method SightOne(info: Info)
      requires Valid()
      modifies this`cameras, this`logs, if info.name in cameras then {cameras[info.name]} else {}
      ensures Valid() && At(info.name) == Step(threshold, old(At(info.name)), Found(info, camQuality(info.name)))
      ensures forall k :: k != info.name ==> At(k) == old(At(k))
      ensures forall k :: k in cameras ==> fresh(cameras[k]) || (k in old(cameras) && cameras[k] == old(cameras)[k])
    {
      var name := info.name;
      if name in cameras {
        cameras[name].UpdateInfo(info);
      } else {
        var cam := new Camera(info, camQuality(name));
        cameras := cameras[name := cam];
        Emit(name, Created);
      }
    }

    /** Enters the cameras of a list. */
    method Sight(infos: seq<Info>)
      requires Valid()
      modifies this`cameras, this`logs, set n | n in cameras :: cameras[n]
      ensures Valid()
      ensures forall n :: n in cameras ==> fresh(cameras[n]) || (n in old(cameras) && cameras[n] == old(cameras)[n])
      ensures forall n :: At(n) == Sighted(threshold, old(At(n)), n, infos, camQuality)
    {
      for i := 0 to |infos|
        invariant Valid()
        invariant forall n :: n in cameras ==> fresh(cameras[n]) || (n in old(cameras) && cameras[n] == old(cameras)[n])
        invariant forall n :: At(n) == Sighted(threshold, old(At(n)), n, infos[..i], camQuality)
      {
        assert infos[..i + 1][..i] == infos[..i];
        SightOne(infos[i]);
      }
      assert infos[..|infos|] == infos;
    }

    method NewNames(infos: seq<Info>) returns (newByMac: map<string, string>)
      ensures newByMac == NameByMac(infos)
    {
      newByMac := map[];
      for i := 0 to |infos|
        invariant newByMac == NameByMac(infos[..i])
      {
        assert infos[..i + 1][..i] == infos[..i];
        if infos[i].mac != "" {
          newByMac := newByMac[infos[i].mac := infos[i].name];
        }
      }
      assert infos[..|infos|] == infos;
    }

    method ReapOne(n: string, newByMac: map<string, string>)
      requires n in cameras
      modifies this`cameras, this`logs
      ensures At(n) == Reap(old(At(n)), n, newByMac)
      ensures forall k :: k != n ==> At(k) == old(At(k))
      ensures forall k :: k in cameras ==> k in old(cameras) && cameras[k] == old(cameras)[k]
    {
      var info := cameras[n].info;
      if info.mac != "" && info.mac in newByMac && newByMac[info.mac] != n {
        cameras := cameras - {n};
        Emit(n, Dropped);
      }
    }

    method ReapAll(newByMac: map<string, string>)
      modifies this`cameras, this`logs
      ensures forall n :: n in cameras ==> n in old(cameras) && cameras[n] == old(cameras)[n]
      ensures forall n :: At(n) == Reap(old(At(n)), n, newByMac)
    {
      var todo := cameras.Keys;
      while todo != {}
        invariant forall n :: n in cameras ==> n in old(cameras) && cameras[n] == old(cameras)[n]
        invariant forall n :: n in todo ==> At(n) == old(At(n)) && At(n).cam.Some?
        invariant forall n :: n !in todo ==> At(n) == Reap(old(At(n)), n, newByMac)
        decreases todo
      {
        var n :| n in todo;
        assert At(n).cam.Some?;
        ReapOne(n, newByMac);
        todo := todo - {n};
      }
    }

    /** Drops the entries whose camera was seen under another name. */
    method ReapRenameOrphans(infos: seq<Info>)
      requires Valid()
      modifies this`cameras, this`logs
      ensures Valid()
      ensures forall n :: n in cameras ==> n in old(cameras) && cameras[n] == old(cameras)[n]
      ensures forall n :: At(n) == Reap(old(At(n)), n, NameByMac(infos))
    {
      var newByMac := NewNames(infos);
      ReapAll(newByMac);
    }

    method LeaveOne(n: string, seen: set<string>)
      requires Valid() && n in cameras
      modifies this`chronicReported, this`logs, cameras[n]
      ensures Valid() && At(n) == MarkOffline(threshold, old(At(n)), n, seen)
      ensures forall k :: k != n ==> At(k) == old(At(k))
    {
      if n !in seen && cameras[n].phase != Offline {
        ChangeState(n, Offline);
      }
    }

    /** Takes the cameras offline that were not seen. */
    method TakeOffline(seen: set<string>)
      requires Valid()
      modifies this`chronicReported, this`logs, set n | n in cameras :: cameras[n]
      ensures Valid() && cameras == old(cameras)
      ensures forall n :: At(n) == MarkOffline(threshold, old(At(n)), n, seen)
    {
      var todo := cameras.Keys;
      while todo != {}
        invariant Valid() && todo <= cameras.Keys
        invariant forall n :: At(n) == if n in todo then old(At(n)) else MarkOffline(threshold, old(At(n)), n, seen)
        decreases todo
      {
        var n :| n in todo;
        assert At(n) == old(At(n));
        LeaveOne(n, seen);
        todo := todo - {n};
      }
    }

    method SupportedOf(cameras: seq<Info>) returns (supported: seq<Info>)
      ensures supported == Supported(cameras, gwellEnabled)
    {
      supported := [];
      for i := 0 to |cameras|
        invariant supported == Supported(cameras[..i], gwellEnabled)
      {
        assert cameras[..i + 1][..i] == cameras[..i];
        if !(cameras[i].gwell && !gwellEnabled) {
          supported := supported + [cameras[i]];
        }
      }
      assert cameras[..|cameras|] == cameras;
    }

    method ApplyFilter(cameras: seq<Info>) returns (result: seq<Info>)
      ensures result == Filtered(filter, cameras)
    {
      if !filter.has {
        return cameras;
      }
      result := [];
      for i := 0 to |cameras|
        invariant result == Passing(filter, cameras[..i])
      {
        assert cameras[..i + 1][..i] == cameras[..i];
        var matched := filter.matches(cameras[i]);
        if filter.block {
          if !matched {
            result := result + [cameras[i]];
          }
        } else {
          if matched {
            result := result + [cameras[i]];
          }
        }
      }
      assert cameras[..|cameras|] == cameras;
      if |result| == 0 {
        return cameras;
      }
    }

    /** One discovery of the cameras of the account; without a list nothing happens. */
    method Discover(list: Option<seq<Info>>)
      requires Valid()
      modifies this, set n | n in cameras :: cameras[n]
      ensures Valid() && attached == old(attached)
      ensures forall n :: At(n) ==
                if list.None? then old(At(n))
                else DiscoverAt(threshold, old(At(n)), n, Listed(filter, gwellEnabled, list.value), camQuality)
    {
      if list.None? {
        return;
      }
      var supported := SupportedOf(list.value);
      var infos := ApplyFilter(supported);
      Sight(infos);
      ReapRenameOrphans(infos);
      TakeOffline(Names(infos));
    }
  }

  lemma TwoSteps(threshold: int, s: Slot, a: Event, b: Event)
    ensures Run(threshold, s, [a, b]) == Step(threshold, Step(threshold, s, a), b)
  {
    assert [a, b][1..] == [b] && [b][1..] == [];
    assert Run(threshold, Step(threshold, s, a), [b]) == Step(threshold, Step(threshold, s, a), b) by {
      assert Run(threshold, Step(threshold, Step(threshold, s, a), b), []) == Step(threshold, Step(threshold, s, a), b);
    }
  }
}
