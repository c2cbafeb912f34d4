/** Discovery over all camera names: which entries a list of cameras creates, updates,
    drops and takes offline. */
module Discovery {
  import opened Wrappers
  import opened CameraSlot

  /** The state of every name. */
  type Slots = string -> Slot

  // ---------------------------------------------------------- what is discovered

  /** The user's filter: whether any list was given, whether listed cameras are blocked
      instead of allowed, and which cameras the lists match. */
  datatype Filter = Filter(has: bool, block: bool, matches: Info -> bool)

  /** Gwell cameras count only if they are enabled. */
  function Supported(infos: seq<Info>, gwellEnabled: bool): seq<Info> {
    if infos == [] then []
    else
      var rest, last := Supported(infos[..|infos| - 1], gwellEnabled), infos[|infos| - 1];
      if last.gwell && !gwellEnabled then rest else rest + [last]
  }

  /** The cameras that are not blocked, or that are allowed. */
  function Passing(f: Filter, infos: seq<Info>): seq<Info> {
    if infos == [] then []
    else
      var rest, last := Passing(f, infos[..|infos| - 1]), infos[|infos| - 1];
      if f.matches(last) == f.block then rest else rest + [last]
  }

  /** A filter that lets nothing pass is ignored. */
  function Filtered(f: Filter, infos: seq<Info>): seq<Info> {
    if !f.has || Passing(f, infos) == [] then infos else Passing(f, infos)
  }

  /** The cameras of the account that a discovery is about. */
  function Listed(f: Filter, gwellEnabled: bool, infos: seq<Info>): seq<Info> {
    Filtered(f, Supported(infos, gwellEnabled))
  }

  lemma {:induction false} SupportedAre(infos: seq<Info>, gwellEnabled: bool, info: Info)
    ensures info in Supported(infos, gwellEnabled) <==> info in infos && (info.gwell ==> gwellEnabled)
  {
    if infos != [] {
      var k := |infos| - 1;
      SupportedAre(infos[..k], gwellEnabled, info);
      assert info in infos <==> info in infos[..k] || info == infos[k];
    }
  }

  lemma {:induction false} PassingAre(f: Filter, infos: seq<Info>, info: Info)
    ensures info in Passing(f, infos) <==> info in infos && f.matches(info) != f.block
  {
    if infos != [] {
      var k := |infos| - 1;
      PassingAre(f, infos[..k], info);
      assert info in infos <==> info in infos[..k] || info == infos[k];
    }
  }

  /** A camera of the account is listed exactly when it is supported and the filter lets
      it pass, or would let no supported camera pass. */
  lemma ListedAre(f: Filter, gwellEnabled: bool, infos: seq<Info>, info: Info)
    ensures info in Listed(f, gwellEnabled, infos) <==>
            && info in infos && (info.gwell ==> gwellEnabled)
            && (|| !f.has || f.matches(info) != f.block
                || forall i :: i in infos && (i.gwell ==> gwellEnabled) ==> f.matches(i) == f.block)
  {
    var supported := Supported(infos, gwellEnabled);
    forall i
      ensures i in supported <==> i in infos && (i.gwell ==> gwellEnabled)
      ensures i in Passing(f, supported) <==> i in supported && f.matches(i) != f.block
    {
      SupportedAre(infos, gwellEnabled, i);
      PassingAre(f, supported, i);
    }
    if Passing(f, supported) != [] {
      assert Passing(f, supported)[0] in Passing(f, supported);
    }
  }

  // -------------------------------------------------------------- one discovery

  function Names(infos: seq<Info>): set<string> {
    set i | 0 <= i < |infos| :: infos[i].name
  }

  /** The name under which a MAC address was seen last. */
  function NameByMac(infos: seq<Info>): map<string, string> {
    if infos == [] then map[]
    else
      var rest, last := NameByMac(infos[..|infos| - 1]), infos[|infos| - 1];
      if last.mac == "" then rest else rest[last.mac := last.name]
  }

  /** The slot of a name after every camera of that name was entered. */
  function Sighted(threshold: int, s: Slot, n: string, infos: seq<Info>, quality: string -> string): Slot
    decreases |infos|
  {
    if infos == [] then s
    else
      var rest, last := Sighted(threshold, s, n, infos[..|infos| - 1], quality), infos[|infos| - 1];
      if last.name == n then Step(threshold, rest, Found(last, quality(n))) else rest
  }

  /** An entry whose MAC address was seen under another name. */
  predicate Orphan(s: Slot, n: string, names: map<string, string>) {
    && s.cam.Some? && s.cam.value.info.mac != ""
    && s.cam.value.info.mac in names && names[s.cam.value.info.mac] != n
  }

  function Reap(s: Slot, n: string, names: map<string, string>): Slot {
    if Orphan(s, n, names) then Emit(s.(cam := None), Dropped) else s
  }

  function MarkOffline(threshold: int, s: Slot, n: string, seen: set<string>): Slot {
    if n in seen then s else Step(threshold, s, TakenOffline)
  }

  function DiscoverAt(threshold: int, s: Slot, n: string, infos: seq<Info>, quality: string -> string): Slot {
    MarkOffline(threshold, Reap(Sighted(threshold, s, n, infos, quality), n, NameByMac(infos)), n, Names(infos))
  }

  // --------------------------------------------------------- what an entry becomes

  /** The last camera of a name in the list. */
  function LastNamed(infos: seq<Info>, n: string): Option<Info> {
    if infos == [] then None
    else if infos[|infos| - 1].name == n then Some(infos[|infos| - 1])
    else LastNamed(infos[..|infos| - 1], n)
  }

  lemma {:induction false} LastNamedIsThere(infos: seq<Info>, n: string)
    ensures LastNamed(infos, n).Some? <==> n in Names(infos)
    ensures LastNamed(infos, n).Some? ==> LastNamed(infos, n).value in infos && LastNamed(infos, n).value.name == n
  {
    if infos != [] {
      var k := |infos| - 1;
      LastNamedIsThere(infos[..k], n);
      assert Names(infos) == Names(infos[..k]) + {infos[k].name};
    }
  }

  /** A camera with this MAC address is in the list. */
  ghost predicate HasMac(infos: seq<Info>, mac: string) {
    mac != "" && exists i :: 0 <= i < |infos| && infos[i].mac == mac
  }

  /** The name of the last camera with this MAC address. */
  function LastWithMac(infos: seq<Info>, mac: string): string {
    if infos == [] then ""
    else if infos[|infos| - 1].mac == mac then infos[|infos| - 1].name
    else LastWithMac(infos[..|infos| - 1], mac)
  }

  lemma {:induction false} NameByMacIs(infos: seq<Info>, mac: string)
    ensures mac in NameByMac(infos) <==> HasMac(infos, mac)
    ensures mac in NameByMac(infos) ==> NameByMac(infos)[mac] == LastWithMac(infos, mac)
  {
    if infos != [] {
      var k := |infos| - 1;
      NameByMacIs(infos[..k], mac);
      assert infos == infos[..k] + [infos[k]];
      assert HasMac(infos, mac) <==> HasMac(infos[..k], mac) || (mac != "" && infos[k].mac == mac);
    }
  }

  /** Entering the cameras of a list gives a name the last one's information, and
      leaves everything else of an entry that was there. */
  lemma {:induction false} SightedIs(threshold: int, s: Slot, n: string, infos: seq<Info>, quality: string -> string)
    ensures var s', last := Sighted(threshold, s, n, infos, quality), LastNamed(infos, n);
            && (last.None? ==> s' == s)
            && (last.Some? ==>
                  && s'.cam == Some(if s.cam.Some? then s.cam.value.(info := last.value)
                                    else Cam(last.value, Offline, quality(n), 0, 0, false))
                  && s'.reported == s.reported)
    decreases |infos|
  {
    if infos != [] {
      SightedIs(threshold, s, n, infos[..|infos| - 1], quality);
    }
  }

  // ------------------------------------------------------------- all the entries

  /** Every entry is filed under its camera's name. */
  ghost predicate Keyed(at: Slots) {
    forall n :: at(n).cam.Some? ==> at(n).cam.value.info.name == n
  }

  predicate SameMac(s: Slot, t: Slot) {
    s.cam.Some? && t.cam.Some? && s.cam.value.info.mac != "" && s.cam.value.info.mac == t.cam.value.info.mac
  }

  /** No two entries have the same MAC address. */
  ghost predicate MacsDistinct(at: Slots) {
    forall m, n :: SameMac(at(m), at(n)) ==> m == n
  }

  ghost function Discovered(threshold: int, at: Slots, infos: seq<Info>, quality: string -> string): Slots {
    n => DiscoverAt(threshold, at(n), n, infos, quality)
  }

  /** What discovery makes of one name that is in the list. */
  lemma FoundIs(threshold: int, s: Slot, n: string, infos: seq<Info>, quality: string -> string)
    requires LastNamed(infos, n).Some?
    ensures var s', last := DiscoverAt(threshold, s, n, infos, quality), LastNamed(infos, n).value;
            && (s'.cam.Some? <==> last.mac == "" || LastWithMac(infos, last.mac) == n)
            && (s'.cam.Some? ==>
                  s'.cam.value == if s.cam.Some? then s.cam.value.(info := last)
                                  else Cam(last, Offline, quality(n), 0, 0, false))
  {
    var last := LastNamed(infos, n).value;
    SightedIs(threshold, s, n, infos, quality);
    LastNamedIsThere(infos, n);
    NameByMacIs(infos, last.mac);
    assert last.mac != "" ==> HasMac(infos, last.mac);
  }

  /** What discovery makes of one name that is not. */
  lemma AbsentIs(threshold: int, s: Slot, n: string, infos: seq<Info>, quality: string -> string)
    requires LastNamed(infos, n).None?
    ensures var s' := DiscoverAt(threshold, s, n, infos, quality);
            && (s'.cam.Some? <==>
                  && s.cam.Some?
                  && (!HasMac(infos, s.cam.value.info.mac) || LastWithMac(infos, s.cam.value.info.mac) == n))
            && (s'.cam.Some? ==> s'.cam.value == PhaseSet(s.cam.value, Offline))
  {
    SightedIs(threshold, s, n, infos, quality);
    LastNamedIsThere(infos, n);
    if s.cam.Some? {
      NameByMacIs(infos, s.cam.value.info.mac);
    }
  }

  lemma {:induction false} LastWithMacIsNamed(infos: seq<Info>, mac: string)
    requires HasMac(infos, mac)
    ensures LastWithMac(infos, mac) in Names(infos)
    ensures exists i :: 0 <= i < |infos| && infos[i].mac == mac && infos[i].name == LastWithMac(infos, mac)
  {
    var k := |infos| - 1;
    if infos[k].mac != mac {
      var i :| 0 <= i < |infos| && infos[i].mac == mac;
      assert infos[..k][i].mac == mac;
      LastWithMacIsNamed(infos[..k], mac);
      var j :| 0 <= j < k && infos[..k][j].mac == mac && infos[..k][j].name == LastWithMac(infos[..k], mac);
      assert infos[j].mac == mac;
    }
  }

  /** After a discovery every entry that was not in its list is offline. */
  lemma AbsentAreOffline(threshold: int, at: Slots, infos: seq<Info>, quality: string -> string, n: string)
    requires n !in Names(infos)
    ensures var s := Discovered(threshold, at, infos, quality)(n); s.cam.Some? ==> s.cam.value.phase == Offline
  {
    LastNamedIsThere(infos, n);
    AbsentIs(threshold, at(n), n, infos, quality);
  }

  /** An entry that is left and whose MAC address is in the list has the name under which
      that was seen last; otherwise it is the old entry's. */
  lemma EntryMac(threshold: int, at: Slots, infos: seq<Info>, quality: string -> string, n: string)
    requires Keyed(at) && Discovered(threshold, at, infos, quality)(n).cam.Some?
    ensures var info := Discovered(threshold, at, infos, quality)(n).cam.value.info;
            && info.name == n
            && (if HasMac(infos, info.mac) then LastWithMac(infos, info.mac) == n
                else info.mac == "" || (at(n).cam.Some? && at(n).cam.value.info.mac == info.mac))
  {
    LastNamedIsThere(infos, n);
    if n in Names(infos) {
      FoundIs(threshold, at(n), n, infos, quality);
    } else {
      AbsentIs(threshold, at(n), n, infos, quality);
    }
  }

  /** Discovery keeps every entry under its camera's name and MAC addresses distinct. */
  lemma DiscoverKeepsMap(threshold: int, at: Slots, infos: seq<Info>, quality: string -> string)
    requires Keyed(at) && MacsDistinct(at)
    ensures Keyed(Discovered(threshold, at, infos, quality)) && MacsDistinct(Discovered(threshold, at, infos, quality))
  {
    var at' := Discovered(threshold, at, infos, quality);
    forall n | at'(n).cam.Some?
      ensures at'(n).cam.value.info.name == n
    {
      EntryMac(threshold, at, infos, quality, n);
    }
    forall m, n | SameMac(at'(m), at'(n))
      ensures m == n
    {
      EntryMac(threshold, at, infos, quality, m);
      EntryMac(threshold, at, infos, quality, n);
    }
  }

  /** A camera in the list has an entry under its name afterwards exactly when the last
      camera of that name has no MAC address or one that was last seen under that name. */
  lemma SurvivesIff(threshold: int, at: Slots, infos: seq<Info>, quality: string -> string, n: string)
    requires n in Names(infos)
    ensures LastNamed(infos, n).Some?
    ensures var mac := LastNamed(infos, n).value.mac;
            Discovered(threshold, at, infos, quality)(n).cam.Some? <==> mac == "" || LastWithMac(infos, mac) == n
  {
    LastNamedIsThere(infos, n);
    FoundIs(threshold, at(n), n, infos, quality);
  }

  /** With distinct MAC addresses every discovered name survives, also when two cameras
      have swapped their names. */
  lemma DistinctMacsSurvive(threshold: int, at: Slots, infos: seq<Info>, quality: string -> string, n: string)
    requires n in Names(infos)
    requires forall i, j :: 0 <= i < j < |infos| && infos[i].mac != "" ==> infos[i].mac != infos[j].mac
    ensures Discovered(threshold, at, infos, quality)(n).cam.Some?
  {
    SurvivesIff(threshold, at, infos, quality, n);
    LastNamedIsThere(infos, n);
    var mac := LastNamed(infos, n).value.mac;
    if mac != "" {
      assert HasMac(infos, mac);
      LastWithMacIsNamed(infos, mac);
    }
  }

  /** An entry that is not in the list is dropped exactly when its MAC address is. */
  lemma DroppedIffRenamed(threshold: int, at: Slots, infos: seq<Info>, quality: string -> string, n: string)
    requires at(n).cam.Some? && n !in Names(infos)
    ensures Discovered(threshold, at, infos, quality)(n).cam.None? <==> HasMac(infos, at(n).cam.value.info.mac)
  {
    LastNamedIsThere(infos, n);
    AbsentIs(threshold, at(n), n, infos, quality);
    if HasMac(infos, at(n).cam.value.info.mac) {
      LastWithMacIsNamed(infos, at(n).cam.value.info.mac);
    }
  }

  /** What was learnt stays with the name: an entry that is found again keeps its errors,
      its failures and its promotion, whichever camera now has that name. */
  lemma FlagsStayWithName(threshold: int, at: Slots, infos: seq<Info>, quality: string -> string, n: string)
    requires at(n).cam.Some? && n in Names(infos)
    ensures var c, s' := at(n).cam.value, Discovered(threshold, at, infos, quality)(n);
            s'.cam.Some? ==>
              Some(s'.cam.value.info) == LastNamed(infos, n) && s'.cam.value == c.(info := s'.cam.value.info)
  {
    LastNamedIsThere(infos, n);
    FoundIs(threshold, at(n), n, infos, quality);
  }

  // ------------------------------------------------------------------ whole runs

  /** One operation of the manager: a discovery, or something that happens to the
      camera of one name. */
  datatype Op = Discover(infos: seq<Info>) | Do(name: string, event: Event)

  predicate ValidOp(op: Op) {
    op.Do? ==> !op.event.Found? && !op.event.Reaped?
  }

  ghost function Apply(threshold: int, at: Slots, op: Op, quality: string -> string): Slots {
    match op
    case Discover(infos) => Discovered(threshold, at, infos, quality)
    case Do(name, e) => n => if n == name then Step(threshold, at(n), e) else at(n)
  }

  ghost function After(threshold: int, ops: seq<Op>, quality: string -> string): Slots {
    if ops == [] then n => NEVER_SEEN
    else Apply(threshold, After(threshold, ops[..|ops| - 1], quality), ops[|ops| - 1], quality)
  }

  lemma {:induction false} SightedKeepsInv(threshold: int, s: Slot, n: string, infos: seq<Info>,
                                           quality: string -> string)
    requires Inv(threshold, s)
    ensures Inv(threshold, Sighted(threshold, s, n, infos, quality))
    decreases |infos|
  {
    if infos != [] {
      var k := |infos| - 1;
      SightedKeepsInv(threshold, s, n, infos[..k], quality);
      StepKeepsInv(threshold, Sighted(threshold, s, n, infos[..k], quality), Found(infos[k], quality(n)));
    }
  }

  lemma DiscoverKeepsInv(threshold: int, s: Slot, n: string, infos: seq<Info>, quality: string -> string)
    requires Inv(threshold, s)
    ensures Inv(threshold, DiscoverAt(threshold, s, n, infos, quality))
  {
    var s1, names := Sighted(threshold, s, n, infos, quality), NameByMac(infos);
    SightedKeepsInv(threshold, s, n, infos, quality);
    StepKeepsInv(threshold, s1, Reaped);
    StepKeepsInv(threshold, Reap(s1, n, names), TakenOffline);
  }

  lemma StepKeepsInfo(threshold: int, s: Slot, e: Event)
    requires !e.Found? && !e.Reaped?
    ensures var s' := Step(threshold, s, e);
            (s'.cam.Some? <==> s.cam.Some?) && (s.cam.Some? ==> s'.cam.value.info == s.cam.value.info)
  {
  }

  /** In every run of the manager: the camera of every name and its log agree, every
      entry is filed under its camera's name, and no two entries share a MAC address. */
  lemma {:induction false} RunKeepsAll(threshold: int, ops: seq<Op>, quality: string -> string)
    requires forall i :: 0 <= i < |ops| ==> ValidOp(ops[i])
    ensures var at := After(threshold, ops, quality);
            Keyed(at) && MacsDistinct(at) && forall n :: Inv(threshold, at(n))
    decreases |ops|
  {
    if ops != [] {
      var before, op := ops[..|ops| - 1], ops[|ops| - 1];
      RunKeepsAll(threshold, before, quality);
      var at := After(threshold, before, quality);
      match op {
        case Discover(infos) =>
          DiscoverKeepsMap(threshold, at, infos, quality);
          forall n
            ensures Inv(threshold, Discovered(threshold, at, infos, quality)(n))
          {
            DiscoverKeepsInv(threshold, at(n), n, infos, quality);
          }
        case Do(name, e) =>
          StepKeepsInv(threshold, at(name), e);
          StepKeepsInfo(threshold, at(name), e);
      }
    }
  }
}
