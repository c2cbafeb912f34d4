/** The cloud event poller: it classifies events, remembers the last 256 event ids so
    as not to dispatch one twice, and advances a watermark that the next query
    starts from. Times are milliseconds since the epoch. */
module EventPoller {
  import opened Wrappers

  // ------------------------------------------------------------------- raw events

  datatype Json =
    | Null
    | Bool(b: bool)
    | Str(s: string)
    | Float(x: real)
    | Int(n: int)
    | Arr(items: seq<Json>)
    | Obj(fields: map<string, Json>)

  type Raw = map<string, Json>

  datatype Kind = Motion | ButtonPress

  const MAX_SEEN := 256
  const MIN_INT64 := -0x8000_0000_0000_0000
  const MAX_INT64 := 0x7fff_ffff_ffff_ffff

  /** The instant that Go calls the zero time. */
  const ZERO_TIME := -62135596800000

  type int64 = x: int | MIN_INT64 <= x <= MAX_INT64

  function Get(r: Raw, key: string): Json {
    if key in r then r[key] else Null
  }

  /** Conversion of a float to an integer, toward zero. */
  function Trunc(x: real): int {
    if x >= 0.0 then x.Floor else -((-x).Floor)
  }

  function Digit(d: nat): (c: char)
    requires d < 10
  {
    '0' + d as char
  }

  /** The decimal digits of a positive number; nothing for zero. */
  function Digits(n: nat): string {
    if n == 0 then "" else Digits(n / 10) + [Digit(n % 10)]
  }

  /** Negating the least 64-bit number gives that number again, so the loop that
      writes the digits does not run. */
  function FormatInt(n: int64): string {
    if n == 0 then "0"
    else if n == MIN_INT64 then "-"
    else if n < 0 then "-" + Digits(-n)
    else Digits(n)
  }

  /** The buffer is filled from its end. */
  method WriteInt(n: int64) returns (s: string)
    ensures s == FormatInt(n)
  {
    if n == 0 {
      return "0";
    }
    var neg := n < 0;
    var v: int := if neg && n != MIN_INT64 then -n else n;
    s := "";
    ghost var whole := if v > 0 then Digits(v) else "";
    assert whole + s == whole;
    while v > 0
      invariant whole == (if v > 0 then Digits(v) else "") + s
      decreases v
    {
      assert Digits(v / 10) + [Digit(v % 10)] + s == Digits(v / 10) + ([Digit(v % 10)] + s);
      s := [Digit(v % 10)] + s;
      v := v / 10;
    }
    assert s == whole;
    if neg {
      s := "-" + s;
    }
  }

  function ParseDigits(s: string): int {
    if s == "" then 0
    else 10 * ParseDigits(s[..|s| - 1]) + (s[|s| - 1] as int - '0' as int)
  }

  function Parse(s: string): int {
    if s != "" && s[0] == '-' then -ParseDigits(s[1..]) else ParseDigits(s)
  }

  lemma {:induction false} DigitsParse(n: nat)
    ensures ParseDigits(Digits(n)) == n
    ensures n > 0 ==> Digits(n) != "" && Digits(n)[0] != '-'
  {
    if n != 0 {
      DigitsParse(n / 10);
      assert Digits(n)[..|Digits(n)| - 1] == Digits(n / 10);
    }
  }

  lemma NegativeParses(s: string)
    ensures Parse("-" + s) == -ParseDigits(s)
  {
    assert ("-" + s)[1..] == s;
  }

  lemma NegatedParses(n: int)
    requires n < 0
    ensures Parse("-" + Digits(-n)) == n
  {
    DigitsParse(-n);
    NegativeParses(Digits(-n));
  }

  lemma ShortTextsParse()
    ensures Parse("0") == 0 && Parse("-") == 0
  {
    assert "0"[..0] == "" && "-"[1..] == "";
    assert ParseDigits("0") == 10 * ParseDigits("") + 0;
  }

  /** The text of a number reads back as that number, except for the least one. */
  lemma FormatParses(n: int64)
    ensures Parse(FormatInt(n)) == n <==> n != MIN_INT64
  {
    ShortTextsParse();
    if n < 0 {
      NegatedParses(n);
    } else if n > 0 {
      DigitsParse(n);
    }
  }

  function AsInt64(n: int): int64 {
    if MIN_INT64 <= n <= MAX_INT64 then n else MIN_INT64
  }

  predicate TagMatches(v: Json, target: string) {
    match v
    case Str(s) => s == target
    case Float(x) => FormatInt(AsInt64(Trunc(x))) == target
    case Int(n) => FormatInt(AsInt64(n)) == target
    case _ => false
  }

  const RANG := "10"

  lemma TenIsTen(n: int64)
    ensures FormatInt(n) == RANG <==> n == 10
  {
    FormatParses(n);
    FormatParses(10);
    assert FormatInt(10) == Digits(10) == "10" by {
      assert Digits(1) == Digits(0) + [Digit(1)];
      assert Digits(10) == Digits(1) + [Digit(0)];
    }
  }

  /** A number is the ring's alarm type exactly when it is 10, after dropping the
      fraction. */
  lemma NumberIsRing(v: Json)
    ensures v.Int? && MIN_INT64 <= v.n <= MAX_INT64 ==> (TagMatches(v, RANG) <==> v.n == 10)
    ensures v.Float? && MIN_INT64 <= Trunc(v.x) <= MAX_INT64 ==> (TagMatches(v, RANG) <==> 10.0 <= v.x < 11.0)
  {
    match v {
      case Int(n) => TenIsTen(AsInt64(n));
      case Float(x) => TenIsTen(AsInt64(Trunc(x)));
      case _ =>
    }
  }

  function Classify(r: Raw): Kind {
    if TagMatches(Get(r, "event_value"), RANG) then ButtonPress
    else match Get(r, "event_tag_list")
      case Arr(tags) =>
        if exists i :: 0 <= i < |tags| && TagMatches(tags[i], RANG) then ButtonPress else Motion
      case _ => Motion
  }

  function EventId(r: Raw): string {
    match Get(r, "event_id") case Str(s) => s case _ => ""
  }

  function DeviceMac(r: Raw): string {
    match Get(r, "device_id")
    case Str(s) => if s != "" then s else MacField(r)
    case _ => MacField(r)
  }

  function MacField(r: Raw): string {
    match Get(r, "device_mac") case Str(s) => s case _ => ""
  }

  function EventTs(r: Raw): int {
    match Get(r, "event_ts")
    case Float(x) => AsInt64(Trunc(x))
    case Int(n) => n
    case _ => ZERO_TIME
  }

  function Number(v: Json): int {
    match v
    case Float(x) => AsInt64(Trunc(x))
    case Int(n) => n
    case _ => 0
  }

  function KvsEnd(items: seq<Json>): int {
    if items == [] then -1
    else if items[0].Obj? && Get(items[0].fields, "resource_type") == Str("kvs")
      then Number(Get(items[0].fields, "end_time"))
    else KvsEnd(items[1..])
  }

  /** When the recording ended: 0 while it is open, -1 when there is none. */
  function EventEnd(r: Raw): int {
    match Get(r, "event_resources")
    case Arr(items) => KvsEnd(items)
    case Obj(fields) => Number(Get(fields, "end_time"))
    case _ => -1
  }

  // ------------------------------------------------------------------- one event

  datatype Sent = Sent(id: string, kind: Kind, camera: string, mark: nat)

  /** The poller's fields, and what it has done: the ids it has newly marked, in
      order, and what it has dispatched, each with the number of its mark. */
  datatype State = State(
    seen: set<string>,
    buf: seq<string>,
    lastTS: int,
    marked: seq<string>,
    sent: seq<Sent>)

  datatype Config = Config(window: int, lookup: map<string, string>)

  function Start(): State {
    State({}, [], 0, [], [])
  }

  /** How far an event lets the watermark advance. An open ring is held just before
      its beginning, so that it will be returned again. */
  function Mark(r: Raw): Option<int> {
    if EventId(r) == "" || EventTs(r) == ZERO_TIME then None
    else if EventEnd(r) == 0 && Classify(r) == ButtonPress then Some(EventTs(r) - 1)
    else Some(EventTs(r))
  }

  function Advanced(lastTS: int, r: Raw): int {
    match Mark(r)
    case None => lastTS
    case Some(ms) => if ms > lastTS then ms else lastTS
  }

  function Marked(st: State, id: string): State {
    var buf := st.buf + [id];
    if |buf| > MAX_SEEN then
      st.(seen := st.seen + {id} - {buf[0]}, buf := buf[1..], marked := st.marked + [id])
    else
      st.(seen := st.seen + {id}, buf := buf, marked := st.marked + [id])
  }

  /** A new event is dispatched when it is recent and its camera is known. */
  predicate Dispatchable(c: Config, r: Raw, now: int) {
    && EventTs(r) != ZERO_TIME
    && now - EventTs(r) <= c.window
    && DeviceMac(r) != ""
    && DeviceMac(r) in c.lookup
  }

  function Processed(c: Config, st: State, r: Raw, now: int): State {
    var id := EventId(r);
    if id == "" then st
    else
      var st1 := st.(lastTS := Advanced(st.lastTS, r));
      if id in st1.seen then st1
      else
        var st2 := Marked(st1, id);
        if Dispatchable(c, r, now) then
          st2.(sent := st2.sent + [Sent(id, Classify(r), c.lookup[DeviceMac(r)], |st.marked|)])
        else st2
  }

  /** A batch of events that arrived with one answer of the API. */
  datatype Batch = Batch(events: seq<Raw>, now: int)

  function ProcessedAll(c: Config, st: State, events: seq<Raw>, now: int): State
    decreases |events|
  {
    if events == [] then st
    else ProcessedAll(c, Processed(c, st, events[0], now), events[1..], now)
  }

  function Run(c: Config, st: State, batches: seq<Batch>): State
    decreases |batches|
  {
    if batches == [] then st
    else Run(c, ProcessedAll(c, st, batches[0].events, batches[0].now), batches[1..])
  }

  function AllEvents(batches: seq<Batch>): seq<Raw> {
    if batches == [] then [] else batches[0].events + AllEvents(batches[1..])
  }

  // -------------------------------------------------------------------- the history

  function Last(marked: seq<string>): (r: seq<string>)
    ensures |r| <= MAX_SEEN
  {
    if |marked| <= MAX_SEEN then marked else marked[|marked| - MAX_SEEN..]
  }

  ghost predicate NoRepeatWithin(s: seq<string>, n: nat) {
    forall i, j :: 0 <= i < j < |s| && j - i <= n ==> s[i] != s[j]
  }

  /** What is remembered agrees with the list of all marks. */
  ghost predicate Inv(st: State) {
    && st.buf == Last(st.marked)
    && (forall x :: x in st.seen <==> x in st.buf)
    && NoRepeatWithin(st.marked, MAX_SEEN)
    && (forall k :: 0 <= k < |st.sent| ==> st.sent[k].mark < |st.marked| && st.marked[st.sent[k].mark] == st.sent[k].id)
    && (forall k, l :: 0 <= k < l < |st.sent| ==> st.sent[k].mark < st.sent[l].mark)
  }

  lemma MarkKeepsInv(st: State, id: string)
    requires Inv(st) && id !in st.seen
    ensures Inv(Marked(st, id))
  {
    var st' := Marked(st, id);
    var n := |st.marked|;
    forall i | 0 <= i < n && n - i <= MAX_SEEN ensures st.marked[i] != id {
      assert st.marked[i] == st.buf[i - (n - |st.buf|)];
    }
    if |st.buf| == MAX_SEEN {
      var first := st.buf[0];
      assert first == st.marked[n - MAX_SEEN];
      forall x ensures x in st'.seen <==> x in st'.buf {
        forall j | 0 < j < MAX_SEEN ensures st.buf[j] != first {
          assert st.buf[j] == st.marked[n - MAX_SEEN + j];
        }
        assert st'.buf == st.buf[1..] + [id];
        assert st.buf == [first] + st.buf[1..];
      }
    }
  }

  lemma SendKeepsInv(st: State, s: Sent)
    requires Inv(st) && st.marked != [] && s.mark == |st.marked| - 1 && s.id == st.marked[s.mark]
    requires forall k :: 0 <= k < |st.sent| ==> st.sent[k].mark < s.mark
    ensures Inv(st.(sent := st.sent + [s]))
  {
  }

  lemma ProcessKeepsInv(c: Config, st: State, r: Raw, now: int)
    requires Inv(st)
    ensures Inv(Processed(c, st, r, now))
  {
    var id := EventId(r);
    if id != "" && id !in st.seen {
      var st1 := st.(lastTS := Advanced(st.lastTS, r));
      MarkKeepsInv(st1, id);
      if Dispatchable(c, r, now) {
        SendKeepsInv(Marked(st1, id), Sent(id, Classify(r), c.lookup[DeviceMac(r)], |st.marked|));
      }
    }
  }

  lemma {:induction false} ProcessAllKeepsInv(c: Config, st: State, events: seq<Raw>, now: int)
    requires Inv(st)
    ensures Inv(ProcessedAll(c, st, events, now))
    decreases |events|
  {
    if events != [] {
      ProcessKeepsInv(c, st, events[0], now);
      ProcessAllKeepsInv(c, Processed(c, st, events[0], now), events[1..], now);
    }
  }

  /** Over all batches: what is seen is what the buffer holds, which is the last
      marks, at most 256 of them; and an id is marked again only after 256 others. */
  lemma {:induction false} RunKeepsInv(c: Config, st: State, batches: seq<Batch>)
    requires Inv(st)
    ensures Inv(Run(c, st, batches))
    decreases |batches|
  {
    if batches != [] {
      ProcessAllKeepsInv(c, st, batches[0].events, batches[0].now);
      RunKeepsInv(c, ProcessedAll(c, st, batches[0].events, batches[0].now), batches[1..]);
    }
  }

  /** An id is dispatched twice only with at least 256 marks in between, and the
      first 256 of those are distinct and different from it. */
  lemma DispatchedAgainOnlyAfter256(c: Config, batches: seq<Batch>, k: nat, l: nat)
    requires k < l < |Run(c, Start(), batches).sent|
    requires Run(c, Start(), batches).sent[k].id == Run(c, Start(), batches).sent[l].id
    ensures var st := Run(c, Start(), batches);
            var i, j := st.sent[k].mark, st.sent[l].mark;
            && i + MAX_SEEN < j < |st.marked|
            && (forall x, y :: i <= x < y <= i + MAX_SEEN ==> st.marked[x] != st.marked[y])
  {
    RunKeepsInv(c, Start(), batches);
  }

  // ------------------------------------------------- what is dispatched, by history

  /** An event with the time of the poll that brought it. */
  type Arrival = (Raw, int)

  function Timed(events: seq<Raw>, now: int): (r: seq<Arrival>)
    ensures |r| == |events|
  {
    seq(|events|, i requires 0 <= i < |events| => (events[i], now))
  }

  /** All events of all batches, in order. */
  function Arrivals(batches: seq<Batch>): seq<Arrival> {
    if batches == [] then [] else Timed(batches[0].events, batches[0].now) + Arrivals(batches[1..])
  }

  function Over(c: Config, st: State, es: seq<Arrival>): State
    decreases |es|
  {
    if es == [] then st else Over(c, Processed(c, st, es[0].0, es[0].1), es[1..])
  }

  lemma {:induction false} OverSplit(c: Config, st: State, a: seq<Arrival>, b: seq<Arrival>)
    ensures Over(c, st, a + b) == Over(c, Over(c, st, a), b)
    decreases |a|
  {
    if a == [] {
      assert a + b == b;
    } else {
      assert (a + b)[1..] == a[1..] + b;
      OverSplit(c, Processed(c, st, a[0].0, a[0].1), a[1..], b);
    }
  }

  lemma {:induction false} BatchIsOver(c: Config, st: State, events: seq<Raw>, now: int)
    ensures ProcessedAll(c, st, events, now) == Over(c, st, Timed(events, now))
    decreases |events|
  {
    if events != [] {
      assert Timed(events, now)[1..] == Timed(events[1..], now);
      BatchIsOver(c, Processed(c, st, events[0], now), events[1..], now);
    }
  }

  lemma {:induction false} RunIsOver(c: Config, st: State, batches: seq<Batch>)
    ensures Run(c, st, batches) == Over(c, st, Arrivals(batches))
    decreases |batches|
  {
    if batches != [] {
      var b := batches[0];
      BatchIsOver(c, st, b.events, b.now);
      RunIsOver(c, ProcessedAll(c, st, b.events, b.now), batches[1..]);
      OverSplit(c, st, Timed(b.events, b.now), Arrivals(batches[1..]));
    }
  }

  /** The ids that a plain list of all marks would hold: an id is added unless it is
      empty or among the last 256. */
  function Marks(es: seq<Arrival>): seq<string> {
    if es == [] then []
    else
      var before, id := Marks(es[..|es| - 1]), EventId(es[|es| - 1].0);
      if id == "" || id in Last(before) then before else before + [id]
  }

  /** Arrival `j` brings an id that is not among the last 256 marks. */
  predicate IsNews(es: seq<Arrival>, j: nat) {
    j < |es| && EventId(es[j].0) != "" && EventId(es[j].0) !in Last(Marks(es[..j]))
  }

  predicate Sends(c: Config, es: seq<Arrival>, j: nat) {
    IsNews(es, j) && Dispatchable(c, es[j].0, es[j].1)
  }

  /** The numbers below `n` that satisfy `p`, in order. */
  function Chosen(p: nat -> bool, n: nat): (js: seq<nat>)
    ensures forall k :: 0 <= k < |js| ==> p(js[k])
  {
    if n == 0 then []
    else if p(n - 1) then Chosen(p, n - 1) + [n - 1]
    else Chosen(p, n - 1)
  }

  ghost predicate Ascending(js: seq<nat>) {
    forall i, k :: 0 <= i < k < |js| ==> js[i] < js[k]
  }

  lemma {:induction false} ChosenInOrder(p: nat -> bool, n: nat)
    ensures Ascending(Chosen(p, n)) && forall j: nat :: j in Chosen(p, n) <==> j < n && p(j)
  {
    if n != 0 {
      ChosenInOrder(p, n - 1);
      var js := Chosen(p, n - 1);
      assert forall i :: 0 <= i < |js| ==> js[i] in js;
    }
  }

  /** The arrivals to dispatch, among the first `n`. */
  function SentAt(c: Config, es: seq<Arrival>, n: nat): (js: seq<nat>)
    requires n <= |es|
    ensures forall k :: 0 <= k < |js| ==> Sends(c, es, js[k])
  {
    Chosen((j: nat) => Sends(c, es, j), n)
  }

  /** They are all there are, in order. */
  lemma SentInOrder(c: Config, es: seq<Arrival>, n: nat)
    requires n <= |es|
    ensures Ascending(SentAt(c, es, n))
    ensures forall j: nat :: j in SentAt(c, es, n) <==> j < n && Sends(c, es, j)
  {
    ChosenInOrder((j: nat) => Sends(c, es, j), n);
  }

  /** What is dispatched for arrival `j`. */
  function Message(c: Config, es: seq<Arrival>, j: nat): Sent
    requires Sends(c, es, j)
  {
    Sent(EventId(es[j].0), Classify(es[j].0), c.lookup[DeviceMac(es[j].0)], |Marks(es[..j])|)
  }

  function Messages(c: Config, es: seq<Arrival>, js: seq<nat>): (r: seq<Sent>)
    requires forall k :: 0 <= k < |js| ==> Sends(c, es, js[k])
    ensures |r| == |js|
  {
    seq(|js|, k requires 0 <= k < |js| => Message(c, es, js[k]))
  }

  /** One arrival, seen from the plain list of marks. */
  lemma NextByHistory(c: Config, es: seq<Arrival>, n: nat, st: State)
    requires n < |es| && Inv(st) && st.marked == Marks(es[..n])
    requires st.sent == Messages(c, es, SentAt(c, es, n))
    ensures var st' := Processed(c, st, es[n].0, es[n].1);
            st'.marked == Marks(es[..n + 1]) && st'.sent == Messages(c, es, SentAt(c, es, n + 1))
  {
    assert es[..n + 1][..n] == es[..n];
    assert EventId(es[n].0) in st.seen <==> EventId(es[n].0) in Last(st.marked);
    if Sends(c, es, n) {
      assert SentAt(c, es, n + 1) == SentAt(c, es, n) + [n];
      assert Messages(c, es, SentAt(c, es, n + 1)) == Messages(c, es, SentAt(c, es, n)) + [Message(c, es, n)];
    } else {
      assert SentAt(c, es, n + 1) == SentAt(c, es, n);
    }
  }

  lemma OverSnoc(c: Config, es: seq<Arrival>, n: nat)
    requires n < |es|
    ensures Over(c, Start(), es[..n + 1]) == Processed(c, Over(c, Start(), es[..n]), es[n].0, es[n].1)
  {
    assert es[..n + 1] == es[..n] + [es[n]];
    OverSplit(c, Start(), es[..n], [es[n]]);
    var st := Processed(c, Over(c, Start(), es[..n]), es[n].0, es[n].1);
    assert [es[n]][1..] == [] && Over(c, st, []) == st;
  }

  lemma {:induction false} OverByHistory(c: Config, es: seq<Arrival>, n: nat)
    requires n <= |es|
    ensures var st := Over(c, Start(), es[..n]);
            Inv(st) && st.marked == Marks(es[..n]) && st.sent == Messages(c, es, SentAt(c, es, n))
  {
    if n != 0 {
      OverByHistory(c, es, n - 1);
      var st := Over(c, Start(), es[..n - 1]);
      OverSnoc(c, es, n - 1);
      ProcessKeepsInv(c, st, es[n - 1].0, es[n - 1].1);
      NextByHistory(c, es, n - 1, st);
    }
  }

  /** Over all batches, what is dispatched is decided by a plain list of all marks: the
      arrivals whose id is not among the last 256 and which are recent and of a known
      camera, in order, each once and with its own kind and camera. Neither recency nor
      the lookup has any part in what is remembered. */
  lemma DispatchedByHistory(c: Config, batches: seq<Batch>)
    ensures var st, es := Run(c, Start(), batches), Arrivals(batches);
            var js := SentAt(c, es, |es|);
            && st.marked == Marks(es) && st.sent == Messages(c, es, js)
            && Ascending(js) && forall j: nat :: j in js <==> j < |es| && Sends(c, es, j)
  {
    var es := Arrivals(batches);
    SentInOrder(c, es, |es|);
    RunIsOver(c, Start(), batches);
    OverByHistory(c, es, |es|);
    assert es[..|es|] == es;
  }

  // ------------------------------------------------------------------ the watermark

  /** `v` is the largest of `start` and the marks of `events`. */
  ghost predicate IsWatermark(v: int, start: int, events: seq<Raw>) {
    && v >= start
    && (forall i :: 0 <= i < |events| && Mark(events[i]).Some? ==> Mark(events[i]).value <= v)
    && (v == start || exists i :: 0 <= i < |events| && Mark(events[i]) == Some(v))
  }

  lemma {:induction false} AllAdvance(c: Config, st: State, events: seq<Raw>, now: int)
    ensures IsWatermark(ProcessedAll(c, st, events, now).lastTS, st.lastTS, events)
    decreases |events|
  {
    if events != [] {
      var st1 := Processed(c, st, events[0], now);
      AllAdvance(c, st1, events[1..], now);
      var v := ProcessedAll(c, st1, events[1..], now).lastTS;
      assert forall i :: 1 <= i < |events| ==> events[i] == events[1..][i - 1];
      if v != st1.lastTS {
        var i :| 0 <= i < |events[1..]| && Mark(events[1..][i]) == Some(v);
        assert Mark(events[i + 1]) == Some(v);
      } else if v != st.lastTS {
        assert Mark(events[0]) == Some(v);
      }
    }
  }

  lemma WatermarkJoins(u: int, v: int, start: int, a: seq<Raw>, b: seq<Raw>)
    requires IsWatermark(u, start, a) && IsWatermark(v, u, b)
    ensures IsWatermark(v, start, a + b)
  {
    if v != u {
      var i :| 0 <= i < |b| && Mark(b[i]) == Some(v);
      assert (a + b)[|a| + i] == b[i];
    } else if u != start {
      var i :| 0 <= i < |a| && Mark(a[i]) == Some(u);
      assert (a + b)[i] == a[i];
    }
  }

  /** The watermark never falls, and is the largest mark of any event so far. */
  lemma {:induction false} WatermarkIsMaximum(c: Config, st: State, batches: seq<Batch>)
    ensures IsWatermark(Run(c, st, batches).lastTS, st.lastTS, AllEvents(batches))
    decreases |batches|
  {
    if batches != [] {
      var b := batches[0];
      AllAdvance(c, st, b.events, b.now);
      var st1 := ProcessedAll(c, st, b.events, b.now);
      WatermarkIsMaximum(c, st1, batches[1..]);
      WatermarkJoins(st1.lastTS, Run(c, st, batches).lastTS, st.lastTS, b.events, AllEvents(batches[1..]));
    }
  }

  /** Neither the order of events, nor their batching, nor repetitions, nor the time
      of the poll matter to the watermark. */
  lemma WatermarkIgnoresOrder(c: Config, d: Config, st: State, st': State, a: seq<Batch>, b: seq<Batch>)
    requires st.lastTS == st'.lastTS
    requires forall r :: r in AllEvents(a) <==> r in AllEvents(b)
    ensures Run(c, st, a).lastTS == Run(d, st', b).lastTS
  {
    WatermarkIsMaximum(c, st, a);
    WatermarkIsMaximum(d, st', b);
    BelowWatermark(Run(c, st, a).lastTS, Run(d, st', b).lastTS, st.lastTS, AllEvents(a), AllEvents(b));
    BelowWatermark(Run(d, st', b).lastTS, Run(c, st, a).lastTS, st.lastTS, AllEvents(b), AllEvents(a));
  }

  lemma BelowWatermark(u: int, v: int, start: int, a: seq<Raw>, b: seq<Raw>)
    requires IsWatermark(u, start, a) && IsWatermark(v, start, b)
    requires forall r :: r in a ==> r in b
    ensures u <= v
  {
    if u != start {
      var i :| 0 <= i < |a| && Mark(a[i]) == Some(u);
      assert a[i] in b;
    }
  }

  /** An open ring never moves the watermark to or past its own beginning. */
  lemma OpenRingStaysVisible(c: Config, st: State, r: Raw, now: int)
    requires Classify(r) == ButtonPress && EventEnd(r) == 0 && st.lastTS < EventTs(r)
    ensures Processed(c, st, r, now).lastTS < EventTs(r)
  {
  }

  // -------------------------------------------------------------------------- code

  class Poller {
    var seen: set<string>
    var seenBuf: seq<string>
    var lastTS: int
    ghost var sent: seq<Sent>  // calls of the sink
    ghost var marked: seq<string>
    const config: Config

    ghost function View(): State
      reads this
    {
      State(seen, seenBuf, lastTS, marked, sent)
    }

    constructor (window: int, lookup: map<string, string>)
      ensures View() == Start() && Inv(View())
      ensures config == Config(if window <= 0 then 120000 else window, lookup)
    {
      seen, seenBuf, lastTS, sent, marked := {}, [], 0, [], [];
      config := Config(if window <= 0 then 120000 else window, lookup);
    }

    method MarkSeen(id: string)
      modifies this`seen, this`seenBuf, this`marked
      ensures View() == Marked(old(View()), id)
    {
      seen := seen + {id};
      seenBuf := seenBuf + [id];
      if |seenBuf| > MAX_SEEN {
        var evict := seenBuf[0];
        seenBuf := seenBuf[1..];
        seen := seen - {evict};
      }
      marked := marked + [id];
    }

    method ProcessOne(r: Raw, now: int)
      modifies this
      ensures View() == Processed(config, old(View()), r, now)
    {
      var id := EventId(r);
      if id == "" {
        return;
      }
      var ts, end, kind := EventTs(r), EventEnd(r), Classify(r);
      if ts != ZERO_TIME && end != 0 {
        if ts > lastTS {
          lastTS := ts;
        }
      } else if ts != ZERO_TIME && kind == ButtonPress {
        if ts - 1 > lastTS {
          lastTS := ts - 1;
        }
      } else if ts != ZERO_TIME {
        if ts > lastTS {
          lastTS := ts;
        }
      }
      if id in seen {
        return;
      }
      ghost var mark := |marked|;
      MarkSeen(id);
      if ts == ZERO_TIME || now - ts > config.window {
        return;
      }
      var mac := DeviceMac(r);
      if mac == "" || mac !in config.lookup {
        return;
      }
      sent := sent + [Sent(id, kind, config.lookup[mac], mark)];
    }

    method ProcessEvents(events: seq<Raw>, now: int)
      requires Inv(View())
      modifies this
      ensures Inv(View()) && View() == ProcessedAll(config, old(View()), events, now)
    {
      ProcessAllKeepsInv(config, View(), events, now);
      for i := 0 to |events|
        invariant ProcessedAll(config, old(View()), events, now) == ProcessedAll(config, View(), events[i..], now)
      {
        assert events[i..][1..] == events[i + 1..];
        ProcessOne(events[i], now);
      }
    }
  }
}
