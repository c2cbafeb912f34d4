/** The life of one stream producer: a six-state machine whose goroutines are
    fenced by a generation number. `Lifecycle` is the specification, in which every
    body under the producer's mutex is one step; class `Producer` is the code. */
module ProducerLifecycle {
  import opened Wrappers
  import opened Tracks
  import opened Closing
  import opened Handover

  type ConnId = nat

  datatype State = StateNone | StateMedias | StateTracks | StateStart | StateExternal | StateInternal

  /** A goroutine or timer that will come back to the producer: a worker inside
      `conn.Start()`, or a call of `reconnect` that is due. */
  datatype Activity =
    | Running(conn: ConnId, id: nat)
    | Reconnecting(id: nat, retry: nat)

  /** A connection as `GetProducer` returns it. */
  datatype Connection = Connection(id: ConnId, medias: seq<Media>, answers: Answers, accepts: Accepts)

  /** `backs` are the readers below the senders, which are tracks of consumers. `owned`
      are the tracks that the current connection has handed out, and `hung` is what it
      has hung below senders; it closes both when it is stopped. `acquired` and
      `stopped` record which connections the producer was ever given and how often it
      stopped each. */
  datatype Lifecycle = Lifecycle(
    state: State,
    workerID: nat,
    conn: Option<ConnId>,
    wiring: Wiring,
    senders: seq<Track>,
    backs: Nodes,
    owned: seq<Track>,
    hung: seq<Hanging>,
    activities: seq<Activity>,
    acquired: set<ConnId>,
    stopped: multiset<ConnId>)

  /** What a consumer gives up when it is stopped: the readers it has hung below tracks of
      producers, and the tracks it has handed to producers. */
  datatype Departure = Departure(readers: seq<Hanging>, tracks: seq<Track>)

  /** One locked step of the producer, or of a consumer on the producer's tracks. The
      arguments are what the environment answers. */
  datatype Event =
    | Dial(got: Option<ConnId>)
    | GetTrack(codec: Codec, answer: Option<Track>)
    | AddTrack(track: Track, reader: Option<Reader>)
    | Attach(track: Track, child: Reader)
    | Depart(departure: Departure)
    | StartEvent
    | WorkerReturns(index: nat, failed: bool)
    | Reconnect(index: nat, reply: Option<Connection>)
    | Stop

  function NewProducer(nodes: Nodes, backs: Nodes): Lifecycle {
    Lifecycle(StateNone, 0, None, Wiring([], nodes), [], backs, [], [], [], {}, multiset{})
  }

  /** A producer around a connection that something else opened and stops. */
  function AdoptedProducer(conn: ConnId, state: State, nodes: Nodes, backs: Nodes): Lifecycle {
    Lifecycle(state, 0, Some(conn), Wiring([], nodes), [], backs, [], [], [], {conn}, multiset{})
  }

  /** Either kind of beginning. */
  ghost predicate Initial(p: Lifecycle) {
    || p == NewProducer(p.wiring.nodes, p.backs)
    || (&& p.conn.Some? && (p.state == StateExternal || p.state == StateInternal)
        && p == AdoptedProducer(p.conn.value, p.state, p.wiring.nodes, p.backs))
  }

  /** `GetProducer` opens a new connection each time. */
  ghost predicate Fresh(p: Lifecycle, e: Event) {
    match e
    case Dial(Some(c)) => c !in p.acquired
    case Reconnect(_, Some(c)) => c.id !in p.acquired
    case _ => true
  }

  function Remove<T>(s: seq<T>, i: nat): seq<T>
    requires i < |s|
  {
    s[..i] + s[i + 1..]
  }

  function HasCodec(receivers: seq<Track>, codec: Codec): Option<Track> {
    if receivers == [] then None
    else if receivers[0].codec == codec then Some(receivers[0])
    else HasCodec(receivers[1..], codec)
  }

  function AfterDial(p: Lifecycle, got: Option<ConnId>): Lifecycle {
    if p.state != StateNone || got.None? then p
    else p.(conn := got, state := StateMedias, acquired := p.acquired + {got.value})
  }

  function AfterGetTrack(p: Lifecycle, codec: Codec, answer: Option<Track>): Lifecycle {
    if p.state == StateNone || HasCodec(p.wiring.receivers, codec).Some? || answer.None? then p
    else p.(wiring := p.wiring.(receivers := p.wiring.receivers + [answer.value]),
            owned := Own(p.owned, answer.value),
            state := if p.state == StateMedias then StateTracks else p.state)
  }

  /** The connection hangs a reader below the track, or refuses. */
  function AfterAddTrack(p: Lifecycle, track: Track, reader: Option<Reader>): Lifecycle {
    if p.state == StateNone || reader.None? then p
    else p.(senders := p.senders + [track],
            backs := Hang(p.backs, (track, reader.value)),
            hung := p.hung + [(track, reader.value)],
            state := if p.state == StateMedias then StateTracks else p.state)
  }

  /** A consumer hangs a reader below a track. */
  function AfterAttach(p: Lifecycle, track: Track, reader: Reader): Lifecycle {
    p.(wiring := p.wiring.(nodes := Hang(p.wiring.nodes, (track, reader))))
  }

  /** A consumer stops. */
  function AfterDepart(p: Lifecycle, d: Departure): Lifecycle {
    p.(wiring := p.wiring.(nodes := Unhang(p.wiring.nodes, d.readers)), backs := CloseTracks(p.backs, d.tracks))
  }

  function AfterStart(p: Lifecycle): Lifecycle {
    if p.state != StateTracks || p.conn.None? then p
    else p.(state := StateStart, workerID := p.workerID + 1,
            activities := p.activities + [Running(p.conn.value, p.workerID + 1)])
  }

  function AfterWorkerReturns(p: Lifecycle, index: nat, failed: bool): Lifecycle {
    if index >= |p.activities| || !p.activities[index].Running? then p
    else
      var id := p.activities[index].id;
      var rest := Remove(p.activities, index);
      if failed && p.workerID != id then p.(activities := rest)
      else p.(activities := rest + [Reconnecting(id, 0)])
  }

  /** Stops the current connection: it closes the tracks it has handed out, and what it
      has hung below senders. */
  function ConnStopped(p: Lifecycle): Lifecycle
    requires p.conn.Some?
  {
    p.(wiring := p.wiring.(nodes := CloseTracks(p.wiring.nodes, p.owned)),
       backs := Unhang(p.backs, p.hung),
       stopped := p.stopped + multiset{p.conn.value})
  }

  /** The tracks have been moved to connection `c`, as far as it answers. */
  function TracksMoved(p: Lifecycle, c: Connection): Lifecycle {
    p.(wiring := MoveAll(p.wiring, c.medias, |c.medias|, c.answers),
       backs := HangAll(p.backs, SentAll(p.senders, c.medias, |c.medias|, c.accepts)))
  }

  /** The producer with connection `c` in place of its own, and a new worker. */
  function Switched(p: Lifecycle, c: Connection, id: nat, rest: seq<Activity>): (q: Lifecycle)
    requires p.conn.Some?
  {
    ConnStopped(TracksMoved(p, c)).(
      owned := Asked(p.wiring, c.medias, |c.medias|, c.answers),
      hung := SentAll(p.senders, c.medias, |c.medias|, c.accepts),
      conn := Some(c.id),
      acquired := p.acquired + {c.id},
      activities := rest + [Running(c.id, id)])
  }

  function AfterReconnect(p: Lifecycle, index: nat, reply: Option<Connection>): Lifecycle {
    if index >= |p.activities| || !p.activities[index].Reconnecting? then p
    else
      var Reconnecting(id, retry) := p.activities[index];
      var rest := Remove(p.activities, index);
      if p.workerID != id then p.(activities := rest)
      else match reply
        case None => p.(activities := rest + [Reconnecting(id, retry + 1)])
        case Some(c) =>
          if p.conn.None? then p
          else Switched(p, c, id, rest)
  }

  /** Gives up the connection and everything that came with it. */
  function Cleared(p: Lifecycle): Lifecycle {
    p.(conn := None, state := StateNone, wiring := Wiring([], p.wiring.nodes), senders := [], owned := [], hung := [])
  }

  function AfterStop(p: Lifecycle): Lifecycle {
    if p.state == StateExternal || p.state == StateNone then p
    else
      var fenced := if p.state == StateStart then p.(workerID := p.workerID + 1) else p;
      Cleared(if fenced.conn.Some? then ConnStopped(fenced) else fenced)
  }

  function Apply(p: Lifecycle, e: Event): Lifecycle {
    match e
    case Dial(got) => AfterDial(p, got)
    case GetTrack(codec, answer) => AfterGetTrack(p, codec, answer)
    case AddTrack(track, reader) => AfterAddTrack(p, track, reader)
    case Attach(track, reader) => AfterAttach(p, track, reader)
    case Depart(d) => AfterDepart(p, d)
    case StartEvent => AfterStart(p)
    case WorkerReturns(index, failed) => AfterWorkerReturns(p, index, failed)
    case Reconnect(index, reply) => AfterReconnect(p, index, reply)
    case Stop => AfterStop(p)
  }

  function Run(p: Lifecycle, es: seq<Event>): Lifecycle
    decreases |es|
  {
    if es == [] then p else Apply(Run(p, es[..|es| - 1]), es[|es| - 1])
  }

  /** Every connection opened during the run is a new one. */
  ghost predicate FreshRun(p: Lifecycle, es: seq<Event>) {
    forall i :: 0 <= i < |es| ==> FreshStepAt(p, es, i)
  }

  ghost predicate FreshStepAt(p: Lifecycle, es: seq<Event>, i: nat)
    requires i < |es|
  {
    Fresh(Run(p, es[..i]), es[i])
  }

  // ------------------------------------------------------------------- invariants

  /** The baton is the current generation number. No activity is ahead of it, at
      most one holds it, and one does exactly while the producer is started. */
  ghost predicate SingleBaton(p: Lifecycle) {
    && (forall i :: 0 <= i < |p.activities| ==> p.activities[i].id <= p.workerID)
    && (forall i, j :: 0 <= i < j < |p.activities| ==>
          p.activities[i].id != p.workerID || p.activities[j].id != p.workerID)
    && (p.state == StateStart <==> exists i :: 0 <= i < |p.activities| && p.activities[i].id == p.workerID)
  }

  /** Every connection ever acquired is the current one or was stopped once. */
  ghost predicate NoLeak(p: Lifecycle) {
    && (forall c :: c in p.acquired ==>
          if p.conn == Some(c) then p.stopped[c] == 0 else p.stopped[c] == 1)
    && (forall c :: c in p.stopped ==> c in p.acquired)
    && (p.conn.Some? ==> p.conn.value in p.acquired)
  }

  /** `conn` is nil exactly in the initial state, and there are no tracks before the
      producer has left the first two states. */
  ghost predicate NilExactlyInNone(p: Lifecycle) {
    && (p.conn.None? <==> p.state == StateNone)
    && (p.state == StateNone || p.state == StateMedias ==>
          p.wiring.receivers == [] && p.senders == [] && p.owned == [] && p.hung == [])
  }

  /** A worker that holds the baton drives the current connection; the connection
      of any other worker has been stopped. */
  ghost predicate WorkersDriveLiveConn(p: Lifecycle) {
    forall i :: 0 <= i < |p.activities| && p.activities[i].Running? ==>
      if p.activities[i].id == p.workerID then p.conn == Some(p.activities[i].conn)
      else p.stopped[p.activities[i].conn] == 1
  }

  ghost predicate Inv(p: Lifecycle) {
    SingleBaton(p) && NoLeak(p) && NilExactlyInNone(p) && WorkersDriveLiveConn(p)
  }

  lemma StartKeepsInv(p: Lifecycle)
    requires Inv(p)
    ensures Inv(AfterStart(p))
  {
    var q := AfterStart(p);
    if p.state == StateTracks {
      assert q.activities[|p.activities|].id == q.workerID;
      assert SingleBaton(q) && WorkersDriveLiveConn(q);
    }
  }

  /** Activities other than number `index` survive its removal. */
  lemma Surviving(acts: seq<Activity>, index: nat, j: nat)
    requires index < |acts| && j < |acts| - 1
    ensures Remove(acts, index)[j] == acts[if j < index then j else j + 1]
  {
  }

  /** Activity number `index` is replaced by one with the same generation. */
  lemma ReplacedKeepsBaton(p: Lifecycle, index: nat, a: Activity, q: Lifecycle)
    requires Inv(p) && index < |p.activities| && a.id == p.activities[index].id
    requires q.workerID == p.workerID && q.state == p.state
    requires q.activities == Remove(p.activities, index) + [a]
    ensures SingleBaton(q)
  {
    var n := |p.activities| - 1;
    forall j | 0 <= j < n
      ensures q.activities[j] == p.activities[if j < index then j else j + 1]
    {
      Surviving(p.activities, index, j);
    }
    assert q.activities[n] == a;
    if p.state == StateStart {
      var i :| 0 <= i < |p.activities| && p.activities[i].id == p.workerID;
      var j := if i < index then i else if i == index then n else i - 1;
      assert q.activities[j].id == p.workerID;
    }
  }

  lemma RemovedKeepsBaton(p: Lifecycle, index: nat)
    requires Inv(p) && index < |p.activities| && p.activities[index].id != p.workerID
    ensures Inv(p.(activities := Remove(p.activities, index)))
  {
    var q := p.(activities := Remove(p.activities, index));
    forall j | 0 <= j < |q.activities|
      ensures q.activities[j] == p.activities[if j < index then j else j + 1]
    {
      Surviving(p.activities, index, j);
    }
    if p.state == StateStart {
      var i :| 0 <= i < |p.activities| && p.activities[i].id == p.workerID;
      assert q.activities[if i < index then i else i - 1].id == p.workerID;
    }
  }

  lemma ReconnectKeepsInv(p: Lifecycle, index: nat, reply: Option<Connection>)
    requires Inv(p) && Fresh(p, Reconnect(index, reply))
    ensures Inv(AfterReconnect(p, index, reply))
  {
    var q := AfterReconnect(p, index, reply);
    if index < |p.activities| && p.activities[index].Reconnecting? {
      if p.activities[index].id != p.workerID {
        RemovedKeepsBaton(p, index);
      } else {
        ReplacedKeepsBaton(p, index, q.activities[|q.activities| - 1], q);
        forall j | 0 <= j < |p.activities| - 1
          ensures q.activities[j] == p.activities[if j < index then j else j + 1]
        {
          Surviving(p.activities, index, j);
        }
      }
    }
  }

  lemma WorkerReturnsKeepsInv(p: Lifecycle, index: nat, failed: bool)
    requires Inv(p)
    ensures Inv(AfterWorkerReturns(p, index, failed))
  {
    var q := AfterWorkerReturns(p, index, failed);
    if index < |p.activities| && p.activities[index].Running? {
      if failed && p.workerID != p.activities[index].id {
        RemovedKeepsBaton(p, index);
      } else {
        ReplacedKeepsBaton(p, index, q.activities[|q.activities| - 1], q);
        forall j | 0 <= j < |p.activities| - 1
          ensures q.activities[j] == p.activities[if j < index then j else j + 1]
        {
          Surviving(p.activities, index, j);
        }
      }
    }
  }

  /** The producer whose baton is out has a connection to stop. */
  lemma BatonMeansConn(p: Lifecycle, index: nat)
    requires Inv(p) && index < |p.activities| && p.activities[index].id == p.workerID
    ensures p.conn.Some? && p.state == StateStart
  {
  }

  lemma StopKeepsInv(p: Lifecycle)
    requires Inv(p)
    ensures Inv(AfterStop(p))
  {
  }

  lemma StepKeepsInv(p: Lifecycle, e: Event)
    requires Inv(p) && Fresh(p, e)
    ensures Inv(Apply(p, e))
  {
    match e
    case Dial(_) =>
    case GetTrack(_, _) =>
    case AddTrack(_, _) =>
    case Attach(_, _) =>
    case Depart(_) =>
    case StartEvent => StartKeepsInv(p);
    case WorkerReturns(index, failed) => WorkerReturnsKeepsInv(p, index, failed);
    case Reconnect(index, reply) => ReconnectKeepsInv(p, index, reply);
    case Stop => StopKeepsInv(p);
  }

  /** Over every interleaving of dial, track, reader, start, stop, worker return, reconnect
      and retry timer, all four invariants hold. */
  lemma {:induction false} RunKeepsInv(p: Lifecycle, es: seq<Event>)
    requires Initial(p) && FreshRun(p, es)
    ensures Inv(Run(p, es))
    decreases |es|
  {
    if es != [] {
      var es' := es[..|es| - 1];
      forall i | 0 <= i < |es'| ensures FreshStepAt(p, es', i) {
        assert es'[..i] == es[..i] && FreshStepAt(p, es, i);
      }
      assert FreshStepAt(p, es, |es'|);
      RunKeepsInv(p, es');
      StepKeepsInv(Run(p, es'), es[|es| - 1]);
    }
  }

  /** Two running workers never have live connections at the same time. */
  lemma {:induction false} OneLiveWorker(p: Lifecycle, es: seq<Event>, i: nat, j: nat)
    requires Initial(p) && FreshRun(p, es)
    requires i < j < |Run(p, es).activities|
    requires Run(p, es).activities[i].Running? && Run(p, es).activities[j].Running?
    ensures || Run(p, es).stopped[Run(p, es).activities[i].conn] == 1
            || Run(p, es).stopped[Run(p, es).activities[j].conn] == 1
  {
    RunKeepsInv(p, es);
  }

  /** A worker or timer from an earlier generation changes nothing but itself. */
  lemma StaleActivityOnlyEnds(p: Lifecycle, index: nat, failed: bool, reply: Option<Connection>)
    requires index < |p.activities| && p.activities[index].id != p.workerID
    ensures var q := AfterReconnect(p, index, reply);
            q == p.(activities := q.activities) && |q.activities| <= |p.activities|
    ensures var q := AfterWorkerReturns(p, index, failed);
            q == p.(activities := q.activities) && |q.activities| <= |p.activities|
  {
  }

  /** Once stopped, a producer is left alone by every goroutine it started: until
      it is dialled again, nothing but the list of activities changes, apart from what
      consumers do to the readers of tracks. */
  lemma StoppedStaysStopped(p: Lifecycle, e: Event)
    requires Inv(p) && p.state == StateNone && !e.Dial?
    ensures var q := Apply(p, e);
            if e.Attach? || e.Depart? then q == p.(wiring := Wiring([], q.wiring.nodes), backs := q.backs)
            else q == p.(activities := q.activities)
  {
  }

  /** An external producer without goroutines. */
  ghost predicate Untouched(p: Lifecycle, conn: Option<ConnId>) {
    p.state == StateExternal && p.conn == conn && p.stopped == multiset{} && p.activities == []
  }

  lemma StepLeavesExternal(p: Lifecycle, e: Event)
    requires Untouched(p, p.conn)
    ensures Untouched(Apply(p, e), p.conn)
  {
  }

  /** An external producer is never stopped, replaced or started. */
  lemma {:induction false} ExternalIsNeverStopped(p: Lifecycle, es: seq<Event>)
    requires Initial(p) && p.state == StateExternal
    ensures Untouched(Run(p, es), p.conn)
    decreases |es|
  {
    if es != [] {
      var es' := es[..|es| - 1];
      ExternalIsNeverStopped(p, es');
      StepLeavesExternal(Run(p, es'), es[|es| - 1]);
    }
  }

  // ------------------------------------------------------------ one place per reader

  /** A reader is a node of its own, which hangs nowhere when it is made. */
  ghost predicate FreshReader(p: Lifecycle, e: Event) {
    match e
    case Attach(_, reader) => Gone(p.wiring.nodes, reader)
    case AddTrack(_, Some(reader)) => Gone(p.backs, reader)
    case Reconnect(_, Some(c)) => NewAccepts(p.backs, c.accepts)
    case _ => true
  }

  ghost predicate FreshReaders(p: Lifecycle, es: seq<Event>) {
    forall i :: 0 <= i < |es| ==> FreshReaderAt(p, es, i)
  }

  ghost predicate FreshReaderAt(p: Lifecycle, es: seq<Event>, i: nat)
    requires i < |es|
  {
    FreshReader(Run(p, es[..i]), es[i])
  }

  /** Every reader hangs in one place, below receivers and below senders. */
  ghost predicate Trees(p: Lifecycle) {
    Tree(p.wiring.nodes) && Tree(p.backs)
  }

  lemma StoppingKeepsTrees(p: Lifecycle)
    requires Trees(p) && p.conn.Some?
    ensures Trees(ConnStopped(p))
  {
    CloseKeepsTree(p.wiring.nodes, p.owned);
    UnhangKeepsTree(p.backs, p.hung);
  }

  lemma MovingKeepsTrees(p: Lifecycle, c: Connection)
    requires Trees(p) && NewAccepts(p.backs, c.accepts)
    ensures Trees(TracksMoved(p, c))
  {
    MoveAllKeepsTree(p.wiring, c.medias, |c.medias|, c.answers);
    SentIsNew(p.backs, p.senders, c.medias, |c.medias|, c.accepts);
    HangAllKeepsTree(p.backs, SentAll(p.senders, c.medias, |c.medias|, c.accepts));
  }

  lemma ReconnectKeepsTrees(p: Lifecycle, index: nat, reply: Option<Connection>)
    requires Trees(p) && FreshReader(p, Reconnect(index, reply))
    ensures Trees(AfterReconnect(p, index, reply))
  {
    if reply.Some? && p.conn.Some? {
      MovingKeepsTrees(p, reply.value);
      StoppingKeepsTrees(TracksMoved(p, reply.value));
    }
  }

  lemma StopKeepsTrees(p: Lifecycle)
    requires Trees(p)
    ensures Trees(AfterStop(p))
  {
    var fenced := if p.state == StateStart then p.(workerID := p.workerID + 1) else p;
    if p.conn.Some? {
      StoppingKeepsTrees(fenced);
    }
  }

  lemma DepartKeepsTrees(p: Lifecycle, d: Departure)
    requires Trees(p)
    ensures Trees(AfterDepart(p, d))
  {
    UnhangKeepsTree(p.wiring.nodes, d.readers);
    CloseKeepsTree(p.backs, d.tracks);
  }

  lemma StepKeepsTrees(p: Lifecycle, e: Event)
    requires Trees(p) && FreshReader(p, e)
    ensures Trees(Apply(p, e))
  {
    match e
    case Attach(track, reader) => HangKeepsTree(p.wiring.nodes, (track, reader));
    case AddTrack(track, Some(reader)) => HangKeepsTree(p.backs, (track, reader));
    case Reconnect(index, reply) => ReconnectKeepsTrees(p, index, reply);
    case Stop => StopKeepsTrees(p);
    case Depart(d) => DepartKeepsTrees(p, d);
    case _ =>
  }

  /** In every run, with reconnects and stops, no reader comes to hang in two places, or
      twice in one. */
  lemma {:induction false} RunKeepsTrees(p: Lifecycle, es: seq<Event>)
    requires Trees(p) && FreshReaders(p, es)
    ensures Trees(Run(p, es))
    decreases |es|
  {
    if es != [] {
      var es' := es[..|es| - 1];
      forall i | 0 <= i < |es'|
        ensures FreshReaderAt(p, es', i)
      {
        assert es'[..i] == es[..i] && FreshReaderAt(p, es, i);
      }
      assert FreshReaderAt(p, es, |es'|);
      RunKeepsTrees(p, es');
      StepKeepsTrees(Run(p, es'), es[|es| - 1]);
    }
  }

  /** A reconnect that gets a connection whose tracks are its own keeps the number of
      receivers, and keeps every reader exactly when no media overwrites a held track that
      has readers, and every receiver with readers that the old connection owns is taken
      over by some media. */
  lemma ReconnectKeepsReadersIff(p: Lifecycle, index: nat, c: Connection)
    requires Inv(p) && index < |p.activities|
    requires p.activities[index].Reconnecting? && p.activities[index].id == p.workerID
    requires Tree(p.wiring.nodes) && Strange(p.wiring, p.owned, c.answers)
    ensures var q := AfterReconnect(p, index, Some(c));
            && |q.wiring.receivers| == |p.wiring.receivers|
            && ((forall r :: Held(p.wiring, r) <==> Held(q.wiring, r))
                <==> && !AnyClobbers(p.wiring, c.medias, |c.medias|, c.answers)
                     && forall k :: 0 <= k < |p.wiring.receivers| ==>
                          !Stranded(p.wiring, c.medias, c.answers, p.owned, k))
  {
    BatonMeansConn(p, index);
    ReadersKeptIffTakenOver(p.wiring, c.medias, c.answers, p.owned);
  }

  /** And all of them get the packets of the new connection exactly when nothing is
      overwritten and every receiver with readers is taken over. */
  lemma ReconnectFeedsReadersIff(p: Lifecycle, index: nat, c: Connection)
    requires Inv(p) && index < |p.activities|
    requires p.activities[index].Reconnecting? && p.activities[index].id == p.workerID
    requires Tree(p.wiring.nodes) && Strange(p.wiring, p.owned, c.answers)
    ensures var q := AfterReconnect(p, index, Some(c));
            (forall r :: Held(p.wiring, r) ==> Fed(q.wiring, q.owned, r))
            <==> && !AnyClobbers(p.wiring, c.medias, |c.medias|, c.answers)
                 && forall k :: 0 <= k < |p.wiring.receivers| && Childs(p.wiring.nodes, p.wiring.receivers[k]) != [] ==>
                      Moved(p.wiring, c.medias, |c.medias|, c.answers, p.wiring.receivers[k])
  {
    BatonMeansConn(p, index);
    ReadersFedIff(p.wiring, c.medias, c.answers, p.owned);
  }

  /** `p` is what some run has made of a producer. */
  ghost predicate Reached(start: Lifecycle, es: seq<Event>, p: Lifecycle) {
    Initial(start) && Trees(start) && FreshRun(start, es) && FreshReaders(start, es) && p == Run(start, es)
  }

  lemma ReachedIsSound(start: Lifecycle, es: seq<Event>, p: Lifecycle)
    requires Reached(start, es, p)
    ensures Inv(p) && Trees(p)
  {
    RunKeepsInv(start, es);
    RunKeepsTrees(start, es);
  }

  /** So it is for a reconnect at the end of any run. */
  lemma RunThenReconnectIff(start: Lifecycle, es: seq<Event>, p: Lifecycle, index: nat, c: Connection)
    requires Reached(start, es, p) && Strange(p.wiring, p.owned, c.answers)
    requires index < |p.activities| && p.activities[index].Reconnecting? && p.activities[index].id == p.workerID
    ensures var q := AfterReconnect(p, index, Some(c));
            (forall r :: Held(p.wiring, r) <==> Held(q.wiring, r))
            <==> && !AnyClobbers(p.wiring, c.medias, |c.medias|, c.answers)
                 && forall k :: 0 <= k < |p.wiring.receivers| ==>
                      !Stranded(p.wiring, c.medias, c.answers, p.owned, k)
  {
    ReachedIsSound(start, es, p);
    ReconnectKeepsReadersIff(p, index, c);
  }

  /** A producer that reads two tracks, with a reader each, and is about to reconnect. */
  function TwoRead(conn: ConnId, t: Track, r: Reader, u: Track, s: Reader): Lifecycle {
    Lifecycle(StateStart, 1, Some(conn), Wiring([t, u], map[t := [r], u := [s]]), [], map[], [t, u], [],
              [Reconnecting(1, 0)], {conn}, multiset{})
  }

  /** The run that leads there: the producer is dialled, both tracks are asked for and
      read, it is started, and its connection ends. */
  function ToTwoRead(conn: ConnId, t: Track, r: Reader, u: Track, s: Reader): seq<Event> {
    [Event.Dial(Some(conn)),
     GetTrack(t.codec, Some(t)), Attach(t, r),
     GetTrack(u.codec, Some(u)), Attach(u, s),
     StartEvent, WorkerReturns(0, false)]
  }

  lemma RunOne(p: Lifecycle, es: seq<Event>, n: nat)
    requires n < |es|
    ensures Run(p, es[..n + 1]) == Apply(Run(p, es[..n]), es[n])
  {
    assert es[..n + 1][..n] == es[..n];
  }

  /** A new track that is asked for and read. */
  lemma FetchAndRead(p: Lifecycle, t: Track, r: Reader)
    requires p.state == StateMedias || p.state == StateTracks
    requires HasCodec(p.wiring.receivers, t.codec).None? && t !in p.owned && t !in p.wiring.nodes
    ensures AfterAttach(AfterGetTrack(p, t.codec, Some(t)), t, r) ==
            p.(wiring := Wiring(p.wiring.receivers + [t], p.wiring.nodes[t := [r]]), owned := p.owned + [t],
               state := StateTracks)
  {
    assert [] + [r] == [r];
  }

  /** The first `n` events lead to `p`, and all is fresh so far. */
  ghost predicate Leads(start: Lifecycle, es: seq<Event>, n: nat, p: Lifecycle)
    requires n <= |es|
  {
    FreshRun(start, es[..n]) && FreshReaders(start, es[..n]) && Run(start, es[..n]) == p
  }

  lemma LeadsOn(start: Lifecycle, es: seq<Event>, n: nat, p: Lifecycle, q: Lifecycle)
    requires n < |es| && Leads(start, es, n, p) && Fresh(p, es[n]) && FreshReader(p, es[n]) && q == Apply(p, es[n])
    ensures Leads(start, es, n + 1, q)
  {
    RunOne(start, es, n);
    var es' := es[..n + 1];
    forall i | 0 <= i < n + 1
      ensures FreshStepAt(start, es', i) && FreshReaderAt(start, es', i)
    {
      assert es'[..i] == es[..i];
      if i < n {
        assert es[..n][..i] == es[..i] && es[..n][i] == es[i];
        assert FreshStepAt(start, es[..n], i) && FreshReaderAt(start, es[..n], i);
      }
    }
  }

  /** Two steps further, another track is read. */
  lemma ReadNext(start: Lifecycle, es: seq<Event>, n: nat, p: Lifecycle, t: Track, r: Reader, q: Lifecycle)
    requires n + 1 < |es| && es[n] == GetTrack(t.codec, Some(t)) && es[n + 1] == Attach(t, r)
    requires Leads(start, es, n, p) && (p.state == StateMedias || p.state == StateTracks)
    requires HasCodec(p.wiring.receivers, t.codec).None? && t !in p.owned && t !in p.wiring.nodes
    requires Gone(p.wiring.nodes, r)
    requires q == p.(wiring := Wiring(p.wiring.receivers + [t], p.wiring.nodes[t := [r]]), owned := p.owned + [t],
                     state := StateTracks)
    ensures Leads(start, es, n + 2, q)
  {
    FetchAndRead(p, t, r);
    LeadsOn(start, es, n, p, AfterGetTrack(p, t.codec, Some(t)));
    LeadsOn(start, es, n + 1, AfterGetTrack(p, t.codec, Some(t)), q);
  }

  lemma StartThenReturn(p: Lifecycle)
    requires p.state == StateTracks && p.conn.Some? && p.activities == []
    ensures AfterWorkerReturns(AfterStart(p), 0, false) ==
            p.(state := StateStart, workerID := p.workerID + 1, activities := [Reconnecting(p.workerID + 1, 0)])
  {
    assert Remove([Running(p.conn.value, p.workerID + 1)], 0) == [];
  }

  /** The states of that run after one and after both tracks are read. */
  function OneRead(conn: ConnId, t: Track, r: Reader): Lifecycle {
    Lifecycle(StateTracks, 0, Some(conn), Wiring([t], map[t := [r]]), [], map[], [t], [], [], {conn}, multiset{})
  }

  function BothRead(conn: ConnId, t: Track, r: Reader, u: Track, s: Reader): Lifecycle {
    TwoRead(conn, t, r, u, s).(state := StateTracks, workerID := 0, activities := [])
  }

  lemma FirstIsRead(start: Lifecycle, es: seq<Event>, conn: ConnId, t: Track, r: Reader)
    requires start == NewProducer(map[], map[]) && |es| > 2
    requires es[0] == Event.Dial(Some(conn)) && es[1] == GetTrack(t.codec, Some(t)) && es[2] == Attach(t, r)
    ensures Leads(start, es, 3, OneRead(conn, t, r))
  {
    assert es[..0] == [];
    var dialled := AfterDial(start, Some(conn));
    LeadsOn(start, es, 0, start, dialled);
    ReadNext(start, es, 1, dialled, t, r, OneRead(conn, t, r));
  }

  lemma StartedAndReturned(start: Lifecycle, es: seq<Event>, n: nat, p: Lifecycle, q: Lifecycle)
    requires n + 1 < |es| && es[n] == StartEvent && es[n + 1] == WorkerReturns(0, false)
    requires Leads(start, es, n, p) && p.state == StateTracks && p.conn.Some? && p.activities == []
    requires q == p.(state := StateStart, workerID := p.workerID + 1, activities := [Reconnecting(p.workerID + 1, 0)])
    ensures Leads(start, es, n + 2, q)
  {
    StartThenReturn(p);
    LeadsOn(start, es, n, p, AfterStart(p));
    LeadsOn(start, es, n + 1, AfterStart(p), q);
  }

  lemma SecondIsRead(start: Lifecycle, es: seq<Event>, conn: ConnId, t: Track, r: Reader, u: Track, s: Reader)
    requires |es| > 4 && es[3] == GetTrack(u.codec, Some(u)) && es[4] == Attach(u, s)
    requires Leads(start, es, 3, OneRead(conn, t, r)) && t.codec != u.codec && r != s
    ensures Leads(start, es, 5, BothRead(conn, t, r, u, s))
  {
    ReadNext(start, es, 3, OneRead(conn, t, r), u, s, BothRead(conn, t, r, u, s));
  }

  lemma ConnectionEnds(start: Lifecycle, es: seq<Event>, conn: ConnId, t: Track, r: Reader, u: Track, s: Reader)
    requires |es| > 6 && es[5] == StartEvent && es[6] == WorkerReturns(0, false)
    requires Leads(start, es, 5, BothRead(conn, t, r, u, s))
    ensures Leads(start, es, 7, TwoRead(conn, t, r, u, s))
  {
    StartedAndReturned(start, es, 5, BothRead(conn, t, r, u, s), TwoRead(conn, t, r, u, s));
  }

  lemma LeadsToReached(start: Lifecycle, es: seq<Event>, p: Lifecycle)
    requires Initial(start) && Trees(start) && Leads(start, es, |es|, p)
    ensures Reached(start, es, p)
  {
    assert es[..|es|] == es;
  }

  lemma TwoReadIsReached(conn: ConnId, t: Track, r: Reader, u: Track, s: Reader)
    requires t.codec != u.codec && r != s
    ensures Reached(NewProducer(map[], map[]), ToTwoRead(conn, t, r, u, s), TwoRead(conn, t, r, u, s))
  {
    var start, es := NewProducer(map[], map[]), ToTwoRead(conn, t, r, u, s);
    FirstIsRead(start, es, conn, t, r);
    SecondIsRead(start, es, conn, t, r, u, s);
    ConnectionEnds(start, es, conn, t, r, u, s);
    LeadsToReached(start, es, TwoRead(conn, t, r, u, s));
  }

  lemma OnlyFirstMoves(w: Wiring, media: Media, x: Track)
    requires |w.receivers| == 2 && media.direction.Recvonly? && MatchCodec(media, w.receivers[0].codec)
    ensures MoveAll(w, [media], 1, map[(0, 0) := x]) == MoveTo(w, 0, x)
  {
    assert MoveAll(w, [media], 0, map[(0, 0) := x]) == w;
  }

  lemma SecondIsClosed(nodes: Nodes, t: Track, u: Track, s: Reader)
    requires t != u && Childs(nodes, u) == [s]
    ensures Childs(CloseTracks(nodes, [t, u]), u) == []
  {
    CloseTracksOnce(nodes, [t, u], u);
    ClosedIsSpared([s]);
  }

  lemma SecondReaderGoes(w: Wiring, t: Track, r: Reader, u: Track, s: Reader, media: Media, x: Track)
    requires w == Wiring([t, u], map[t := [r], u := [s]]) && t != u && x != t && x != u && r != s
    requires media.direction.Recvonly? && MatchCodec(media, t.codec)
    ensures var w' := Handed(w, [media], map[(0, 0) := x], [t, u]);
            Held(w, s) && w'.receivers == [x, u] && !Held(w', s)
  {
    assert s in Childs(w.nodes, w.receivers[1]);
    OnlyFirstMoves(w, media, x);
    var v := MoveTo(w, 0, x);
    assert Childs(v.nodes, x) == [r] && Childs(v.nodes, u) == [s];
    SecondIsClosed(v.nodes, t, u, s);
    CloseTracksOnce(v.nodes, [t, u], x);
  }

  /** A producer can get to read video and audio, and a connection that comes back without
      the audio then detaches the reader of the audio. */
  lemma AudioIsStranded(p: Lifecycle, t: Track, u: Track, media: Media, x: Track)
    requires p == TwoRead(5, t, 7, u, 8) && t.codec != u.codec && x != t && x != u
    requires media.direction.Recvonly? && MatchCodec(media, t.codec)
    ensures Reached(NewProducer(map[], map[]), ToTwoRead(5, t, 7, u, 8), p)
    ensures var q := AfterReconnect(p, 0, Some(Connection(6, [media], map[(0, 0) := x], map[])));
            Held(p.wiring, 8) && q.wiring.receivers == [x, u] && !Held(q.wiring, 8)
  {
    TwoReadIsReached(5, t, 7, u, 8);
    SecondReaderGoes(p.wiring, t, 7, u, 8, media, x);
  }

  // ------------------------------------------------------------------------- code

  /** The producer. A goroutine that it spawns is appended to `activities`. */
  class Producer {
    var state: State
    var workerID: nat
    var conn: Option<ConnId>
    var receivers: seq<Track>
    var senders: seq<Track>
    var nodes: Nodes
    var backs: Nodes
    var owned: seq<Track>
    var hung: seq<Hanging>
    var activities: seq<Activity>
    ghost var acquired: set<ConnId>
    ghost var stopped: multiset<ConnId>

    ghost function View(): Lifecycle
      reads this
    {
      Lifecycle(state, workerID, conn, Wiring(receivers, nodes), senders, backs, owned, hung, activities,
                acquired, stopped)
    }

    ghost predicate Valid()
      reads this
    {
      Inv(View())
    }

    constructor New(nodes: Nodes, backs: Nodes)
      ensures Valid() && View() == NewProducer(nodes, backs)
    {
      state, workerID, conn, receivers, senders := StateNone, 0, None, [], [];
      this.nodes, this.backs, owned, hung, activities := nodes, backs, [], [], [];
      acquired, stopped := {}, multiset{};
    }

    constructor Adopt(conn: ConnId, state: State, nodes: Nodes, backs: Nodes)
      requires state == StateExternal || state == StateInternal
      ensures Valid() && View() == AdoptedProducer(conn, state, nodes, backs)
    {
      this.state, workerID, this.conn, receivers, senders := state, 0, Some(conn), [], [];
      this.nodes, this.backs, owned, hung, activities := nodes, backs, [], [], [];
      acquired, stopped := {conn}, multiset{};
    }

    method Dial(got: Option<ConnId>) returns (ok: bool)
      requires Valid() && Fresh(View(), Event.Dial(got))
      modifies this
      ensures Valid() && View() == AfterDial(old(View()), got)
      ensures ok <==> state != StateNone
    {
      if state == StateNone {
        if got.None? {
          return false;
        }
        conn := got;
        acquired := acquired + {got.value};
        state := StateMedias;
      }
      return true;
    }

    /** Under the invariant the connection is never nil here. */
    method GetTrack(codec: Codec, answer: Option<Track>) returns (track: Option<Track>)
      requires Valid()
      modifies this
      ensures Valid() && View() == AfterGetTrack(old(View()), codec, answer)
      ensures track == if old(state) == StateNone then None
                       else if HasCodec(old(receivers), codec).Some? then HasCodec(old(receivers), codec)
                       else answer
    {
      if state == StateNone {
        return None;
      }
      for i := 0 to |receivers|
        invariant HasCodec(receivers[i..], codec) == HasCodec(receivers, codec)
        invariant View() == old(View())
      {
        assert receivers[i..][1..] == receivers[i + 1..];
        if receivers[i].codec == codec {
          return Some(receivers[i]);
        }
      }
      assert conn.Some?;
      if answer.None? {
        return None;
      }
      owned := Own(owned, answer.value);
      receivers := receivers + [answer.value];
      if state == StateMedias {
        state := StateTracks;
      }
      return answer;
    }

    method AddTrack(track: Track, reader: Option<Reader>) returns (ok: bool)
      requires Valid()
      modifies this
      ensures Valid() && View() == AfterAddTrack(old(View()), track, reader)
      ensures ok <==> old(state) != StateNone && reader.Some?
    {
      if state == StateNone {
        return false;
      }
      assert conn.Some?;
      if reader.None? {
        return false;
      }
      backs := Hang(backs, (track, reader.value));
      hung := hung + [(track, reader.value)];
      senders := senders + [track];
      if state == StateMedias {
        state := StateTracks;
      }
      return true;
    }

    /** The other side has hung a reader below a track. */
    method Attach(track: Track, reader: Reader)
      requires Valid()
      modifies this`nodes
      ensures Valid() && View() == AfterAttach(old(View()), track, reader)
    {
      nodes := Hang(nodes, (track, reader));
    }

    /** The other side stops: readers go from the receivers' tracks, and tracks it has
        handed to this producer are closed. */
    method Depart(d: Departure)
      modifies this`nodes, this`backs
      ensures View() == AfterDepart(old(View()), d)
    {
      backs := CloseAll(backs, d.tracks);
      nodes := UnhangAll(nodes, d.readers);
    }

    method Start()
      requires Valid()
      modifies this
      ensures Valid() && View() == AfterStart(old(View()))
    {
      StartKeepsInv(View());
      if state != StateTracks {
        return;
      }
      state := StateStart;
      workerID := workerID + 1;
      activities := activities + [Running(conn.value, workerID)];
    }

    /** `conn.Start()` of running activity `index` has returned. */
    method Worker(index: nat, failed: bool)
      requires Valid() && index < |activities| && activities[index].Running?
      modifies this
      ensures Valid() && View() == AfterWorkerReturns(old(View()), index, failed)
    {
      WorkerReturnsKeepsInv(View(), index, failed);
      var id := activities[index].id;
      activities := Remove(activities, index);
      if failed {
        var closed := workerID != id;
        if closed {
          return;
        }
      }
      activities := activities + [Reconnecting(id, 0)];
    }

    /** The loop over the receivers for one media that can be received. `was` are the
        tracks that the new connection has been asked for so far. */
    method TakeOver(media: Media, m: nat, answers: Answers, was: seq<Track>) returns (asked: seq<Track>)
      requires media.direction.Recvonly?
      modifies this`receivers, this`nodes
      ensures Wiring(receivers, nodes) == MoveMedia(Wiring(old(receivers), old(nodes)), media, m, answers)
      ensures var i := FirstTaken(Wiring(old(receivers), old(nodes)), media, m, 0, answers);
              asked == if i < |old(receivers)| then Own(was, answers[(m, i)]) else was
    {
      ghost var w := Wiring(receivers, nodes);
      asked := was;
      var i := 0;
      while i < |receivers|
        invariant 0 <= i <= |receivers|
        invariant Wiring(receivers, nodes) == w
        invariant FirstTaken(w, media, m, i, answers) == FirstTaken(w, media, m, 0, answers)
      {
        if MatchCodec(media, receivers[i].codec) {
          if (m, i) in answers {
            var track := answers[(m, i)];
            asked := Own(was, track);
            nodes := Replace(nodes, receivers[i], track);
            receivers := receivers[i := track];
            return;
          }
        }
        i := i + 1;
      }
    }

    /** The loop over the senders for one media that can be sent. */
    method HandOver(media: Media, m: nat, accepts: Accepts, was: seq<Hanging>) returns (sent: seq<Hanging>)
      modifies this`backs
      ensures sent == was + SentFor(senders, media, m, |senders|, accepts)
      ensures forall before :: old(backs) == HangAll(before, was) ==> backs == HangAll(before, sent)
    {
      sent := was;
      for i := 0 to |senders|
        invariant sent == was + SentFor(senders, media, m, i, accepts)
        invariant forall before :: old(backs) == HangAll(before, was) ==> backs == HangAll(before, sent)
      {
        if MatchCodec(media, senders[i].codec) && (m, i) in accepts {
          var h := (senders[i], accepts[(m, i)]);
          forall before | old(backs) == HangAll(before, was)
            ensures Hang(backs, h) == HangAll(before, sent + [h])
          {
            HangSnoc(before, sent, h);
          }
          backs := Hang(backs, h);
          sent := sent + [h];
        }
      }
    }

    /** The loop over the medias of a new connection: what it is asked for, and what it
        hangs below the senders. */
    method MoveTracks(c: Connection) returns (asked: seq<Track>, sent: seq<Hanging>)
      modifies this`receivers, this`nodes, this`backs
      ensures Wiring(receivers, nodes)
              == MoveAll(Wiring(old(receivers), old(nodes)), c.medias, |c.medias|, c.answers)
      ensures asked == Asked(Wiring(old(receivers), old(nodes)), c.medias, |c.medias|, c.answers)
      ensures sent == SentAll(senders, c.medias, |c.medias|, c.accepts) && backs == HangAll(old(backs), sent)
    {
      ghost var w := Wiring(receivers, nodes);
      asked, sent := [], [];
      for m := 0 to |c.medias|
        invariant Wiring(receivers, nodes) == MoveAll(w, c.medias, m, c.answers)
        invariant asked == Asked(w, c.medias, m, c.answers)
        invariant sent == SentAll(senders, c.medias, m, c.accepts) && backs == HangAll(old(backs), sent)
      {
        match c.medias[m].direction {
          case Recvonly =>
            asked := TakeOver(c.medias[m], m, c.answers, asked);
          case Sendonly =>
            sent := HandOver(c.medias[m], m, c.accepts, sent);
          case Sendrecv =>
        }
      }
    }

    /** Stops the current connection, which closes its tracks. */
    method StopConn()
      requires conn.Some?
      modifies this`nodes, this`backs, this`stopped
      ensures View() == ConnStopped(old(View()))
    {
      nodes := CloseAll(nodes, owned);
      backs := UnhangAll(backs, hung);
      stopped := stopped + multiset{conn.value};
    }

    /** The end of a reconnect: the tracks go to the new connection, the old one is
        stopped, and a worker is started for the new one. */
    method SwitchTo(c: Connection, id: nat, rest: seq<Activity>)
      requires conn.Some?
      modifies this
      ensures View() == Switched(old(View()), c, id, rest)
    {
      ghost var p := View();
      var asked, sent := MoveTracks(c);
      assert View() == TracksMoved(p, c);
      StopConn();
      Adopted(c.id, asked, sent, rest + [Running(c.id, id)]);
    }

    /** Takes the new connection for its own. */
    method Adopted(c: ConnId, asked: seq<Track>, sent: seq<Hanging>, activities: seq<Activity>)
      modifies this
      ensures View() == old(View()).(owned := asked, hung := sent, conn := Some(c), acquired := old(acquired) + {c},
                                     activities := activities)
    {
      owned, hung, conn, acquired := asked, sent, Some(c), acquired + {c};
      this.activities := activities;
    }

    method Reconnect(index: nat, reply: Option<Connection>)
      requires Valid() && index < |activities| && activities[index].Reconnecting?
      requires Fresh(View(), Event.Reconnect(index, reply))
      modifies this
      ensures Valid() && View() == AfterReconnect(old(View()), index, reply)
    {
      ReconnectKeepsInv(View(), index, reply);
      var id, retry := activities[index].id, activities[index].retry;
      var rest := Remove(activities, index);
      if workerID != id {
        activities := rest;
      } else if reply.None? {
        activities := rest + [Reconnecting(id, retry + 1)];
      } else {
        BatonMeansConn(View(), index);
        SwitchTo(reply.value, id, rest);
      }
    }

    /** Gives up the connection and everything that came with it. */
    method Clear()
      modifies this
      ensures View() == Cleared(old(View()))
    {
      conn, state, receivers, senders, owned, hung := None, StateNone, [], [], [], [];
    }

    method Stop()
      requires Valid()
      modifies this
      ensures Valid() && View() == AfterStop(old(View()))
    {
      StopKeepsInv(View());
      if state == StateExternal || state == StateNone {
        return;
      }
      if state == StateStart {
        workerID := workerID + 1;
      }
      if conn.Some? {
        StopConn();
      }
      Clear();
    }
  }
}
