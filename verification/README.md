# Verified core of a camera bridge

This project models the stateful and byte-exact parts of a bridge that serves
Wyze cameras through go2rtc, and proves what they promise for all inputs, all
runs and all interleavings.

* **Producers and streams** (`Tracks`, `Closing`, `Handover`, `Medias`,
  `ProducerLifecycle`, `StreamSweep`, `ConsumerAttach`, `Interleaving`, `Streams`). A
  producer is a six-state machine whose goroutines are fenced by a generation number; a
  stream shares producers among consumers, who come and go at once, and stops those
  that nobody reads. Every body under the producer's mutex is one step, a goroutine or
  timer is an activity that comes back later, and what the network answers is a
  parameter. A reconnect moves readers and senders to a new connection and then stops
  the old one, down to the loop that detaches the readers of a closed track.
* **AAC framing** (`Bits`, `AacConfig`, `Adts`, `AdtsHeader`, `AacRtp`,
  `AacRoutes`). ADTS headers (Annex 1.A of ISO/IEC 14496-3), AU headers in RTP
  packets (sections 3.2.1 and 3.3.6 of RFC 3640) and the AudioSpecificConfig
  (section 1.6.2.1 of ISO/IEC 14496-3), with 16- and 32-bit wrap-around.
* **Camera manager** (`CameraSlot`, `Discovery`, `CameraIdentity`,
  `CameraManager`). The state of a camera, its error count and TUTK failure streak,
  the sticky promotion to WebRTC, the report of chronic errors, the map that
  discovery updates, and what becomes of a camera whose name changes.
* **Bounded histories** (`LogRing`, `EventPoller`, `RingDeduper`, `HlsSession`).
  A chunked ring against a plain log, a dedupe window with a watermark, a
  suppression window, and the byte accounting of HLS segments.
* **Command templates** (`ShellSplit`, `TemplateBraces`). A quote-aware splitter,
  and two brace scanners that are meant to agree.

Code that works in place is a class or a method with loops, proved against a
specification function; the lemmas are about those functions. `Seqs` and
`Wrappers` hold what several modules share.

## Where the code falls short

These properties do not hold of the code as it is. Each has a lemma with an input
that shows it, or an exact condition, or both.

* A reconnect to a connection with tracks of its own keeps every reader exactly when
  no media overwrites a held track that still has readers, and every receiver with
  readers that the old connection owns is taken over by some media
  (`ProducerLifecycle.ReconnectKeepsReadersIff`; for any answers
  `Handover.ReadersKeptIff`). Inputs that fail: one track for two medias
  (`Tracks.SharedTrackLosesReader`), a connection that comes back without audio, after a
  run that gets there (`ProducerLifecycle.AudioIsStranded`). A media takes over only the first receiver
  that suits it, so of two video receivers the second can be left behind
  (`Tracks.LeavesIff`, `Handover.LeavesIffFirstSuited`,
  `Tracks.SecondVideoReceiverIsStranded`).
* Closing a track does not detach all of its readers: each reader takes itself off the
  list that is looped over, so that every second one but the last stays. All go exactly
  when there are at most two (`Closing.OutlivesIff`).
* `AddConsumer` can report success without a track. That it never does, whatever the
  network answers, is so exactly when no producer but the consumer's own offers a
  fitting media that is neither recvonly nor sendonly
  (`ConsumerAttach.NilMeansTrackIffNoDuplex`,
  `ConsumerAttach.DuplexMediaAttachesNothing`).
* The counter of attachments under way does not hold up a sweep that has looked at it
  before. Such a sweep can stop a producer between the step of an attachment that gets a
  track and the step that reads it (`Interleaving.SweepBesideAttachment`,
  `Interleaving.LateSweepTakesTrack`), and a reconnect in between can move the track away
  (`Interleaving.ReaderMeetsReconnectIff`). The reader is held exactly when the track is
  still one of the producer's (`Interleaving.HungIsHeldIff`), and without those two it
  always is (`Interleaving.GotTrackStays`).
* Packing and unpacking an ADTS stream is the identity exactly for at most 4095
  frames of which the last is not empty (`AacRtp.FramePackUnpack`,
  `AacRoutes.PackThenReframe`).
* A header with frequency index 15 loses its channels on the way through a codec
  (`AdtsHeader.HeaderRoundTrip`).
* The least 64-bit integer is not written in decimal (`EventPoller.FormatParses`).
* A template such as `{x{typo}` is accepted although expanding it meets an unknown
  token (`TemplateBraces.HiddenTypo`). The comment on `Expand` says that parsing
  rules this out; `TemplateBraces.NothingPassedThroughIff` says when it does.
* The report of a chronic error outlives the entry it was about, so a new camera
  of that name is not reported (`CameraSlot.ReportOutlivesRun`,
  `CameraSlot.ReportedIff`).
* Changing the quality of a camera that is routed over WebRTC puts it back on TUTK
  (`CameraSlot.QualityKeepsRouteIff`).
* Promotion, errors and failures belong to a name, not to a camera. They follow a camera
  through a discovery exactly when it has kept its name, or the same was known under the
  new one (`CameraIdentity.FlagsFollowIff`, `CameraIdentity.UnlistedKeepsIff`); two
  cameras that swap names swap them (`CameraIdentity.SwapExchangesFlags`), and a camera
  renamed to an unused name loses them (`CameraIdentity.RenameForgets`). So the fallback
  is neither sticky for the process nor reported once, as the comments on it say
  (`CameraIdentity.PromotedTwice`); it is both as long as camera and name belong together
  (`CameraIdentity.StickyUnderOneName`). The comment on `Camera.Name` says that
  `UpdateInfo` keeps the old name; it replaces all of the information, and the name is
  unchanged only because discovery looks entries up by it.
* A press of a button that is reported after a later one of its camera is never
  dispatched, however far apart they are (`RingDeduper.LateIsSuppressed`). A press that no
  press reported before it is within the window of is lost exactly when a later one was
  reported before it (`RingDeduper.LostIff`).
* The comment on the deduper compares a press with the most recent one, the code with the
  last one dispatched. Both decide alike on a run exactly when every press is near the
  most recent one and near the first of its chain, or near neither
  (`RingDeduper.RulesAgreeIff`); on presses at 0, 6 and 12 with a window of 10 they do
  not (`RingDeduper.ThirdOfChainIsDispatched`).
* A player of a transport stream can get a segment with nothing new in it: the first write
  alone. That is so exactly for a look before which nothing but empty writes came since the
  look before, once a segment was returned and if the first write has bytes
  (`HlsSession.BareSegmentIff`, `HlsSession.SecondPoll`).

## Model

| member | source | states |
|---|---|---|
| `Tracks.FirstTaken` | go2rtc/internal/streams/producer.go:209-225 | the receiver that a media takes over is the first, at or after a place, that it matches and can get a track for |
| `Tracks.ReadersSurviveIffNoClobber` | go2rtc/internal/streams/producer.go:206-233 | moving the tracks, before the old connection is stopped, keeps every reader of every receiver, and brings in no other, exactly when no media overwrites a held track that has readers |
| `Tracks.FreshAnswersDoNotClobber` | go2rtc/internal/streams/producer.go:206-233 | nothing is overwritten when the new connection answers with new tracks, a different one for each media |
| `Tracks.MoveAllKeepsReader` | go2rtc/pkg/core/node.go:75-88 | a reader that hangs below a receiver still does after all moves, if none of them clobbers |
| `Tracks.MoveAllLosesReader` | go2rtc/pkg/core/node.go:75-88 | a clobbering move leaves some reader hanging nowhere, for good |
| `Tracks.HeldBefore` | go2rtc/pkg/core/node.go:75-88 | moving readers brings none in from outside: what a track of the new connection had is overwritten |
| `Tracks.SharedTrackLosesReader` | go2rtc/internal/streams/producer.go:206-225 | a connection that answers two medias with one track loses the first receiver's reader |
| `Tracks.LeavesIff` | go2rtc/internal/streams/producer.go:209-225 | with answers that are not receivers yet, a receiver is moved by the first n medias exactly when it is the first that one of them can take over, and is otherwise what it was |
| `Tracks.SecondVideoReceiverIsStranded` | go2rtc/internal/streams/producer.go:209-225 | with two video receivers that suit the same medias the first is moved twice and the second never |
| `Closing.RemoveChild` | go2rtc/pkg/core/node.go:50-59 | cuts the first occurrence of a reader out of the list, in place |
| `Closing.CloseInPlace` | go2rtc/pkg/core/node.go:61-73 | the loop over a list that every reader takes itself off while it runs leaves what the specification says |
| `Closing.CloseAll` | go2rtc/pkg/core/connection.go:71-73 | closes the tracks of a connection, one after the other |
| `Closing.ClosedIsSpared` | go2rtc/pkg/core/node.go:61-73 | what is left of different readers below a closed track is every second one, but for the last |
| `Closing.OutlivesIff` | go2rtc/pkg/core/node.go:61-73 | a reader outlives the closing of its track exactly when its place is odd and not the last; all are detached exactly when there are at most two |
| `Closing.CloseTracksAt` | go2rtc/pkg/core/connection.go:71-73 | closing tracks adds nobody, leaves other tracks alone, and detaches the first reader at least of each that is closed |
| `Handover.ReadersKeptIff` | go2rtc/internal/streams/producer.go:206-238 | moving the tracks and stopping the old connection keeps every reader exactly when no media overwrites a held track that has readers and none of the receivers left to the old connection has readers |
| `Handover.ReadersKeptIffTakenOver` | go2rtc/internal/streams/producer.go:206-238 | with a connection whose tracks are its own, that is: exactly when nothing is overwritten and every receiver with readers that the old connection owns is taken over |
| `Handover.ReadersFedIff` | go2rtc/internal/streams/producer.go:206-238 | every reader gets the new connection's packets exactly when nothing is overwritten and every receiver with readers, whoever owned it, is taken over |
| `Handover.LeavesIffFirstSuited` | go2rtc/internal/streams/producer.go:209-225 | if every track asked for is answered, a receiver is moved exactly when, by the codec lists alone, it is the first that some media suits at its turn |
| `Handover.SendersHandedOver` | go2rtc/internal/streams/producer.go:225-238 | after a reconnect each sender has the readers it had, without what the old connection had hung there and with what the new one has hung |
| `Handover.UnhangAll` | go2rtc/pkg/core/connection.go:74-76 | closing what a connection has hung takes each reader off its track |
| `Medias.MatchMediaIff` | go2rtc/pkg/core/media.go:49-66 | two medias fit exactly when they are of one kind, not the same way, and some codecs match; the pair is the first of the producer's codecs that matches any, with the first that it matches |
| `Medias.FindPair` | go2rtc/pkg/core/media.go:49-66 | the two loops find that pair |
| `Medias.TakesAll` | go2rtc/pkg/core/media.go:77-84 | whether a media has the codec that stands for all |
| `ProducerLifecycle.RunKeepsInv` | go2rtc/internal/streams/producer.go:57-270 | over every interleaving, with readers that come and go: activities carry ids up to the generation, one carries the current one exactly in the start state and none twice; every connection acquired is current or was stopped once; the connection is nil exactly in the initial state, which has no receivers and no senders; the current worker drives the current connection |
| `ProducerLifecycle.OneLiveWorker` | go2rtc/internal/streams/producer.go:144-174 | of two running workers one has a connection that was stopped |
| `ProducerLifecycle.StaleActivityOnlyEnds` | go2rtc/internal/streams/producer.go:160-183 | a worker or timer of an earlier generation changes nothing but itself |
| `ProducerLifecycle.StoppedStaysStopped` | go2rtc/internal/streams/producer.go:245-270 | until it is dialled again, no step touches a stopped producer, but for what consumers do to the readers of tracks |
| `ProducerLifecycle.ExternalIsNeverStopped` | go2rtc/internal/streams/producer.go:249-252 | in every run an external producer keeps its connection and state, is not stopped and has no goroutines |
| `ProducerLifecycle.RunKeepsTrees` | go2rtc/pkg/core/node.go:42-88 | in every run, with reconnects, stops and consumers that come and go, no reader comes to hang below two tracks or twice below one |
| `ProducerLifecycle.ReconnectKeepsReadersIff` | go2rtc/internal/streams/producer.go:206-242 | a reconnect keeps the number of receivers; it keeps every reader exactly when no media overwrites a held track with readers and every receiver with readers that the old connection owns is taken over |
| `ProducerLifecycle.ReconnectFeedsReadersIff` | go2rtc/internal/streams/producer.go:206-242 | every reader is then below a track of the new connection exactly when nothing is overwritten and every receiver with readers is taken over |
| `ProducerLifecycle.RunThenReconnectIff` | go2rtc/internal/streams/producer.go:206-242 | at the end of any run a reconnect keeps every reader exactly under that condition; nothing is assumed of the state but that the reconnect is due |
| `ProducerLifecycle.TwoReadIsReached` | go2rtc/internal/streams/producer.go:57-174 | a run from a new producer to one that reads two tracks and is about to reconnect |
| `ProducerLifecycle.AudioIsStranded` | go2rtc/internal/streams/producer.go:206-238 | such a producer loses the reader of its second track, whose receiver stays in the list, to a new connection that suits the first one only |
| `ProducerLifecycle.BatonMeansConn` | go2rtc/internal/streams/producer.go:235-236 | the activity with the current id finds a connection to stop |
| `ProducerLifecycle.ReconnectKeepsInv` | go2rtc/internal/streams/producer.go:176-243 | one reconnect, whatever the network answers, keeps all four invariants |
| `ProducerLifecycle.WorkerReturnsKeepsInv` | go2rtc/internal/streams/producer.go:160-174 | a worker that comes back, with an error or without, keeps all four invariants |
| `ProducerLifecycle.StartKeepsInv` | go2rtc/internal/streams/producer.go:144-158 | a start keeps all four invariants |
| `ProducerLifecycle.StopKeepsInv` | go2rtc/internal/streams/producer.go:245-270 | a stop keeps all four invariants |
| `ProducerLifecycle.Producer.New` | go2rtc/internal/streams/producer.go:41-47 | a new producer is in the initial state and has nothing |
| `ProducerLifecycle.Producer.Adopt` | go2rtc/internal/streams/stream.go:82-87 | a producer around a connection that something else owns |
| `ProducerLifecycle.Producer.Dial` | go2rtc/internal/streams/producer.go:57-72 | opens a connection only in the initial state and fails exactly when it is still there afterwards |
| `ProducerLifecycle.Producer.GetTrack` | go2rtc/internal/streams/producer.go:85-111 | answers with the receiver of this very codec if there is one, else with a new one, and never after a stop |
| `ProducerLifecycle.Producer.AddTrack` | go2rtc/internal/streams/producer.go:113-132 | adds a sender exactly when the connection takes it and hangs its reader there |
| `ProducerLifecycle.Producer.Attach` | go2rtc/pkg/core/node.go:42-48 | hangs a reader below a track and touches no other |
| `ProducerLifecycle.Producer.Start` | go2rtc/internal/streams/producer.go:144-158 | starts a worker of a new generation, only in the tracks state |
| `ProducerLifecycle.Producer.Worker` | go2rtc/internal/streams/producer.go:160-174 | a worker that fails after the generation moved on ends; any other goes on to a reconnect |
| `ProducerLifecycle.Producer.TakeOver` | go2rtc/internal/streams/producer.go:209-225 | the loop over the receivers moves what the specification of one media says, and asks the new connection for that track alone |
| `ProducerLifecycle.Producer.HandOver` | go2rtc/internal/streams/producer.go:225-233 | the loop over the senders hands each that suits a sendonly media to the new connection, in order, errors ignored |
| `ProducerLifecycle.Producer.MoveTracks` | go2rtc/internal/streams/producer.go:206-233 | the loop over the medias moves receivers and hands over senders as the specification of all of them says |
| `ProducerLifecycle.Producer.StopConn` | go2rtc/internal/streams/producer.go:238 | the old connection closes exactly the tracks it has handed out and the readers it has hung, and is stopped once more |
| `ProducerLifecycle.Producer.SwitchTo` | go2rtc/internal/streams/producer.go:206-242 | tracks first, then the stop, then the new connection with what was asked of it and a worker of the same generation |
| `ProducerLifecycle.Producer.Reconnect` | go2rtc/internal/streams/producer.go:176-243 | drops a stale call, schedules a retry after an error, else moves tracks and senders, stops the old connection and starts a worker of the same generation |
| `ProducerLifecycle.Producer.Stop` | go2rtc/internal/streams/producer.go:245-270 | skips external and initial producers, moves the generation on in the start state, closes what the connection owned, and ends in the initial state without tracks |
| `ProducerLifecycle.Producer.Depart` | go2rtc/internal/streams/stream.go:67-68 | what the stop of a consumer does to the tracks of one producer |
| `StreamSweep.SweepStopsExactlyUnread` | go2rtc/internal/streams/stream.go:100-122 | a sweep leaves a producer in the initial state exactly when nobody is being attached, no track has readers and it is not external, and stops its connection once exactly then; else nothing changes |
| `StreamSweep.SweepKeepsReaders` | go2rtc/internal/streams/stream.go:106-119 | a producer with a held reader is not swept |
| `StreamSweep.AnyReadIff` | go2rtc/internal/streams/stream.go:108-117 | the loop over tracks finds readers exactly when some track has some |
| `StreamSweep.SweepEachAt` | go2rtc/internal/streams/stream.go:105-121 | sweeping all producers does to each what a sweep does to it alone |
| `StreamSweep.LastReaderStopsProducer` | go2rtc/internal/streams/stream.go:67-80 | when a consumer leaves, a producer is given up, and its connection stopped once, exactly when nobody is being attached, it is not external and nothing of it is read but by that consumer |
| `StreamSweep.LastReaderAfterRun` | go2rtc/internal/streams/stream.go:67-80 | the same at the end of any run of the producer, with nothing assumed of its state but that it is not stopped |
| `StreamSweep.OthersAreUntouched` | go2rtc/internal/streams/stream.go:67-80 | a producer with readers that the consumer has nothing to do with keeps state, connection, tracks and readers |
| `StreamSweep.UnreadIff` | go2rtc/pkg/core/node.go:50-59 | a track has lost all readers exactly when all of them were the consumer's |
| `Seqs.RemoveFirstAt` | go2rtc/internal/streams/stream.go:70-75 | the first occurrence goes and the others keep their order |
| `ConsumerAttach.FailedProducerIsSkipped` | go2rtc/internal/streams/add_consumer.go:21-47 | between any two points of the scan: producers only grow, failures stay, matches are only added, and a producer that had failed is neither dialled nor matched again |
| `ConsumerAttach.AtMostOneTrackPerMedia` | go2rtc/internal/streams/add_consumer.go:49-95 | a consumer media that does not match all is matched at most once |
| `ConsumerAttach.ScanIsRead` | go2rtc/internal/streams/add_consumer.go:21-98 | after any part of the scan every matched producer is out of the initial state and every track that was wired has a reader; the invariants hold |
| `ConsumerAttach.WiredProducerIsStarted` | go2rtc/internal/streams/add_consumer.go:100-115 | a producer that got a track wired is not swept before it starts: it ends started, external or internal, and the track keeps its reader |
| `ConsumerAttach.SettleEachAt` | go2rtc/internal/streams/add_consumer.go:100-115 | each producer ends swept if nobody else is being attached, and started once if it was matched, however often |
| `ConsumerAttach.NoErrorIffTrackAttached` | go2rtc/internal/streams/add_consumer.go:100-109 | if no producer but the consumer's own offers a fitting media that is neither recvonly nor sendonly, `AddConsumer` returns nil exactly when some track was attached |
| `ConsumerAttach.NilMeansTrackIffNoDuplex` | go2rtc/internal/streams/add_consumer.go:54-109 | and the other way round: nil means a track under every answer of the network, each dial opening a new connection, exactly when there is no such media |
| `ConsumerAttach.DuplexMediaAttachesNothing` | go2rtc/internal/streams/add_consumer.go:54-95 | with another direction it returns nil and attaches nothing |
| `ConsumerAttach.ErrorMeansNothingFits` | go2rtc/internal/streams/add_consumer.go:21-109 | after an error, for every consumer media, each producer that is not the consumer's own had failed before that media, could not be reached, or had nothing usable for it |
| `Interleaving.GotTrackStays` | go2rtc/internal/streams/add_consumer.go:10-98 | a track that an attachment has got stays with its producer while the attachment is under way, whatever other attachments, departures and sweeps come, unless the producer is reconnected or passed by a sweep that was on its way before |
| `Interleaving.HungIsHeldIff` | go2rtc/internal/streams/add_consumer.go:65-69 | a new reader is held by the producer exactly when its track is still one of the producer's |
| `Interleaving.WiredStays` | go2rtc/internal/streams/stream.go:100-122 | a producer that is read is swept by nobody, whatever attachments begin and end, until the reader's consumer leaves or the producer is reconnected |
| `Interleaving.WiredByScanIsNotSwept` | go2rtc/internal/streams/add_consumer.go:10-115 | of two scans at once, neither the steps nor the sweep of the other takes a track, its reader or its producer from the one that wired it |
| `Interleaving.SweepIsPasses` | go2rtc/internal/streams/stream.go:105-121 | a sweep that is not interrupted does to the producers what the stream's sweep does |
| `Interleaving.MatchIsTwoSteps` | go2rtc/internal/streams/add_consumer.go:59-69 | a match of the scan is the step that gets the track and the step that reads it |
| `Interleaving.SweepBesideAttachment` | go2rtc/internal/streams/stream.go:101-107 | a sweep that looked at the counter in time is on its way while an attachment dials a stopped producer |
| `Interleaving.LateSweepTakesTrack` | go2rtc/internal/streams/stream.go:101-119 | between the two steps it stops a producer that nobody reads, and the reader then hangs below nothing the producer has |
| `Interleaving.ReaderMeetsReconnectIff` | go2rtc/internal/streams/producer.go:206-225 | with a reconnect between the two steps the reader is held exactly when no media takes over that receiver |
| `Streams.AnyChilds` | go2rtc/internal/streams/stream.go:108-117 | whether some track of a list has readers |
| `Streams.SweepOne` | go2rtc/internal/streams/stream.go:106-120 | the body of the sweep does to a producer what the specification says and keeps its invariant |
| `Streams.HandleOffer` | go2rtc/internal/streams/add_consumer.go:54-92 | one media pair, matched here, changes this producer alone, as specified, and says whether it failed and whether it matched |
| `Streams.OfferMedias` | go2rtc/internal/streams/add_consumer.go:49-95 | the loop over a producer's medias, ended by the first match unless the media matches all |
| `Streams.TryOne` | go2rtc/internal/streams/add_consumer.go:36-95 | dials and offers one producer |
| `Streams.IndexOf` | go2rtc/internal/streams/stream.go:70-75 | the first position, so that cutting there removes the first occurrence |
| `Streams.Stream.constructor` | go2rtc/internal/streams/stream.go:18-51 | a stream with these producers, no consumers and nothing pending |
| `Streams.Stream.StopProducers` | go2rtc/internal/streams/stream.go:100-122 | does nothing while something is pending, else sweeps every producer |
| `Streams.Stream.StopConsumer` | go2rtc/internal/streams/stream.go:68 | the stop of a consumer does to each producer what it does to it alone |
| `Streams.Stream.RemoveConsumer` | go2rtc/internal/streams/stream.go:67-80 | the consumer's readers and tracks go from every producer, its first occurrence is dropped, and the producers are swept |
| `Streams.Stream.AddProducer` | go2rtc/internal/streams/stream.go:82-87 | appends an external producer |
| `Streams.Stream.RemoveProducer` | go2rtc/internal/streams/stream.go:89-98 | drops the first producer on this connection, or nothing |
| `Streams.Stream.TryAll` | go2rtc/internal/streams/add_consumer.go:28-97 | the loop over the producers for one consumer media |
| `Streams.Stream.ScanAll` | go2rtc/internal/streams/add_consumer.go:15-98 | the nested loops leave the producers as the specification of the scan says |
| `Streams.Stream.Settle` | go2rtc/internal/streams/add_consumer.go:100-115 | the sweep, the error and the starts |
| `Streams.Stream.AddConsumer` | go2rtc/internal/streams/add_consumer.go:10-115 | returns no error exactly when something matched, then appends the consumer once; the counter is as before on every path, and every producer is as specified |
| `Bits.UnpackPack` | go2rtc/pkg/bits/writer.go:22-32 | bits that are written are read back, followed by zeros |
| `Bits.FieldWritten` | go2rtc/pkg/bits/reader.go:64-69 | a field read where a number was written is its low bits |
| `Bits.Writer.WriteBit` | go2rtc/pkg/bits/writer.go:22-32 | appends one bit to the stream that the buffer packs |
| `Bits.Writer.WriteBits` | go2rtc/pkg/bits/writer.go:34-38 | appends the low bits of a number, most significant first |
| `Bits.Writer.WriteAllBits` | go2rtc/pkg/bits/writer.go:52-56 | appends one bit several times |
| `Bits.Reader.ReadBit` | go2rtc/pkg/bits/reader.go:53-62 | takes the next bit of the stream, zero after its end |
| `Bits.Reader.ReadBits` | go2rtc/pkg/bits/reader.go:64-69 | takes the next field |
| `AacConfig.IndexUint32` | go2rtc/pkg/aac/aac.go:119-126 | the first place of a value in a table, or -1 if it is not there |
| `AacConfig.EncodeConfig` | go2rtc/pkg/aac/aac.go:80-117 | the packed bits of type, rate, channels and what follows for the two low-delay types |
| `AacConfig.DecodeConfig` | go2rtc/pkg/aac/aac.go:61-78 | the fields of the bit stream, with both escapes |
| `AacConfig.ConfigRoundTrip` | go2rtc/pkg/aac/aac.go:61-117 | decoding an encoded configuration gives back object type, rate and channels exactly when the type is below 96 and not 31, the rate below 2^24 and the channels below 16 |
| `Adts.WriteSize` | go2rtc/pkg/aac/adts.go:82-89 | ors the size into three bytes in place |
| `Adts.SizeRoundTrip` | go2rtc/pkg/aac/adts.go:76-89 | a size is read back exactly when it is below 8192, and then no other field changes |
| `AdtsHeader.CodecToADTS` | go2rtc/pkg/aac/adts.go:101-129 | the header of the configuration that a codec holds |
| `AdtsHeader.ADTSToCodec` | go2rtc/pkg/aac/adts.go:33-74 | nothing for other bytes, else the codec of the header's fields |
| `AdtsHeader.HeaderBytes` | go2rtc/pkg/aac/adts.go:101-129 | every header is seven bytes, recognised, without checksum and with size zero |
| `AdtsHeader.HeaderRoundTrip` | go2rtc/pkg/aac/adts.go:33-129 | from a header to a codec and back keeps profile and frequency index, and the channels exactly when the index is below 15 or there were none |
| `AacRtp.EncodeToADTS` | go2rtc/pkg/aac/adts.go:131-148 | leaves a framed payload alone, else header with size and payload |
| `AacRtp.FramedIsWellFormed` | go2rtc/pkg/aac/adts.go:131-148 | a payload of at most 8184 bytes becomes a frame that says its own length and ends in the payload |
| `AacRtp.Depay.Handle` | go2rtc/pkg/aac/rtp.go:12-64 | the units that a packet announces and holds, and the clock |
| `AacRtp.ADTStoRTP` | go2rtc/pkg/aac/rtp.go:100-110 | the packet for an ADTS stream |
| `AacRtp.FramePackUnpack` | go2rtc/pkg/aac/rtp.go:12-110 | framing, packing and unpacking give back the payloads in order exactly when there are at most 4095 and the last is not empty |
| `AacRtp.UnpackedTimestamps` | go2rtc/pkg/aac/rtp.go:46-60 | the units come 1024 ticks apart modulo 2^32 |
| `AacRtp.AtMost4095Units` | go2rtc/pkg/aac/rtp.go:16-33 | no packet yields more than 4095 units |
| `AacRoutes.Pay.Handle` | go2rtc/pkg/aac/rtp.go:66-98 | one unit per packet, with counters modulo 2^16 and 2^32 |
| `AacRoutes.PayThenDepay` | go2rtc/pkg/aac/rtp.go:12-98 | unpacking undoes packing exactly for payloads below 8192 bytes that are not framed |
| `AacRoutes.PayedNumbers` | go2rtc/pkg/aac/rtp.go:66-98 | packet n has sequence number n modulo 2^16 and timestamp 1024 n modulo 2^32 |
| `AacRoutes.PayRunThenDepayRun` | go2rtc/pkg/aac/rtp.go:12-98 | a whole stream sent and received gives the payloads in order, 1024 ticks apart |
| `AacRoutes.RTPToADTS` | go2rtc/pkg/aac/rtp.go:118-149 | the frames of the announced units, or nothing when something is out of range |
| `AacRoutes.RoutesAgree` | go2rtc/pkg/aac/rtp.go:118-149 | a packet of raw units becomes what framing each of them would give |
| `AacRoutes.PackThenReframe` | go2rtc/pkg/aac/rtp.go:100-149 | packing a stream of frames and turning it back is the identity exactly for at most 4095 frames of which the last is not a bare header |
| `AacRoutes.ADTSTimeSize` | go2rtc/pkg/aac/adts.go:91-99 | 1024 ticks for each frame counted |
| `AacRoutes.CountOfStream` | go2rtc/pkg/aac/adts.go:91-99 | a stream of frames is counted exactly, but for a last frame without payload |
| `AacRoutes.TimeOfFramed` | go2rtc/pkg/aac/adts.go:91-148 | framed payloads, the last not empty, last 1024 ticks each |
| `AacRoutes.Producer.ReadOne` | go2rtc/pkg/aac/producer.go:50-81 | one round of the reader takes one frame, or fails |
| `AacRoutes.Producer.Start` | go2rtc/pkg/aac/producer.go:49-85 | the reader delivers what the specification reads from the stream, and counts it |
| `AacRoutes.ReadFrames` | go2rtc/pkg/aac/producer.go:49-85 | from a stream of frames, with checksums or not, every body is delivered, all are counted and nothing is left |
| `AacRoutes.ReaderInvertsFramer` | go2rtc/pkg/aac/producer.go:49-85 | reading framed payloads delivers them in order and consumes every byte |
| `AacRoutes.CodecHeaderIsGood` | go2rtc/pkg/aac/adts.go:101-129 | the header of every codec is one that the framing results are about |
| `LogRing.LogKeepsOrder` | go2rtc/internal/app/log.go:133-163 | all writes since the reset are those forgotten followed by those held, in order |
| `LogRing.LogNeighboursFull` | go2rtc/internal/app/log.go:136-147 | two neighbouring chunks together exceed the chunk size |
| `LogRing.LogIsSuffix` | go2rtc/internal/app/log.go:133-183 | what is printed is a suffix cut at a write boundary; all of it while fewer than sixteen chunks are in use; more than eight chunks' worth once anything is forgotten |
| `LogRing.HoldsLastChunks` | go2rtc/internal/app/log.go:133-163 | after any writes the ring holds the last sixteen chunks of the log that is chunked in the same way without a bound, and has forgotten exactly those before them: nothing before a seventeenth is needed |
| `LogRing.CircularBuffer.Advance` | go2rtc/internal/app/log.go:137-155 | the indices wrap so that the ring holds the log's groups |
| `LogRing.CircularBuffer.Write` | go2rtc/internal/app/log.go:133-163 | the ring takes a write as the log does |
| `LogRing.CircularBuffer.WriteTo` | go2rtc/internal/app/log.go:165-183 | emits what the log holds |
| `LogRing.CircularBuffer.Reset` | go2rtc/internal/app/log.go:185-191 | the log is empty again |
| `EventPoller.WriteInt` | internal/events/events.go:94-114 | the digits that the buffer is filled with |
| `EventPoller.FormatParses` | internal/events/events.go:94-114 | the text of an integer reads back as that integer exactly when it is not the least one |
| `EventPoller.NumberIsRing` | internal/events/events.go:79-92 | a numeric tag is the doorbell's exactly when it truncates to ten |
| `EventPoller.RunKeepsInv` | internal/events/events.go:342-474 | over all batches: what is seen is what the buffer holds, which is the last 256 marks, and no id is marked twice within 256 |
| `EventPoller.DispatchedAgainOnlyAfter256` | internal/events/events.go:395-474 | between two dispatches of one id lie 256 marks of other, distinct ids |
| `EventPoller.DispatchedByHistory` | internal/events/events.go:342-474 | over all batches, what is dispatched are the events whose id is not among the last 256 of a plain list of all marks, that are recent and whose camera is known: in order, each once, with its own kind and camera |
| `EventPoller.WatermarkIsMaximum` | internal/events/events.go:362-393 | the watermark never falls and is the largest mark of any event so far |
| `EventPoller.WatermarkIgnoresOrder` | internal/events/events.go:362-393 | order, batching, repetition and the time of the poll do not matter to it |
| `EventPoller.OpenRingStaysVisible` | internal/events/events.go:362-393 | an open button press never moves it to or past its own beginning |
| `EventPoller.Poller.MarkSeen` | internal/events/events.go:466-474 | the oldest id leaves both the set and the buffer |
| `EventPoller.Poller.ProcessEvents` | internal/events/events.go:342-463 | a batch is processed as specified, and keeps the invariant |
| `RingDeduper.DispatchedAreSpaced` | internal/go2rtcmgr/ringwatcher.go:147-157 | in any order of arrival, dispatched presses of a camera are at least the window apart |
| `RingDeduper.CamerasAreIndependent` | internal/go2rtcmgr/ringwatcher.go:147-157 | what is dispatched for a camera is what would be if there were no other |
| `RingDeduper.DispatchesTheMost` | internal/go2rtcmgr/ringwatcher.go:147-157 | for presses in order of time, no choice of presses spaced by the window is larger than what is dispatched |
| `RingDeduper.SuppressedIff` | internal/go2rtcmgr/ringwatcher.go:147-157 | in any run, a press is suppressed exactly when it is earlier than the window after some press of its camera that was dispatched before |
| `RingDeduper.LateIsSuppressed` | internal/go2rtcmgr/ringwatcher.go:147-157 | in any run and from any state, a press reported after a later or equal one of its camera is suppressed |
| `RingDeduper.LostIff` | internal/go2rtcmgr/ringwatcher.go:147-157 | in any run, a press that no press of its camera reported before is within the window of is suppressed exactly when a later one was reported before |
| `RingDeduper.DispatchedSnoc` | internal/go2rtcmgr/ringwatcher.go:147-157 | the dispatched presses of a run are those at the places that these speak of |
| `RingDeduper.RulesAgreeIff` | internal/go2rtcmgr/ringwatcher.go:124-157 | the code decides every press of a run as its comment says exactly when each is within the window of both the most recent press and the first of its chain, or of neither |
| `RingDeduper.ThirdOfChainIsDispatched` | internal/go2rtcmgr/ringwatcher.go:124-157 | the third of three presses, each near the one before, is dispatched although the comment says it is not |
| `RingDeduper.Deduper.ShouldDispatch` | internal/go2rtcmgr/ringwatcher.go:147-157 | decides and remembers as specified |
| `HlsSession.Mp4Conserves` | go2rtc/internal/hls/session.go:56-127 | for fragmented MP4 the segments and the buffer are what was written after the first write, and the sequence number is the number of segments |
| `HlsSession.TsConserves` | go2rtc/internal/hls/session.go:56-127 | for transport streams the same holds after removing the first write, with which every later segment and the buffer start; the first segment is payload only |
| `HlsSession.BufferIs` | go2rtc/internal/hls/session.go:56-127 | in every run the buffer is the prefix of the next segment and what was written since the last look |
| `HlsSession.BareSegmentIff` | go2rtc/internal/hls/session.go:113-122 | a look returns a segment without anything new exactly when nothing was written since the look before and the segment has a prefix: a transport stream whose first write has bytes, once a segment was returned |
| `HlsSession.SecondPoll` | go2rtc/internal/hls/session.go:106-127 | after a look that returned a segment, the next one returns nothing, or the first write alone, exactly when no write in between brought bytes |
| `HlsSession.Session.Write` | go2rtc/internal/hls/session.go:56-65 | the first write that is not nil is kept apart, the others are appended |
| `HlsSession.Session.Take` | go2rtc/internal/hls/session.go:113-123 | one look returns the buffer if it holds anything |
| `HlsSession.Session.Segment` | go2rtc/internal/hls/session.go:106-127 | up to sixty looks, ended by the first that finds something; at most one segment is taken, and none only if the buffer is empty at the end |
| `HlsSession.Session.Init` | go2rtc/internal/hls/session.go:89-104 | answers with the first write, only when there is something to play |
| `HlsSession.Session.Playlist` | go2rtc/internal/hls/session.go:85-87 | the media sequence number of section 4.3.3.2 of RFC 8216 is the number of segments returned so far |
| `ShellSplit.Splitted` | internal/recording/template.go:214-274 | the loop splits as specified |
| `ShellSplit.FailsExactlyInsideQuote` | internal/recording/template.go:269-271 | splitting fails exactly when an automaton over single characters ends inside a quote |
| `ShellSplit.SplitsEverySpelling` | internal/recording/template.go:205-274 | words spelled in any way by the documented rules, with any blanks around them, are given back |
| `ShellSplit.SplitInvertsQuoting` | internal/recording/template.go:205-274 | quoting any words and joining them by spaces is undone |
| `TemplateBraces.IsValidTokenName` | internal/recording/template.go:188-203 | whether a text is a letter or underscore followed by letters, digits and underscores |
| `TemplateBraces.NextClose` | internal/recording/template.go:107-112 | the first closing brace from a place on |
| `TemplateBraces.Resolve` | internal/recording/template.go:130-160 | exactly the known tokens have a value |
| `TemplateBraces.Substitute` | internal/recording/template.go:99-128 | the loop fills in as specified |
| `TemplateBraces.ReplacesEveryToken` | internal/recording/template.go:99-128 | every token there is, and nothing else, is replaced at its place; the places do not depend on the values, which are never scanned again |
| `TemplateBraces.ExtractTokens` | internal/recording/template.go:164-183 | the names that the validating scan collects |
| `TemplateBraces.ReportsExactlyClearTokens` | internal/recording/template.go:164-183 | the validating scan reports a token exactly when no earlier brace is open before it, in order |
| `TemplateBraces.ScannersAgreeIff` | internal/recording/template.go:99-183 | both scanners find the same tokens exactly when no token stands behind an open brace |
| `TemplateBraces.AgreeWithoutNesting` | internal/recording/template.go:99-183 | so they do when no brace opens between an opening and the next closing one |
| `TemplateBraces.ParseRecordTemplate` | internal/recording/template.go:56-82 | the three errors and the words, with all unknown tokens |
| `TemplateBraces.AcceptedIff` | internal/recording/template.go:56-82 | a template is accepted exactly when it splits into words and every token not behind an open brace is known |
| `TemplateBraces.Expand` | internal/recording/template.go:87-93 | every word is filled in |
| `TemplateBraces.NothingPassedThroughIff` | internal/recording/template.go:84-93 | in an accepted template every token has a value exactly when those behind an open brace are known |
| `TemplateBraces.HiddenTypo` | internal/recording/template.go:84-128 | a template that is accepted and holds an unknown token |
| `CameraSlot.RunKeepsInv` | internal/camera/manager.go:272-404 | every run of operations on a name keeps camera, report and log in agreement |
| `CameraSlot.StreaksStayBelow` | internal/camera/manager.go:615-650 | a streaming camera has no errors and no streak; without promotion the streak stays below the threshold; a promoted camera has none and is routed over WebRTC |
| `CameraSlot.PromotedOnThreshold` | internal/camera/manager.go:615-650 | a promotion comes exactly on the threshold-th failure since the camera last streamed, of which only the first can be a lost stream |
| `CameraSlot.PromotedOnce` | internal/camera/manager.go:615-650 | two promotions under one name have a new entry between them |
| `CameraSlot.PromotionSticks` | internal/camera/manager.go:330-340 | as long as an entry is not dropped, it stays promoted and is routed over WebRTC |
| `CameraSlot.ReportsAlternate` | internal/camera/manager.go:591-665 | reports and recoveries of chronic errors alternate, and each report comes with the tenth error |
| `CameraSlot.ReportedIff` | internal/camera/manager.go:591-665 | an error stands reported exactly when the camera has ten errors, or an entry was dropped with its report standing and none streamed since |
| `CameraSlot.ReportOutlivesEntry` | internal/camera/manager.go:447-474 | a new camera under the name of a dropped one inherits its report |
| `CameraSlot.ReportOutlivesRun` | internal/camera/manager.go:447-474 | the run in which that happens: ten failed attempts, a drop, and a new camera under the name |
| `CameraSlot.QualityKeepsRouteIff` | internal/camera/manager.go:512-527 | the source that is re-added is the routed one exactly when that is TUTK |
| `CameraSlot.BackoffGrows` | internal/camera/camera.go:146-157 | the wait starts at five seconds, doubles up to five errors and is five minutes exactly from six on |
| `Discovery.SightedIs` | internal/camera/manager.go:194-217 | entering a list gives a name the last camera's information and keeps everything else of its entry |
| `Discovery.FoundIs` | internal/camera/manager.go:194-227 | what a discovery makes of a name in its list |
| `Discovery.AbsentIs` | internal/camera/manager.go:221-227 | what it makes of one that is not |
| `Discovery.RunKeepsAll` | internal/camera/manager.go:188-229 | in every run each entry is filed under its camera's name, no two share a MAC address, and every name keeps the invariant |
| `Discovery.DiscoverKeepsMap` | internal/camera/manager.go:188-229 | one discovery keeps names and distinct MAC addresses |
| `Discovery.AbsentAreOffline` | internal/camera/manager.go:221-227 | every entry that was not in the list is offline |
| `Discovery.SurvivesIff` | internal/camera/manager.go:447-474 | a discovered name keeps an entry exactly when its last camera has no MAC address or was last seen under that name |
| `Discovery.DistinctMacsSurvive` | internal/camera/manager.go:447-474 | with distinct MAC addresses every discovered name survives, swapped names too |
| `Discovery.DroppedIffRenamed` | internal/camera/manager.go:441-474 | an entry that is not in the list is dropped exactly when its MAC address is |
| `Discovery.FlagsStayWithName` | internal/camera/manager.go:198-200 | an entry that is found again keeps errors, failures and promotion, whichever camera has the name |
| `Discovery.ListedAre` | internal/camera/manager.go:162-180 | a camera of the account is discovered exactly when it is not a Gwell camera that is switched off, and the user's filter lets it pass or would let none pass |
| `CameraIdentity.FlagsFollowIff` | internal/camera/manager.go:188-229 | a camera that is found has at most the entry of its last name, and has it exactly when it is also the last of that name; what was learnt about it follows it exactly when it has kept its name or the same was known under the new one |
| `CameraIdentity.UnlistedKeepsIff` | internal/camera/manager.go:188-229 | a camera that is not found keeps its entry, and all that is known, exactly when no other was found under its name |
| `CameraIdentity.SwapExchangesFlags` | internal/camera/manager.go:198-200 | two cameras that swap names swap errors, failures and promotion |
| `CameraIdentity.RenameForgets` | internal/camera/manager.go:447-474 | a camera renamed to an unused name loses its entry, and nothing is known under the new one |
| `CameraIdentity.PromotedTwice` | internal/camera/manager.go:118-120 | a run in which one camera is promoted under its old name and again under its new one, although the callback is to come once per camera |
| `CameraIdentity.StickyUnderOneName` | internal/camera/camera.go:54-57 | in every run in which no discovery finds the camera under another name or another camera under its name, it is promoted at most once and is routed over WebRTC from then on |
| `CameraManager.Camera.SetState` | internal/camera/camera.go:80-90 | streaming clears errors and streak |
| `CameraManager.Camera.IncrementError` | internal/camera/camera.go:93-99 | counts an error and returns the wait |
| `CameraManager.Camera.IncrementTUTKFail` | internal/camera/camera.go:103-108 | counts a failure |
| `CameraManager.Camera.ResetTUTKFail` | internal/camera/camera.go:120-124 | clears the streak |
| `CameraManager.Camera.SetForceWebRTC` | internal/camera/camera.go:136-144 | says whether the flag changed |
| `CameraManager.Camera.BackoffDuration` | internal/camera/camera.go:148-157 | the doubling loop computes five seconds times a power of two, five minutes at most |
| `CameraManager.Camera.UpdateInfo` | internal/camera/camera.go:181-185 | replaces the information and nothing else |
| `CameraManager.Manager.SetGo2RTCAPI` | internal/camera/manager.go:95-97 | the streaming server is attached from then on |
| `CameraManager.Manager.StreamSourceFor` | internal/camera/manager.go:330-340 | the source and protocol that a camera is routed to |
| `CameraManager.Manager.ChangeState` | internal/camera/manager.go:568-587 | does nothing for the same state, clears a report on streaming, and touches no other name |
| `CameraManager.Manager.MaybeReportChronic` | internal/camera/manager.go:591-605 | reports from ten errors on, once |
| `CameraManager.Manager.ClearChronic` | internal/camera/manager.go:654-665 | takes a standing report back |
| `CameraManager.Manager.RecordTUTKFailure` | internal/camera/manager.go:615-650 | counts and promotes as specified |
| `CameraManager.Manager.ConnectCamera` | internal/camera/manager.go:272-325 | one attempt, as specified, and no other name is touched |
| `CameraManager.Manager.CheckOne` | internal/camera/manager.go:362-404 | one camera's health check, as specified |
| `CameraManager.Manager.HealthCheck` | internal/camera/manager.go:343-405 | every camera is checked, in whatever order the map gives |
| `CameraManager.Manager.SetQuality` | internal/camera/manager.go:512-527 | sets the quality and re-adds the stream with the camera's own source |
| `CameraManager.Manager.RestartStream` | internal/camera/manager.go:530-541 | takes the camera offline and connects it |
| `CameraManager.Manager.StartStream` | internal/camera/manager.go:544-554 | the same unless it is streaming |
| `CameraManager.Manager.StopStream` | internal/camera/manager.go:557-566 | takes the camera offline |
| `CameraManager.Manager.SupportedOf` | internal/camera/manager.go:168-178 | the cameras that are not Gwell, or all if those are enabled |
| `CameraManager.Manager.ApplyFilter` | internal/camera/filter.go:23-48 | the cameras that the filter lets pass, or all if none would |
| `CameraManager.Manager.Sight` | internal/camera/manager.go:194-217 | updates or creates an entry for each camera of the list |
| `CameraManager.Manager.ReapRenameOrphans` | internal/camera/manager.go:447-474 | drops exactly the entries whose MAC address was seen under another name |
| `CameraManager.Manager.TakeOffline` | internal/camera/manager.go:221-227 | takes the entries offline that were not seen |
| `CameraManager.Manager.Discover` | internal/camera/manager.go:156-230 | filters the account's cameras, does to every name what a discovery does to it, and nothing without a list |

## Left out

- Clocks and timeouts: the delays between retries, sleeps and tickers are steps of the environment; which errored camera is due at a tick of `reconnectErrored`, and the two timestamps of a camera, are not modelled.
- The transport that `Connection.Stop` closes, and protocols whose `Stop` does more than close tracks and senders.
- A consumer's track that several producers send on has one list of readers in the code, and one for each producer in the model.
- `Stream.Play`, `Publish` and internal producers that they make and stop themselves.
- Streams.Stream.StopProducers: the look at `pending` and the sweep are one step; `Interleaving` takes them apart, and the producers of a sweep from each other, but not the look at a producer's readers from its stop.
- Integer width of `workerID`, `retry`, `pending`, error counts and the HLS sequence number: these are unbounded.
- Identity of receivers and senders: a node is found in a table by its track instead of by address, so aliasing between nodes is not captured. Codecs carry a number that stands for theirs.
- The text of the errors that `formatError` and the template parser build, and the sorting of the unknown tokens in it.
- AacRtp.ADTStoRTP: for a frame that says its length is zero the model returns `None` where the code does not return.
- AacRoutes.ADTSTimeSize: likewise, and for a frame longer than what is left, where the code's slice is out of range.
- AacRtp.Depay.Handle: packets of fewer than two bytes are outside the precondition, because the code reads those bytes unchecked.
- HlsSession.Session.Segment: the writes that come in before each look are a parameter, instead of a second goroutine.
- Streams.Stream.AddConsumer: what producers and consumer answer to a media pair that fits is a parameter, fixed before the call; whether it fits is computed.
- Streams.Stream.constructor: takes the producers themselves instead of the source argument, whose type decides how many are made and which text each gets.
- AacRoutes.RTPToADTS: returns `None` whenever a unit is longer than what is left, where a slice expression of the code can reach on to the capacity.
- Bytes beyond the length of the header slice that `RTPToADTS` appends to, and the hexadecimal configuration in a codec's format line: the configuration is passed as bytes.
- Aliasing of `Session.init` with the buffer that a transport stream session restarts from: slices are values.
- Library functions of the template (upper case, directory, extension, decimal notation) are parameters; templates are sequences of bytes.
- Fetching of events, JSON decoding, thumbnails, and the sinks behind the poller; a lookup that fails is an absent key.
- Callbacks of the manager are effects in a log, as if all were registered; requests to the streaming server are outcomes.
- `ConnectAll` and `reconnectErrored` themselves: they run the modelled attempt on several cameras at once, and operations on one camera are modelled one at a time.
- How the user's filter compares names, models and MAC addresses: which cameras it matches is a parameter. Normalisation of names (`CameraInfo.Name` is the normalised name when the list is fetched), audio and recording flags.
- Everything else in the repository: web interface, MQTT, webhooks, recording processes, cloud API, cryptography.
