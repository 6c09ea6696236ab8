# Verified models of the race office: realtime documents, timing protocol and results

The race office keeps race documents in sync between browsers, workers and a server, receives
passings from a timing decoder over the P3 protocol, publishes a live leaderboard, and derives race
results and finish ranks from what the jury records. This project models those parts in Dafny and
proves what they promise.

| files | part of the system |
|---|---|
| `JsonPatch` | JSON documents, applying a patch and computing a diff (RFC 6902, sections 4.1 to 4.3) |
| `RealtimeProtocol`, `RealtimeSystem`, `RealtimeGuarantees`, `RealtimeReconnect`, `RealtimeClasses` | optimistic concurrency on one document: the server's acceptance rule, the transition system of server, clients and FIFO sockets, its guarantees over all runs, how clients get back after a drop or a stale write, and the objects themselves |
| `Publisher`, `PublisherLaws`, `PublisherClasses` | the leaderboard's coalesced snapshot and patch stream, on values, what subscribers can rely on, and as an object |
| `Crc16`, `P3Codec`, `P3Frame`, `P3Stream`, `P3Diagnostics`, `P3Resend`, `P3Reference` | the P3 wire protocol: table-driven CRC, escaping, fields, frames, the stateful stream splitter, what each record reports, RESEND requests, a known frame |
| `RaceResults`, `RaceFields`, `RaceRanking`, `RaceMaterialize`, `RaceLoops` | deriving results from activities, sorting and ranking them, and the loops that do it |
| `RaceActivities`, `RaceAggregate`, `RaceActionLaws`, `RaceBatches`, `RaceActions` | filtering activities, the actions on a race, what each leaves alone and what every run of them keeps |
| `PassingLog`, `PassingLaws` | the finish line log: ring buffers, corrections in place, the event stream |
| `FinishLine`, `FinishLineDrop` | tie groups, competition ranking, drag and drop |
| `Csv`, `DelimitedText`, `ResultsCsv` | the results export and the delimited text parser |
| `StageValue` | counting up a stage value |
| `Wrappers`, `Sequences`, `Sorting`, `Text` | options and results, filtering and folding, the stable sort, numerals and white space |

Code that updates state in place is modelled by classes and loops, each proved equal to a function on
values; the theorems are about those functions and about all runs built from them.

Three laws one might expect do not hold without a condition, and the exact condition is proved:

- Reading an open socket's queue ends on the server's current document if and only if the document was
  never falsy since the last snapshot (`QueueLeadsToServer`). Documents are objects or arrays by type, so the
  condition always holds there (`DrainedClientIsCurrent`); `FalsyDocumentSticks` shows what a null
  document does.
- Results and starters have the same bibs after a starter change if and only if every plain DNF names a
  starter, because the filter lets a plain DNF pass (`ReplacedStartersMatchResults`). The source's own
  comment lists which activities are filtered and leaves the plain DNF out.
- The results export is read back if and only if no finish time has a carriage return or line feed,
  because the parser splits lines before it looks at quotes (`ExportRoundTrip`).

The starter merge that skips the recomputation leaves the results stale unless every starter already has
a row (`StaleUpsertIff`).

## Model

| member | source | states |
|---|---|---|
| JsonPatch.ApplySpec | packages/domain/src/realtimeProtocol.ts:92-94 | What an applied operation does, seen by looking values up: replace succeeds exactly on an existing target, add and replace leave their value at the path, remove leaves nothing at a member, and every path that parts ways with it, other than inside an array that shifts, looks the same as before |
| JsonPatch.ApplySucceedsIff | packages/domain/src/realtimeProtocol.ts:92-94 | Below the top an operation succeeds if and only if its parent exists and is an object with a member name, present unless the operation is an add, or an array with an index inside it, where an add may also append; at the top it always succeeds |
| JsonPatch.ApplyShiftsElements | packages/domain/src/realtimeProtocol.ts:92-94 | In the array at the parent, whatever is found in or below element j afterwards was there before in or below the element that RFC 6902 shifts to j: j - 1 behind an added one, j + 1 from a removed one on, j otherwise |
| JsonPatch.Compare | apps/livetracking-worker/src/realtimeDocClient.ts:168-170 | The diff of two documents applied to the first gives the second, and it is empty exactly when they are equal |
| JsonPatch.CompareObjects | apps/leaderboard-service/src/publisher.ts:126-127 | The same for any two objects, by a loop over members that removes, changes and adds |
| JsonPatch.CompareArrays | apps/leaderboard-service/src/publisher.ts:126-127 | The same for any two arrays, from the last element down and then appending |
| JsonPatch.FalsyValues | apps/livetracking-worker/src/realtimeDocClient.ts:120-120 | The values a client takes for no document |
| RealtimeSystem.NextInv | packages/test-utils/src/fakeRealtime.ts:87-160 | Every step of server, clients and sockets keeps the invariant: each client that holds data holds a version the server had at that revision, and each socket's queue chains from it through versions |
| RealtimeSystem.RunInv | packages/test-utils/src/fakeRealtime.ts:87-160 | The invariant holds after every run, across rejections, resyncs, drops and reconnects |
| RealtimeSystem.EventFollowsChain | apps/livetracking-worker/src/realtimeDocClient.ts:93-126 | In every reachable state delivering the next event never throws and moves the client to the version the queue says |
| RealtimeGuarantees.VersionsOnlyGrow | packages/domain/src/realtimeProtocol.ts:118-118 | Revisions never go back and a recorded version is never rewritten |
| RealtimeGuarantees.ReplicaIsAServerVersion | apps/livetracking-worker/src/realtimeDocClient.ts:111-125 | After any run from the start, a client holding data holds exactly the document the server had at the client's revision, after some prefix of that run |
| RealtimeGuarantees.QueueLeadsToServer | apps/livetracking-worker/src/realtimeDocClient.ts:111-125 | Folding the snapshot and patch frames queued on an open socket never fails and ends on a version of the server; it ends on the current revision and data if and only if no version since the last snapshot was falsy |
| RealtimeGuarantees.DrainReads | apps/livetracking-worker/src/realtimeDocClient.ts:93-126 | Delivering queued events one by one changes the client exactly as folding them does |
| RealtimeGuarantees.DrainedClientIsCurrent | apps/livetracking-worker/src/realtimeDocClient.ts:74-79 | Self-healing: in any reachable state whose documents are objects or arrays, delivering what is queued on a client's open socket leaves it with the server's current revision and document |
| RealtimeGuarantees.FalsyDocumentSticks | apps/livetracking-worker/src/realtimeDocClient.ts:119-120 | A concrete run in which a null document is never replaced on the client, although the server has moved on |
| RealtimeGuarantees.LocalUpdateOutcome | packages/domain/src/realtimeProtocol.ts:87-119 | A write built by `update` is accepted if and only if its revision is current, then yields the mutator applied to the server's own document, and is otherwise rejected with `rev_mismatch` and nothing else |
| RealtimeGuarantees.StepEffect | packages/test-utils/src/fakeRealtime.ts:107-150 | Each step leaves the server's document alone or puts it through exactly one accepted change and counts the revision up by one |
| RealtimeGuarantees.RunIsSerial | packages/domain/src/realtimeProtocol.ts:79-119 | No lost updates: after any interleaving the document is the accepted mutators and server changes applied one after another, and the revision counts them |
| RealtimeReconnect.StaysAttended | apps/livetracking-worker/src/realtimeDocClient.ts:80-148 | Every step keeps every attended client attended: shut down, waiting for its timer, or on a socket that is open or has its end in the queue |
| RealtimeReconnect.RunAttends | apps/livetracking-worker/src/realtimeDocClient.ts:133-138 | After any run every client that was ever connected or shut down is attended, and it is closed if and only if it was shut down: none is left without a socket and without a reconnect |
| RealtimeReconnect.DeliverOwn | apps/livetracking-worker/src/realtimeDocClient.ts:93-138 | What the oldest event of the current socket does: the end sets the timer, a `rev_mismatch` closes the socket behind what is queued, any other error shows in the status alone |
| RealtimeReconnect.EndedSocketArmsTimer | apps/livetracking-worker/src/realtimeDocClient.ts:93-138 | A client whose socket has ended or has a `rev_mismatch` waiting reads to the end and then waits for its timer, with document and other clients as they were |
| RealtimeReconnect.DropHeals | apps/livetracking-worker/src/realtimeDocClient.ts:74-79 | A connection dropped anywhere in a run: reading on, reconnecting and reading the new queue leaves the client connected with the server's revision and document |
| RealtimeReconnect.StaleWriteHeals | apps/livetracking-worker/src/realtimeDocClient.ts:99-105 | The same after a write from an outdated revision, anywhere in a run: it changes nothing at the server and its error leads back to the current document |
| RealtimeReconnect.ShutdownIsFinal | apps/livetracking-worker/src/realtimeDocClient.ts:141-148 | After `close`, whatever follows, the client stays disconnected with its document as it was, no timer, and its socket closed |
| RealtimeReconnect.UpdateLands | apps/livetracking-worker/src/realtimeDocClient.ts:163-174 | `update` on an open socket at the current revision makes the mutated document the next version and reaches every open connection before its acknowledgement; without socket, document or change nothing happens |
| RealtimeClasses.FakeWebSocket.constructor | packages/test-utils/src/fakeRealtime.ts:52-59 | Constructing a socket opens it at the server with a snapshot as its first frame |
| RealtimeClasses.FakeWebSocket.Close | packages/test-utils/src/fakeRealtime.ts:66-71 | Closing takes the socket out of the server's set once and announces itself behind everything queued |
| RealtimeClasses.FakeRealtimeServer.Connect | packages/test-utils/src/fakeRealtime.ts:121-126 | The new connection's queue is the opening and a snapshot of the current document; no other connection changes |
| RealtimeClasses.FakeRealtimeServer.Broadcast | packages/test-utils/src/fakeRealtime.ts:152-154 | The loop over the sockets hands the frame to every open one exactly once |
| RealtimeClasses.FakeRealtimeServer.Receive | packages/test-utils/src/fakeRealtime.ts:132-150 | The write pipeline with its three outcomes leaves exactly the server state that the transition system's step says |
| RealtimeClasses.FakeRealtimeServer.Update | packages/test-utils/src/fakeRealtime.ts:108-114 | A server change stores the next revision and broadcasts a replacement of the whole document |
| RealtimeClasses.RealtimeDocClient.Connect | apps/livetracking-worker/src/realtimeDocClient.ts:80-91 | Nothing after `close`; otherwise a fresh socket, status connecting, timer cleared |
| RealtimeClasses.RealtimeDocClient.OnOpen | apps/livetracking-worker/src/realtimeDocClient.ts:88-91 | Only the current socket's opening counts |
| RealtimeClasses.RealtimeDocClient.OnMessage | apps/livetracking-worker/src/realtimeDocClient.ts:93-126 | Frames of an outdated socket are ignored; snapshots are taken, patches applied when data is there, `rev_mismatch` closes the socket, other errors set the status |
| RealtimeClasses.RealtimeDocClient.OnClose | apps/livetracking-worker/src/realtimeDocClient.ts:133-138 | The current socket's end disconnects and leaves the reconnect timer set, unless the client was closed; any other socket's end changes nothing |
| RealtimeClasses.RealtimeDocClient.Close | apps/livetracking-worker/src/realtimeDocClient.ts:141-148 | Closes the socket at the server, clears the timer and keeps the document |
| RealtimeClasses.RealtimeDocClient.Update | apps/livetracking-worker/src/realtimeDocClient.ts:163-174 | Returns true if and only if the socket is open, data is there and the mutator changes it; then the server receives a diff from the client's data to the mutated data, and the client's own state is untouched |
| Publisher.NextInv | apps/leaderboard-service/src/publisher.ts:58-142 | Subscribe, notify, flush, reset, resync and unsubscribe each keep: every patch builds on the message before it, and a subscriber's replica is its channel's data |
| Publisher.PatchesChain | apps/leaderboard-service/src/publisher.ts:132-140 | In every message stream a replica can follow, each patch has a message before it and that message's revision as its `baseRev` |
| Publisher.SubscribersMirrorTheStore | apps/leaderboard-service/src/publisher.ts:58-142 | After any run a subscriber's replica is its channel, with the revision lagging only while there is no race, and unless a flush is due it is exactly `compute(key)` |
| Publisher.FlushedReplicaIsComputed | apps/leaderboard-service/src/publisher.ts:109-142 | Right after a flush, in any reachable state, replica, channel and store agree |
| Publisher.HeartbeatReachesEverySubscriber | apps/leaderboard-service/src/publisher.ts:111-141 | A flush that carries a heartbeat hands each subscriber of a channel with a race exactly one message with the latest time; a flush without one stays silent on unchanged channels |
| Publisher.HeartbeatIsRemembered | apps/leaderboard-service/src/publisher.ts:13-15 | Liveness over runs: after a heartbeat notification and any steps behind it, a subscriber that stays and whose channel had a race has got a message since, or the heartbeat is still pending with the timer running; and the next flush at the latest has handed over one |
| PublisherLaws.UnsubscribeIsHisOwn | apps/leaderboard-service/src/publisher.ts:73-76 | Nobody else is unsubscribed, a channel that stays keeps its revision, race and data, and it goes exactly when nobody is left on it |
| PublisherLaws.ChannelsAreFollowed | apps/leaderboard-service/src/publisher.ts:58-78 | There is a channel for a key exactly when somebody is subscribed to it |
| PublisherLaws.SubscribedUntilHeLeaves | apps/leaderboard-service/src/publisher.ts:58-78 | After any run somebody is subscribed if and only if he was or has subscribed, and has not unsubscribed himself |
| PublisherLaws.MessagesCarryTheLatestTime | apps/leaderboard-service/src/publisher.ts:160-164 | Every message of every step carries the latest heartbeat time, or that of the race shown while there is none |
| PublisherLaws.SubscribeSends | apps/leaderboard-service/src/publisher.ts:58-68 | A new subscriber gets one snapshot, of the channel as it stands or of the store at revision 0; nobody else gets anything |
| PublisherLaws.FlushTells | apps/leaderboard-service/src/publisher.ts:111-142 | A flush sends nothing without a race, a snapshot when the race appears, goes or is another one, and otherwise one patch on the revision before if something changed or a heartbeat is pending |
| PublisherLaws.ResyncSends | apps/leaderboard-service/src/publisher.ts:69-72 | A resync is a flush for everybody and then one snapshot for the one who asked, who is at the channel's revision and data afterwards |
| PublisherLaws.ResetSends | apps/leaderboard-service/src/publisher.ts:97-106 | A reset sends each subscriber exactly one snapshot of the store and forgets timer and heartbeat |
| PublisherLaws.NotifyStartsOrFlushes | apps/leaderboard-service/src/publisher.ts:81-94 | A notification behind a timer or with a delay sends nothing and arms the timer; without a delay it brings everybody up to date at once |
| PublisherLaws.BurstSendsOneMessage | apps/leaderboard-service/src/publisher.ts:9-11 | However many changes and notifications arrive while the timer runs, nobody gets anything before the flush, at most one message in it, and everybody shows the latest store after it |
| PublisherClasses.SnapshotPublisher.Subscribe | apps/leaderboard-service/src/publisher.ts:58-78 | A first subscriber creates the channel from `compute`, and each gets a snapshot of the channel's state |
| PublisherClasses.SnapshotPublisher.Resync | apps/leaderboard-service/src/publisher.ts:69-72 | Pending changes go to everybody first, then a snapshot to the one subscriber |
| PublisherClasses.SnapshotPublisher.Unsubscribe | apps/leaderboard-service/src/publisher.ts:73-76 | The subscriber leaves, and its channel with the last one; `UnsubscribeIsHisOwn` says what that means for the others |
| PublisherClasses.SnapshotPublisher.FlushNow | apps/leaderboard-service/src/publisher.ts:109-142 | The loop over the channels, with its snapshot, patch, silent and skipped cases, gives every channel and every subscriber what the flush on values gives |
| PublisherClasses.SnapshotPublisher.Notify | apps/leaderboard-service/src/publisher.ts:81-94 | Heartbeats are remembered, changes coalesce behind one timer or are flushed at once, and nothing is kept without channels |
| PublisherClasses.SnapshotPublisher.Reset | apps/leaderboard-service/src/publisher.ts:97-106 | Every channel is recomputed and sends each of its subscribers one snapshot; timer and pending heartbeat are dropped |
| Crc16.CreateCrcTable | packages/p3parser/src/parser.ts:786-802 | The shift-and-subtract loop fills the table with the remainder of every byte value |
| Crc16.CalcCrc16 | packages/p3parser/src/parser.ts:214-223 | The table-driven loop computes the CRC of the bytes |
| Crc16.StepDivides | packages/p3parser/src/parser.ts:217-220 | One table step is eight rounds of long division by the polynomial 0x1021 |
| Crc16.CrcIsDivision | packages/p3parser/src/parser.ts:214-223 | For every byte string the table-driven CRC is the remainder of bit-by-bit division by 0x1021 |
| Crc16.CrcIsRemainder | packages/p3parser/src/parser.ts:214-223 | The CRC is the remainder of the message with two bytes of ones in front, which is what the start value 0xffff means |
| Crc16.DividePlus | packages/p3parser/src/parser.ts:214-223 | Division is linear over exclusive or |
| Crc16.ZeroStepBijective | packages/p3parser/src/parser.ts:217-220 | The zero-byte step has an inverse on all 16-bit registers |
| Crc16.BurstChangesCrc | packages/p3parser/src/parser.ts:214-223 | Two byte strings that differ only inside two adjacent bytes have different CRCs |
| P3Codec.EscapeMessage | packages/p3parser/src/parser.ts:835-850 | The loop escapes every control byte between the delimiters |
| P3Codec.DeEscapeMessage | packages/p3parser/src/parser.ts:816-833 | The loop undoes escapes and fails exactly on an escape at the end |
| P3Codec.DeEscapeEscape | packages/p3parser/src/parser.ts:816-850 | De-escaping an escaped message gives the message back, whatever bytes it holds |
| P3Codec.DanglingIff | packages/p3parser/src/parser.ts:816-833 | De-escaping fails exactly when the last byte is an escape that is not itself escaped |
| P3Codec.EscapedInsideIsClean | packages/p3parser/src/parser.ts:835-850 | No delimiter is left inside an escaped message, so its END is the first one after its START |
| P3Codec.ParseTlvFields | packages/p3parser/src/parser.ts:733-768 | The offset loop returns what the field grammar says, in strict and in best-effort mode |
| P3Codec.BuildOutboundField | packages/p3parser/src/builder.ts:103-114 | Type, length and value in that order, and a failure exactly for values over 255 bytes |
| P3Codec.BuildBody | packages/p3parser/src/builder.ts:103-128 | Building fields one by one and concatenating them gives their encoding, and succeeds if and only if all fit |
| P3Codec.DecodeEncoded | packages/p3parser/src/builder.ts:103-128 | Built and concatenated fields parse back to themselves, with anything behind them left over |
| P3Codec.StrictParseIffEncoding | packages/p3parser/src/parser.ts:733-768 | Strict parsing succeeds with given fields if and only if the body is their encoding |
| P3Codec.LenientParseIsLongestPrefix | packages/p3parser/src/parser.ts:733-768 | Best-effort parsing never fails and returns the longest list of fields that fits the front |
| P3Frame.BuildP3Request | packages/p3parser/src/builder.ts:53-94 | The array-filling builder writes header, body and CRC where the frame layout says |
| P3Frame.CalcHeaderCrc | packages/p3parser/src/parser.ts:905-916 | The checksum over the frame with its CRC field zeroed |
| P3Frame.BuiltFrameReads | packages/p3parser/src/builder.ts:53-94 | A built frame carries its version, length, flags, tor and body at their places and a valid CRC |
| P3Frame.ParseBuiltFrame | packages/p3parser/src/parser.ts:136-169 | Whatever is built from fields is parsed back in every parser mode |
| P3Frame.BurstIsDetected | packages/p3parser/src/parser.ts:136-169 | A valid frame changed only inside two adjacent bytes outside the CRC field is always marked as damaged |
| P3Frame.P3Parser.Parse | packages/p3parser/src/parser.ts:136-169 | The parser object checks length, delimiters, fields and CRC in that order and with those errors |
| P3Stream.P3StreamDecoder.Push | packages/p3parser/src/stream.ts:23-58 | The loop over the buffer emits the records and keeps the bytes that cutting on values says |
| P3Stream.P3StreamDecoder.DecodeOne | packages/p3parser/src/stream.ts:45-71 | Every cut frame yields one record: parsed, recovered in best-effort mode, or an error record with what the header shows |
| P3Stream.DrainIncremental | packages/p3parser/src/stream.ts:23-58 | Cutting a first part, keeping what waits and continuing equals cutting everything at once |
| P3Stream.DrainConserves | packages/p3parser/src/stream.ts:23-58 | The input is the frames in order, START-free bytes around them, and what waits, which is nothing or an unfinished frame |
| P3Stream.DrainWeave | packages/p3parser/src/stream.ts:29-43 | Conversely, delimited frames with any noise around them are cut out exactly |
| P3Stream.ChunkingDoesNotMatter | packages/p3parser/src/stream.ts:5-10 | Any two ways of splitting the same bytes give the same records and the same final buffer |
| P3Stream.EveryByteIsAccountedFor | packages/p3parser/src/stream.ts:23-74 | One record per delimited frame even when parsing fails, and the bytes pushed are exactly frames, discarded noise and buffer |
| P3Stream.CleanRecordIff | packages/p3parser/src/stream.ts:45-71 | A record has no parse error if and only if its frame de-escapes, is long enough and delimited, its body is complete when the parser is strict, and its CRC is right when mismatches are rejected |
| P3Stream.EndToEnd | packages/p3parser/src/builder.ts:53-94 | Built requests with START-free noise before, between and after them, pushed in any chunks, come out as exactly one clean record each, in order, with the same version, flags, tor and body, and an empty buffer |
| P3Diagnostics.CrcIsReported | packages/p3parser/src/parser.ts:148-168 | In every mode a record, recovered and diagnostic ones included, says that its CRC is right if and only if bytes 4 and 5 of the frame are the CRC of the frame with these bytes zeroed |
| P3Diagnostics.BurstIsReported | packages/p3parser/src/parser.ts:148-168 | A frame with a right CRC changed inside two adjacent bytes outside the CRC field is reported with a wrong CRC in every mode, and with an error when mismatches are rejected |
| P3Diagnostics.FrameIsShown | packages/p3parser/src/stream.ts:88-128 | Every record has the wire, the de-escaped frame, the header read as far as the frame goes, and the body |
| P3Diagnostics.CutHeader | packages/p3parser/src/stream.ts:131-146 | The header of a cut frame is that of the whole frame where it reaches and -1 elsewhere |
| P3Diagnostics.FieldsAreKept | packages/p3parser/src/stream.ts:45-74 | A delimited frame gives the longest complete list of fields in front of its body even when strict parsing fails; anything else gives none |
| P3Diagnostics.ErrorNamesTheFirstFault | packages/p3parser/src/stream.ts:45-74 | The error of a record is that of the first check its frame fails, and a frame that cannot be de-escaped says so twice |
| P3Diagnostics.StrictFaultIsWhereFieldsEnd | packages/p3parser/src/parser.ts:733-768 | Strict parsing fails where the last complete field ends, and tells a missing length from a missing value |
| P3Reference.DocumentedRequest | packages/p3parser/src/builder.ts:189-196 | The discovery request known as a literal is what its ten empty fields build to, escape included, and it parses back with a valid CRC in every mode |
| P3Resend.U32RoundTrip | packages/p3parser/src/builder.ts:130-140 | A number written as four little-endian bytes is read back |
| P3Resend.RequestOrderReverses | packages/p3parser/src/builder.ts:147-164 | Putting a displayed decoder id into request order turns its bytes around |
| P3Resend.ReadBigUIntLe | packages/p3parser/src/parser.ts:922-928 | The accumulating loop reads the little-endian value of any byte string |
| P3Resend.ParseResendRecord | packages/p3parser/src/parser.ts:447-481 | The loop over the fields takes range and decoder id where the record type has them |
| P3Resend.LastFieldCounts | packages/p3parser/src/parser.ts:447-481 | Of several fields with one tag the last counts, and the fields with other tags are kept in order |
| P3Resend.RequestIsBuiltIff | packages/p3parser/src/builder.ts:130-164 | A request can be built exactly for numbers of 32 bits and an id with eight hex digits |
| P3Resend.DocumentedDecoderId | packages/p3parser/src/builder.ts:142-152 | The documented id as bytes, as displayed and in request order |
| P3Resend.ResendRoundTrip | packages/p3parser/src/builder.ts:294-313 | A RESEND request for any passing range and any displayed four-byte id, sent as a frame, parses back to the same range and displayed id |
| RaceResults.ApplyPermutation | packages/domain/src/raceResults.ts:221-316 | Derived results are identical for every permutation of the activities |
| RaceResults.CutoffIsTheHighest | packages/domain/src/raceResults.ts:238-251 | The points cutoff of a bib is the highest lap of a live removal naming it, or 0 |
| RaceResults.ExitIsTheLatest | packages/domain/src/raceResults.ts:253-271 | The DNF status of a bib is the maximum of its recorded exits by lap, elimination winning within a lap |
| RaceResults.ApplyRows | packages/domain/src/raceResults.ts:320-360 | Each derived row is its bib's first stored row with points, DNF, DSQ and DNS derived; bibs are exactly those stored, starting or mentioned |
| RaceFields.StatusIsRecorded | packages/domain/src/raceResults.ts:253-316 | Out, since which lap and how, disqualified, not started: each exactly as the live activities say; whoever is out in a lap above 0 has no points |
| RaceFields.PointsAreTheCountingSprints | packages/domain/src/raceResults.ts:221-316 | Everybody else has the points of exactly the live sprints of a lap above 0 that no live removal of his reaches |
| RaceFields.EntriesAddUp | packages/domain/src/raceResults.ts:225-234 | Within a sprint every entry counts for its own bib, repeated bibs included |
| RaceFields.EntryIsKept | packages/domain/src/raceResults.ts:320-340 | Bib, finish time, finish rank and laps are no activity's business |
| RaceLoops.CollectBibs | packages/domain/src/raceResults.ts:165-202 | The three loops collect every positive bib once |
| RaceLoops.FirstRows | packages/domain/src/raceResults.ts:204-209 | The map keeps the first stored row of each bib |
| RaceLoops.TallyActivities | packages/domain/src/raceResults.ts:215-297 | After the pass over the activities the maps hold every bib's sprint entries, cutoff, exit, DSQ and DNS |
| RaceLoops.SumOfAllEntries | packages/domain/src/raceResults.ts:299-307 | Filtering a bib's entries by its cutoff and adding them up gives the sum over all sprints after the cutoff |
| RaceLoops.ApplyActivitiesToRaceResults | packages/domain/src/raceResults.ts:156-360 | The whole procedure returns the derived list: stored rows in order, then missing bibs ascending |
| RaceLoops.MaterializeRaceResults | packages/domain/src/raceResults.ts:489-495 | Derivation followed by ranking, computed by the loops |
| RaceRanking.SortedForStandings | packages/domain/src/raceResults.ts:401-433 | The standings are a stable sort of the rows by the comparator |
| RaceRanking.RecomputeRaceResults | packages/domain/src/raceResults.ts:447-482 | The rank loop with its running key and rank gives each row the rank recorded for its bib |
| RaceRanking.RankOfAnyRow | packages/domain/src/raceResults.ts:447-482 | For every list: a row with a bib gets 1 plus the number of rows that stand ahead of the class of its bib's last row in standings order, and a row without a bib is unchanged |
| RaceRanking.RankIsOnePlusAhead | packages/domain/src/raceResults.ts:435-482 | Where all bibs are real and rows of one bib stand level, that number is the rows in strictly better tie classes, where riders out in one lap above 0 form one class |
| RaceRanking.RanksIgnoreRowOrder | packages/domain/src/raceResults.ts:447-482 | Permuting the input rows, whatever they are, changes no row's rank |
| RaceRanking.SameLapSharesARank | packages/domain/src/raceResults.ts:438-441 | Riders out in the same lap above 0 share a rank whatever their points or finish ranks, each seen by the last row of the bib |
| RaceRanking.RanksFollowClasses | packages/domain/src/raceResults.ts:447-482 | In any list one bib ranks before another if and only if the tie class of its last row in standings order is strictly better |
| RaceRanking.StatusDecides | packages/domain/src/raceResults.ts:362-373 | Finishers rank ahead of riders who are out, those ahead of the disqualified, those ahead of non-starters, whatever else the rows say |
| RaceRanking.PointsThenFinishDecide | packages/domain/src/raceResults.ts:375-411 | Among finishers more points rank better, equal points are decided by the finish rank, and a missing finish rank comes last |
| RaceRanking.OrderWithinStatus | packages/domain/src/raceResults.ts:401-475 | Within a group (in the race, out, disqualified, not started) a later lap, more points and a smaller finish rank decide in this order, said on row fields, except that riders out in one lap above 0 tie |
| RaceRanking.LaterExitRanksBetter | packages/domain/src/raceResults.ts:396-407 | Of two riders who are out, the one who left in the later lap ranks better, whatever their points |
| RaceRanking.StandingsRead | packages/domain/src/raceResults.ts:393-433 | Any two rows of the standings stand in the order of groups, laps, points, finish ranks and bibs |
| RaceMaterialize.MaterializeRows | packages/domain/src/raceResults.ts:489-495 | Materialized results hold exactly one value per bib, listed in bib order of the stored rows and then ascending |
| RaceMaterialize.MaterializeOverwrites | packages/domain/src/raceResults.ts:148-155 | Materializing again with other activities over the same bibs leaves no trace of the first round; what was entered by hand stays |
| RaceMaterialize.MaterializeIsIdempotent | packages/domain/src/raceResults.ts:484-495 | Materializing materialized results changes nothing, repeated bibs included |
| RaceMaterialize.MaterializeIgnoresActivityOrder | packages/domain/src/raceResults.ts:484-495 | Any permutation of the activities gives identical materialized results |
| RaceActivities.FilterActivitiesByAllowedBibs | packages/domain/src/raceActivitiesActions.ts:13-66 | The filter with its normalized set equals the filter by exactly the listed bibs |
| RaceActivities.FilterTwice | packages/domain/src/raceActivitiesActions.ts:13-66 | Filtering by one set and then another is filtering once by their intersection, always |
| RaceActivities.FilterMentions | packages/domain/src/raceActivitiesActions.ts:22-65 | A filtered list mentions exactly the allowed bibs it mentioned before and those of plain DNF activities |
| RaceActivities.RemoveBibFromActivities | packages/domain/src/raceActivitiesActions.ts:71-96 | The loops collect every other filterable bib and filter by them |
| RaceActivities.RemoveBibDropsOnlyThat | packages/domain/src/raceActivitiesActions.ts:68-96 | Removing a bib drops that bib and nothing else; it survives if and only if a plain DNF names it |
| RaceAggregate.DoSettles | apps/frontend/src/hooks/useEventsActions.ts:272-426 | Each action turns a race whose results are a fixed point of materializing into another such race |
| RaceAggregate.RunStaysSettled | apps/frontend/src/hooks/useEventsActions.ts:313-426 | In every run of actions the stored results stay a fixed point for the current starters and activities |
| RaceAggregate.ToggleRestores | apps/frontend/src/hooks/useEventsActions.ts:357-377 | Setting an activity's deleted flag and setting it back restores the race exactly, row order and ranks included |
| RaceAggregate.ReplacedStartersMatchResults | apps/frontend/src/domain/raceActions.ts:17-47 | After replacing the starters the results have exactly their bibs and those of plain DNFs; they and the remaining activities are limited to starters if and only if every plain DNF names a starter |
| RaceActionLaws.ReplacingStartersKeepsRows | apps/frontend/src/domain/raceActions.ts:17-47 | Every starter keeps his row: entries, points and status as before, only the rank is new; stored bibs that stay keep their order, and the starters are the given ones |
| RaceActionLaws.LeavingRidersLoseTheirEntries | apps/frontend/src/domain/raceActions.ts:30-33 | A bib without a starter that a plain DNF brings back has nothing entered |
| RaceActionLaws.FilterKeepsDerivation | packages/domain/src/raceActivitiesActions.ts:13-66 | Filtering to the allowed bibs changes nothing that is derived for an allowed bib |
| RaceActionLaws.FilterKeepsTheActivity | packages/domain/src/raceActivitiesActions.ts:22-60 | What passes the filter keeps id, deleted flag and lap |
| RaceActionLaws.FilterLeavesNoEmptyActivity | packages/domain/src/raceActivitiesActions.ts:22-60 | Except for plain DNFs an activity passes exactly when it names an allowed bib, and then names only such |
| RaceActionLaws.ActionsKeepEntries | apps/frontend/src/hooks/useEventsActions.ts:272-426 | Finish times, finish ranks and laps survive every action, for everyone it does not remove |
| RaceActionLaws.EnteredResultsAreTaken | apps/frontend/src/hooks/useEventsActions.ts:396-410 | Entered results replace the stored entries, and starters and activities stay |
| RaceActionLaws.ActivitiesAfter | apps/frontend/src/hooks/useEventsActions.ts:318-394 | Adding appends, an update replaces the first activity with that id, a replacement is taken as given |
| RaceActionLaws.ActionsSettleAnyRace | apps/frontend/src/hooks/useEventsActions.ts:318-426 | From any race, stale ones included, an action that recalculates leaves settled results |
| RaceActionLaws.RemovedStarterIsGone | apps/frontend/src/domain/raceActions.ts:92-104 | Everyone with the id leaves the list and nobody else; without one nothing happens |
| RaceActionLaws.InsertedBehindTheKnown | apps/frontend/src/domain/raceActions.ts:60-90 | Known starters stay in front of the inserted ones |
| RaceActionLaws.InsertedIsTheFirst | apps/frontend/src/domain/raceActions.ts:68-85 | Of several incoming starters with one bib the first is inserted |
| RaceAggregate.PlainDnfSurvivesReplacement | packages/domain/src/raceActivitiesActions.ts:41-63 | A concrete race where a plain DNF of a non-starter comes back as a result row |
| RaceAggregate.InsertedBibs | apps/frontend/src/domain/raceActions.ts:60-90 | After inserting starters the covered bibs are the old ones and every positive incoming one |
| RaceAggregate.InsertedAreNew | apps/frontend/src/domain/raceActions.ts:60-90 | Each inserted starter is an incoming one whose bib no earlier starter has |
| RaceAggregate.StaleUpsertIff | apps/frontend/src/hooks/useEventsActions.ts:290-301 | Merging starters without recomputing keeps a race settled if and only if every starter already has a result row |
| RaceAggregate.StaleUpsertExample | apps/frontend/src/hooks/useEventsActions.ts:293-296 | The empty race with one merged starter is no longer settled |
| RaceBatches.AheadCountsBibs | packages/domain/src/raceResults.ts:455-475 | With distinct bibs, the rows ahead are counted by the set of bibs ahead |
| RaceBatches.BatchAgreesWithOneByOne | apps/frontend/src/hooks/useEventsActions.ts:318-355 | With distinct bibs, recording activities one by one or in one batch gives the same starters, activities, bibs and the same row for every bib |
| RaceActions.CollectStarterBibs | apps/frontend/src/domain/raceActions.ts:6-15 | The loop collects exactly the positive bibs of the starters |
| RaceActions.CollectNewStarters | apps/frontend/src/domain/raceActions.ts:68-85 | The loop with its growing set appends each new positive bib once |
| RaceActions.ReplaceRaceStarters | apps/frontend/src/domain/raceActions.ts:25-47 | Filtered activities, filtered rows and rematerialized results, computed by the loops |
| RaceActions.Perform | apps/frontend/src/hooks/useEventsActions.ts:272-426 | Every action, performed with the source's loops, gives the race that the aggregate laws are about |
| PassingLogs.RunRings | apps/leaderboard-service/src/passings.ts:57-137 | In every run each race's buffer is exactly the last `perRace` entries of a log that never drops one, with every later correction included |
| PassingLogs.RunInv | apps/leaderboard-service/src/passings.ts:30-39 | At most `maxRaces` races and `perRace` entries, and `seq` strictly increases within each buffer |
| PassingLogs.RunMirrors | apps/leaderboard-service/src/passings.ts:57-141 | A listener that stores every emitted passing by `seq` holds an identical copy of every buffered entry |
| PassingLogs.MirrorStep | apps/leaderboard-service/src/passings.ts:57-141 | The same from any point on: a copy that agrees before a step agrees after its event |
| PassingLogs.ListIsTheOrder | apps/leaderboard-service/src/passings.ts:25-44 | The list is ordered by crossing time and then `seq`, has exactly the race's entries, and is the only such arrangement |
| PassingLogs.RankCompletesPassing | apps/leaderboard-service/src/passings.ts:61-97 | A rank message right after a rider's passing fills in position and lap of exactly that passing and emits it |
| PassingLogs.CorrectionThenRank | apps/leaderboard-service/src/passings.ts:81-111 | After a photo finish correction a re-ranking with the corrected time still finds the same entry; no other entry changes |
| PassingLaws.PassingIsRecorded | apps/leaderboard-service/src/passings.ts:61-80 | A passing is recorded under the next number with its own lap and total time, the rider's names, and neither lap nor position yet |
| PassingLaws.RankIsForTheCrossing | apps/leaderboard-service/src/passings.ts:81-97 | A rank message gives the newest entry its first position and lap, later only a new position while lap and time are those of the crossing; any other leaves the log alone and is not passed on |
| PassingLaws.CorrectionIsForTheLap | apps/leaderboard-service/src/passings.ts:98-111 | A correction moves the times of the newest entry of that rider and lap, whatever came after it |
| PassingLaws.StrangersChangeNothing | apps/leaderboard-service/src/passings.ts:57-60 | Without a race, or about nobody in the log, nothing changes and nothing is sent |
| PassingLaws.ListReadsUpwards | apps/leaderboard-service/src/passings.ts:25-28 | The list rises by time at the line and, where that is equal, by number |
| PassingLaws.NumbersGoOn | apps/leaderboard-service/src/passings.ts:51-66 | Numbers count the passings ever recorded, over a clear too |
| PassingLogs.PassingLog.Observe | apps/leaderboard-service/src/passings.ts:57-116 | A passing is appended under the next `seq`; rank and correction messages rewrite the newest entry they concern and emit it, or do nothing |
| PassingLogs.PassingLog.AppendPassing | apps/leaderboard-service/src/passings.ts:118-129 | Push, drop the oldest entries, and drop the oldest races when a new one exceeds the limit |
| PassingLogs.PassingLog.AmendLatest | apps/leaderboard-service/src/passings.ts:81-111 | The backward search stops at the last entry concerned and changes that one alone |
| PassingLogs.PassingLog.Clear | apps/leaderboard-service/src/passings.ts:51-54 | All races go, the sequence number stays, and a reset is emitted |
| PassingLogs.PassingLog.ListRace | apps/leaderboard-service/src/passings.ts:41-44 | Sorting a copy of the buffer gives the list, empty for an unknown race |
| FinishLine.GroupFinishersByFinishRank | apps/frontend/src/components/FinishLineScoring.tsx:90-105 | The loop cuts a list into runs of equal finish rank |
| FinishLine.GroupFlattens | apps/frontend/src/components/FinishLineScoring.tsx:90-105 | The groups are not empty and put together they are the list |
| FinishLine.GroupsRise | apps/frontend/src/components/FinishLineScoring.tsx:83-89 | In a sorted list each group has one rank and the ranks rise from group to group |
| FinishLine.ApplyCompetitionRanking | apps/frontend/src/components/FinishLineScoring.tsx:113-125 | The nested loops place each group, sorted by bib, on one rank behind all groups before it |
| FinishLine.RegroupRanked | apps/frontend/src/components/FinishLineScoring.tsx:90-125 | Grouping the output of competition ranking returns exactly its groups |
| FinishLine.RankIsOnePlusNumberAhead | apps/frontend/src/components/FinishLineScoring.tsx:107-125 | Every finish rank is 1 plus the number of finishers with a smaller one |
| FinishLine.RankedReadsUpwards | apps/frontend/src/components/FinishLineScoring.tsx:113-125 | The ranked list rises by rank and, among those who share one, by bib |
| FinishLine.NextAfterRanking | apps/frontend/src/components/FinishLineScoring.tsx:137-156 | After ranking n finishers, ties included, the next suggestion is n + 1 |
| FinishLine.ComputeNextSuggestedRank | apps/frontend/src/components/FinishLineScoring.tsx:143-156 | The two passes compute the highest rank plus the size of its tie |
| FinishLineDrop.OnDrop | apps/frontend/src/components/FinishLineScoring.tsx:747-795 | Guards, removal, search and insertion, then ranking; nothing is committed when a guard fails |
| FinishLineDrop.RemoveDragged | apps/frontend/src/components/FinishLineScoring.tsx:769-780 | The loop takes the bib out of its first group and removes that group when it is empty |
| FinishLineDrop.DropKeepsEveryone | apps/frontend/src/components/FinishLineScoring.tsx:747-795 | A drop commits, loses and doubles nobody, gives each rank 1 plus the number ahead and leaves n + 1 as the next suggestion |
| FinishLineDrop.DropCommitsIff | apps/frontend/src/components/FinishLineScoring.tsx:747-768 | A drop on sorted finishers commits exactly when something was dragged from one place in the list to another |
| FinishLineDrop.DropKeepsTheOthers | apps/frontend/src/components/FinishLineScoring.tsx:747-795 | Any two other finishers keep their order, ties included |
| FinishLineDrop.DropPlacesTheDragged | apps/frontend/src/components/FinishLineScoring.tsx:738-795 | With shift the dragged finisher ties with exactly the target's group; without it he is alone, behind all who were ahead of the target and ahead of all others |
| Csv.SplitCsvLine | packages/domain/src/starterImport.ts:42-82 | The quote state machine reads a line field by field |
| Csv.SplitOfJoin | apps/frontend/src/domain/raceResultsCsvExport.ts:10-20 | Splitting the joined escapes of a row returns the row if and only if it has a field |
| Csv.SplitOfWritten | packages/domain/src/starterImport.ts:42-82 | With any delimiter, fields written in quotes or, where possible, as they are come back |
| DelimitedText.ParseDelimitedText | packages/domain/src/starterImport.ts:91-106 | Normalized breaks, byte order mark and trailing blank lines dropped by the loop, every line split |
| DelimitedText.ReadLines | packages/domain/src/starterImport.ts:91-93 | Lines without breaks, joined with CR LF, LF or CR, come back one by one |
| DelimitedText.TextIsRead | packages/domain/src/starterImport.ts:91-106 | A text of lines, with or without a byte order mark, with any of the three breaks and any number of blank lines at its end, is read as exactly the lines before those |
| ResultsCsv.BuildRaceResultsCsv | apps/frontend/src/domain/raceResultsCsvExport.ts:32-63 | The loop writes the header and one line per result in standings order |
| ResultsCsv.FieldsTellTheRow | apps/frontend/src/domain/raceResultsCsvExport.ts:43-58 | Two results have the same exported fields if and only if they agree on everything that is exported |
| ResultsCsv.ColumnsMatchTheirNames | apps/frontend/src/domain/raceResultsCsvExport.ts:43-58 | Every column holds what its name in the header says, blank where the export leaves it blank |
| ResultsCsv.ExportIsInStandingsOrder | apps/frontend/src/domain/raceResultsCsvExport.ts:35-40 | The rows are the ranked results, each once, in standings order |
| ResultsCsv.ExportRoundTrip | apps/frontend/src/domain/raceResultsCsvExport.ts:26-63 | Parsing the export gives the header names and one row per result in standings order if and only if no finish time has CR or LF |
| StageValue.CarryUp | apps/frontend/src/domain/eventActions.ts:188-198 | The carry loop over the letters and the letter put in front compute the next string |
| StageValue.NextAddsOne | apps/frontend/src/domain/eventActions.ts:174-199 | One step adds exactly 1 in bijective base 26, Z to AA and AZ to BA included |
| StageValue.StepOnCharacters | apps/frontend/src/domain/eventActions.ts:184-199 | In characters: the last letter, as a capital, moves on to the next of the alphabet, and Z becomes A behind a step of the rest |
| StageValue.DocumentedSteps | apps/frontend/src/domain/eventActions.ts:174-178 | A to B, Z to AA, AZ to BA |
| Text.TrimSpec | apps/frontend/src/domain/eventActions.ts:180-180 | Trimming cuts white space off both ends and nothing else |
| Text.SpacesAre | apps/frontend/src/domain/eventActions.ts:180-180 | White space is what the language's `trim` takes it to be, by code points |
| StageValue.LettersOfValue | apps/frontend/src/domain/eventActions.ts:174-199 | Every string of letters is the one numeral of its value |
| StageValue.EnumeratesEverything | apps/frontend/src/domain/eventActions.ts:174-199 | Repeated use from A reaches every letter string after exactly one number of steps: no gaps, no repeats |
| StageValue.IncrementStageValue | apps/frontend/src/domain/eventActions.ts:179-202 | Numbers go up by one without leading zeros, letters by one step in capitals, and anything else is returned trimmed |

## Left out

- Sockets, HTTP, the database, the file system, process management and rendering: input, output and user interface.
- Realtime: one document per server; JSON text is represented by what it parses to, pointer strings by their tokens, and the move, copy and test operations do not occur because a diff never emits them.
- Realtime: the `patch_failed` answer cannot occur in this model, since applying a patch always yields a document or a failure; document ids, messages for humans and the listeners' callbacks are not kept.
- Realtime: a socket's `error` event, which only sets the client's status; the reconnect delay is a step that may happen at any time.
- JsonPatch.Compare: documents are objects or arrays at the top, as the source's type of documents says, and a change never turns one into the other; numbers are integers.
- PublisherClasses.SnapshotPublisher.Subscribe: each callback is subscribed once ever, as each connection passes a closure of its own; the source would also take the same callback again or for a second channel.
- PublisherClasses.SnapshotPublisher.Resync: only for a handle whose callback is still subscribed; the source would also send the last state of the old channel to one that has left.
- PublisherClasses.SnapshotPublisher.Unsubscribe: at most once per handle, because a second call on an old handle can delete a newer channel with the same key; channels are values in a map, so a handle does not alias a channel that was deleted and created again.
- Publisher: `close`, which only drops the channels; the coalescing delay is a number given to each notification and the timer a flag.
- The leaderboard service's switching between sources: the player and the TCP source are not part of this model.
- P3: field decoding for record types other than RESEND, the fixed discovery frames except the one in `P3Reference`, and hex text input.
- Race results: activities are typed, so loose input (unknown types, numbers as text, not-a-number) does not occur; points are integers; `createdAt` and the edit history are not used by any law.
- Race actions: events and race lists, drafts, legacy migration; merging starters by name is a list given to the action.
- RaceBatches.BatchAgreesWithOneByOne: the order of newly added rows may differ between the two ways, as it does in the source.
- PassingLogs.PassingLog.Observe: durations stay in milliseconds instead of formatted text; entries are values, so a list handed out earlier does not change with later corrections.
- Finish line: choosing and merging finishers into the race's results, quick entry and filling from live data.
- FinishLineDrop.DropKeepsTheOthers: finishers have distinct bibs and are sorted by finish rank, as the component sorts them before grouping.
- Csv: the legacy points-only export and the analysis of starter imports behind the parser.
- StageValue.IncrementStageValue: numbers beyond the range of exact floating point, where the source loses digits.
