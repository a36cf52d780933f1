# pqtls-lab: a verified model

pqtls-lab is a TLS 1.3 client and server for experiments with hybrid and post-quantum key establishment. Both peers
exchange length-prefixed JSON messages, refuse connections whose negotiated group violates the configured security
profile, and write one metrics record per connection. Python tools validate and analyse those records. This project
models four parts of it and proves what they guarantee:

- **The framed stream protocol.** Frame encoding, the incremental `Decoder` with its lazily compacted buffer, UTF-8
  validation, the JSON depth check, message parsing and serialising, partial reads and writes, and the two-party
  request/response protocol on top of them (`Framing`, `DecoderRuns`, `Transport`, `Utf8`, `Json`, `Messages`,
  `Channel`, `TwoPeers`, `Uuid`, and `Sockets` for the ownership of descriptors).
- **Concurrency.** The server's acceptor, bounded queue and worker pool, and the benchmark's threads, each as an
  interleaving of atomic steps with an inductive invariant (`WorkerPool`, `Benchmark`).
- **The downgrade policy.** Profile construction, the run-time group check, the registry, and the order of handshake,
  gates and application traffic in every connection of either peer (`Profiles`, `Builtin`, `Sessions`);
  `Dialogue` joins the two peers' loops.
- **Honest records.** How the peers fill in a record, the independent validator, the analyser's grouping, statistics and
  downgrade warning, and the packet-capture metrics (`Records`, `Structure`, `Statistics`, `KeyOrder`, `Analysis`,
  `Pcap`). `EndToEnd` puts the peers, the validator and the analyser together.

Code that changes state is written as classes, methods and loops, each proved against a specification: `Framing.Decoder`,
`Transport.Pipe`, `Sockets.Socket`, `Sessions.Link`, `Profiles.ProfileRegistry`, and the loops of `is_valid_utf8`,
`json_depth`, `ssl_write_all`, `summarise`, `analyse` and the two connection handlers. Specifications do not follow the code: the
decoder is compared with a one-shot parser that has no buffer, UTF-8 validation with the encoder of section 3 of
RFC 3629, the server loop with a function from received frames to replies, counters with what they count. Protocols and
thread pools are step relations, and their theorems speak of every state of every run.

What the outside decides is an input, arbitrary unless a `requires` says otherwise: answers of OpenSSL and of the
network, the clock, random octets, and the JSON library, of which only `Messages.Faithful` is assumed (text it produced
is non-empty UTF-8 and reads back as the same tree).

`dafny verify dfyconfig.toml` checks everything.

## Where the code and its description differ

- Documentation and comments say that only protocol version 1 is spoken. The code compares after narrowing to a 32-bit
  `int`, so every integer congruent to 1 modulo 2^32 passes: `Messages.OtherVersionAccepted` gives one,
  `Messages.VersionAcceptedExactlyWhen` says which pass.
- The stop flag is stored without the queue mutex, so `stop` does not always let `run` return. What decides is the moment
  of `run`'s own notify_all: on a run without later wake-ups a worker stays stranded if and only if some worker is then
  between its check and its block (`WorkerPool.StrandedExactlyWhen`). A run that strands one is
  `WorkerPool.StopDuringACheckCanLeaveAWorkerBlocked`; a stop during a check that does no harm is
  `WorkerPool.StopDuringACheckCanBeHarmless`.
- A comment in `create` calls a classical-only profile that forbids fallback contradictory, but such a profile is
  accepted. If its id starts with `hybrid-` or `pure-`, the validator reports its successful records:
  `EndToEnd.MisnamedRun` is such a connection, `Records.CleanExactlyWhen` the exact condition.
- The t table is meant to keep small samples from getting a falsely narrow interval (scripts/analyze-results.py:29-31).
  Between two rows the code takes the next row with more degrees of freedom, and past the last the normal value, and
  both are smaller: with 21 degrees it uses 2.060 although the table has 2.086 for 20 (`Statistics.TooNarrowAt21`). The value is as large as
  the table vouches for exactly at the rows (`Statistics.TooNarrowExactlyBetweenRows`), and up to 120 degrees it falls
  short of the critical value exactly between rows, for every falling curve through the rows
  (`Statistics.FallsShortExactlyBetweenRows`).
- include/pqtls/client.hpp:84 promises a metrics record for every connection of a benchmark. At the join, what has no
  record is what a failed client setup abandoned, what a thread held that an exception ended, and what was never taken
  from the pool; the file is complete if and only if there was none of these
  (`Benchmark.EveryConnectionHasARecordExactlyWhen`). `Benchmark.AbandonedWithoutARecord` and
  `Benchmark.LostWithoutARecord` are runs where it is not.
- The summary promises to count every connection. It does if and only if the pool is empty at the join and no thread
  died with a connection (`Benchmark.JoinedRunReportsEverything`). Without deaths the only exception is a concurrency of
  0 (`Benchmark.NoThreadsReportNothing`), which configuration checks exclude (src/common/config.cpp:227-228).

## Model

| member | source | states |
|---|---|---|
| Framing.EncodeDecodeLength | src/common/application_protocol.cpp:17-67 | encoding succeeds exactly on non-empty payloads within a legal limit and is a protocol error otherwise, and the frame's header decodes to the payload's length, followed by the payload |
| Framing.HeaderRoundTrip | src/common/application_protocol.cpp:31-54 | every 32-bit length survives the big-endian header |
| Framing.HeaderUnique | src/common/application_protocol.cpp:37-54 | every four octets are the header of the length they decode to, so headers and lengths correspond one to one |
| Framing.HeaderIsBigEndian | src/common/application_protocol.cpp:31-54 | a header is the four base-256 digits of the length, the most significant first, and of a longer length the low 32 bits |
| Framing.DecodeLengthExactly | src/common/application_protocol.cpp:45-67 | a length is read from exactly the four-byte headers whose big-endian number is within the limit; anything else is a protocol error |
| Framing.OneShotDecomposes | src/common/application_protocol.cpp:45-67 | every byte stream is a sequence of legal frames followed by a rest that starts no complete legal frame; the rest is illegal exactly when its header announces a bad length |
| Framing.OneShotUnique | src/common/application_protocol.cpp:45-67 | that decomposition is the only one, so a stream has one meaning |
| Framing.FeedMeaning | src/common/application_protocol.cpp:76-96 | whatever the buffer layout, feeding appends to the unread bytes even when it throws, and throws exactly when the first unread header is illegal |
| Framing.NextMeaning | src/common/application_protocol.cpp:98-121 | asking for a frame removes exactly the first legal frame, throws exactly on an illegal first header, and otherwise changes nothing |
| Framing.Decoder.constructor | src/common/application_protocol.cpp:69-74 | a new decoder is empty |
| Framing.Decoder.New | src/common/application_protocol.cpp:69-74 | a decoder exists exactly for limits from 1 to 64 MiB |
| Framing.Decoder.Feed | src/common/application_protocol.cpp:76-96 | the in-place update appends to the unread bytes, keeps the buffer tidy and throws exactly on an illegal front |
| Framing.Decoder.NextFrame | src/common/application_protocol.cpp:98-121 | the in-place update delivers the front frame and keeps exactly the bytes after it |
| Framing.Decoder.Reset | src/common/application_protocol.cpp:123-126 | nothing is left of what was fed |
| DecoderRuns.RunConserves | src/common/application_protocol.cpp:76-126 | after any sequence of calls the delivered frames, encoded again, followed by the unread bytes are the stream since the last reset |
| DecoderRuns.DecoderRefinesOneShot | src/common/application_protocol.cpp:76-126 | on every run the delivered frames are the first frames of the one-shot parse and what remains parses to the others; a call has thrown only if the whole legal part was delivered |
| DecoderRuns.NextAnswersForTheStream | src/common/application_protocol.cpp:98-121 | the next answer depends on the stream alone and not on its chunking |
| DecoderRuns.EveryFrameComesOut | src/common/application_protocol.cpp:98-121 | n further requests deliver n further frames, or all there are |
| DecoderRuns.DrainedRunHasEveryFrame | src/common/application_protocol.cpp:98-121 | all frames ahead of the first illegal header can be delivered, from any point of any run |
| DecoderRuns.FailureSticks | src/common/application_protocol.cpp:92-105 | once a call has thrown every later call throws and delivers nothing, until a reset |
| DecoderRuns.ResetForgets | src/common/application_protocol.cpp:123-126 | after a reset the decoder behaves as a new one, whatever came before |
| DecoderRuns.DecoderSpaceAndCost | src/common/application_protocol.cpp:76-121 | driven as both peers drive it, the buffer never exceeds 2 * max + 7 + chunk bytes, bytes moved by compaction never exceed bytes consumed, and no fed byte is lost |
| DecoderRuns.FeedSpace | src/common/application_protocol.cpp:79-88 | one feed of a decoder that needs more bytes stays within that bound |
| DecoderRuns.ClearBranchUnreachable | src/common/application_protocol.cpp:79-81 | the branch that clears a fully consumed buffer is never taken, on any run |
| DecoderRuns.FramesSurviveAnyChunking | src/common/application_protocol.cpp:17-121 | payloads encoded and fed in any chunks, with requests anywhere in between, come out unchanged and in order, without an error and with an empty buffer at the end |
| Transport.SslWriteAll | src/common/transport.cpp:331-351 | with any partial writes exactly a prefix is handed over and counted, all of it unless a write failed, and then the call that failed is the one after those that accepted something; the call is a sequence of the write steps of the two-peer protocol |
| Transport.SslReadSome | src/common/transport.cpp:353-374 | a read takes and counts a prefix of what is in flight within the capacity, empty exactly for a clean close or no capacity; a failure takes nothing and keeps its category |
| Transport.SendFrames | src/common/application_protocol.cpp:17-43 | what reaches the wire is all encoded payloads, or those before the frame whose write failed and a part of that frame, counted exactly |
| Transport.ReadAndFeed | src/server/server.cpp:340-348 | reading a piece of a well-formed stream and feeding it loses no byte, never throws, and is one read step of the two-peer protocol |
| Transport.ReceiveFrames | src/server/server.cpp:337-348 | reassembly from any pieces gives exactly the complete frames of what was sent, and all payloads if all bytes were |
| Transport.CarryFrames | src/common/transport.cpp:331-374 | end to end: arbitrary partial writes and reads deliver the same list of payloads, an empty buffer and no error, or after a failed write exactly the payloads before that frame; byte counters are equal |
| Transport.CutShortFrames | src/common/application_protocol.cpp:98-121 | a stream cut off inside a frame holds exactly the frames before it |
| Sockets.Socket.constructor | include/pqtls/transport.hpp:17 | a socket owns the descriptor it is given |
| Sockets.Socket.Close | src/common/transport.cpp:73-88 | closing, also from the destructor, closes exactly what is owned and gives it up |
| Sockets.Socket.Release | src/common/transport.cpp:77-81 | releasing gives the descriptor up without closing it |
| Sockets.Socket.MoveFrom | src/common/transport.cpp:64-71 | move assignment closes what was owned and takes over the other's descriptor; assigning to itself changes nothing |
| Sockets.RunsAreBalanced | src/common/transport.cpp:60-88 | after any sequence of operations on any number of sockets, a descriptor is owned, released or closed together as often as it was obtained |
| Sockets.DescriptorsAreClosedOnce | src/common/transport.cpp:60-88 | no sequence of operations closes a descriptor too often, and once nothing is owned or released each was closed exactly as often as obtained |
| Sockets.Perform | src/common/transport.cpp:60-88 | any operation done with the socket objects is the corresponding step of that accounting, so its results hold of the objects |
| Utf8.IsValidUtf8 | src/common/application_protocol.cpp:160-212 | true exactly when the bytes are the encoding of some sequence of Unicode scalar values |
| Utf8.ReadMultibyte | src/common/application_protocol.cpp:172-208 | a multi-octet form is accepted exactly when it is the encoding of the scalar value it is decoded to |
| Utf8.RejectedIsIllFormed | src/common/application_protocol.cpp:172-206 | where the validator gives up no continuation would be well-formed |
| Utf8.DecodingUnique | src/common/application_protocol.cpp:199-206 | a byte string encodes at most one sequence of scalar values |
| Utf8.WellFormedConcat | src/common/application_protocol.cpp:160-212 | after a valid prefix the whole is valid exactly when the rest is |
| Json.JsonDepth | src/common/application_protocol.cpp:219-234 | the early cut-off gives min(true depth, 17), so the limit test is exact although deeper nodes are not visited |
| Json.LookupIsShallower | src/common/application_protocol.cpp:219-234 | a member of an object is at least one level shallower than the object |
| Json.DepthIsOverChildren | src/common/application_protocol.cpp:219-234 | every item of an array and member of an object is at least one level shallower, one of them exactly one, and a leaf or an empty container has depth 0 |
| Json.LookupMeaning | src/common/application_protocol.cpp:266-327 | a lookup finds the first member of that key, and nothing exactly when there is none |
| Messages.TypeNamesRoundTrip | src/common/application_protocol.cpp:130-158 | every message type is recovered from its name |
| Messages.TypeNamesAreExact | src/common/application_protocol.cpp:134-158 | a name is taken for a type exactly when it is that type's name, and every other name is unknown |
| Messages.ParseAcceptsExactly | src/common/application_protocol.cpp:264-335 | a document is accepted if and only if its version is an integer that is 1 modulo 2^32, its type is the name of a type, id, timestamp and status are absent or strings with the id at most 128 bytes, the payload is absent or an object, and telemetry has a device id; the message then says what the document says, with the generated id, the clock and an empty object for what is absent |
| Messages.TextAcceptedExactly | src/common/application_protocol.cpp:238-335 | the same from the text on: non-empty, UTF-8, read as an object of depth at most 16, with acceptable fields; any other text is a protocol error |
| Messages.MessageRoundTrip | src/common/application_protocol.cpp:238-350 | a message survives serialising and parsing if and only if it has version 1, an id of at most 128 bytes, an object payload of depth below 16 and, for telemetry, a device id |
| Messages.ParsedIsSendable | src/common/application_protocol.cpp:264-335 | whatever was accepted can be sent again and comes back the same |
| Messages.VersionRejectedWhen | src/common/application_protocol.cpp:266-277 | a version that is not 1 modulo 2^32 is rejected, in particular every other 32-bit value |
| Messages.VersionTestIgnoresHighBits | src/common/application_protocol.cpp:272-273 | a version that is 1 modulo 2^32 is treated exactly as version 1 |
| Messages.VersionAcceptedExactlyWhen | src/common/application_protocol.cpp:266-277 | a document is accepted with a given integer version if and only if that version is 1 modulo 2^32 and the document would be accepted with version 1 |
| Messages.OtherVersionAccepted | src/common/application_protocol.cpp:272-273 | version 4294967297 is accepted as version 1 |
| Messages.RepliesAreAccepted | src/server/server.cpp:51-92 | every parsed request but `close` gets the reply that fits it, with its id and the time of the reply, and the client's parser accepts that reply unchanged |
| Messages.RepliesAreProper | src/server/server.cpp:34-92 | no reply to `close`; a pong exactly to a ping; an error with a reason and status "rejected" exactly to response types; everything else accepted; an echo gives its payload back, ping and telemetry get an empty payload, and capabilities tells profile, version, group, suite, authentication and the three classifications |
| Messages.ErrorsGiveAReason | src/common/application_protocol.cpp:380-391 | an error message has the id given, status "rejected" and the reason under its key |
| Messages.ReplyIsSendable | src/common/application_protocol.cpp:368-391 | replies keep the id and satisfy every limit the parser enforces |
| Messages.ErrorReplyIsSendable | src/common/application_protocol.cpp:380-391 | an error reply with any reason is accepted by the parser |
| Messages.ParseMessage | src/common/application_protocol.cpp:238-335 | the checks by loops accept exactly the acceptable texts, a message obtained says what its document says, and any rejection is a protocol error |
| Messages.TextRoundTrip | src/common/application_protocol.cpp:238-354 | the round trip through text, given a JSON library that reads back what it wrote |
| Uuid.Generate | src/common/application_protocol.cpp:401-414 | any 16 octets give a text that matches the validator's version 4 pattern and has the two hex digits of every octet at its place, except for the version digit and the two variant bits |
| Channel.BeginConserves | src/client/client.cpp:227-229 | starting a frame keeps every byte of every frame in exactly one place, with agreeing counters |
| Channel.WriteConserves | src/common/transport.cpp:339-350 | so does a partial write |
| Channel.ReadConserves | src/common/transport.cpp:353-365 | so does a partial read fed to the decoder |
| Channel.TakeConserves | src/common/application_protocol.cpp:98-121 | the frame a receiver gets is the next one its peer began, byte for byte |
| Channel.FramePrefixFree | src/common/application_protocol.cpp:31-42 | a stream starts with at most one frame |
| Channel.WaitingMeansDrained | src/client/client.cpp:241-249 | with nothing unsent or in flight, a receiver that waits has taken every frame begun |
| TwoPeers.StepKeepsInv | src/client/client.cpp:226-253 | every step of either peer, with any number of bytes moved, keeps the protocol invariant |
| TwoPeers.RunsKeepInv | src/server/server.cpp:337-377 | the invariant holds in every state of every run |
| TwoPeers.ProtocolSafety | src/client/client.cpp:226-253 | in every state of every run at most one request is outstanding, the i-th response is the i-th reply, which is the reply that fits the i-th request if the server's parser accepts it and an error with a reason if not, a request that is not accepted is the last taken, and each way bytes sent are bytes received plus bytes in flight |
| TwoPeers.CloseEndsTheServer | src/server/server.cpp:357-361 | in every state of every run an accepted `close` has no reply, is the last request taken, and the server has ended |
| TwoPeers.TakenRequestIsAnswered | src/server/server.cpp:350-376 | in every run a request the server takes gets its answer begun, unless it is an accepted `close` or the answer cannot be sent, and then the server ends |
| TwoPeers.ServerGoesOnExactlyWhen | src/server/server.cpp:362-377 | having written a reply the server serves on if it accepted the request, and ends if not |
| TwoPeers.ClientStopsExactlyWhen | src/client/client.cpp:226-253 | step by step, what the client does next: it goes on with every reply it takes, finishes after its last message or a `close`, and fails of itself only when a message cannot be sent or a header is illegal |
| TwoPeers.FinishedClientHasAllResponses | src/client/client.cpp:226-253 | a client that finished has for each request the response that fits it, up to a final `close`, and every byte it began was counted as sent |
| TwoPeers.NoMutualWait | src/server/server.cpp:337-348 | the two peers never wait for each other with nothing in flight |
| TwoPeers.SomebodyProceeds | src/client/client.cpp:226-253 | deadlock freedom: in every state of every run in which both peers are in their loops, within the limit and without an illegal header in front, one of them can go on without giving up |
| TwoPeers.PeersStayWithinMemory | src/client/client.cpp:239-249 | in every state of every run neither peer buffers more than 2 * max + 7 + 16384 bytes |
| TwoPeers.AcceptedKeepsId | src/common/application_protocol.cpp:264-335 | which requests are accepted, independently of clock and generated ids; an accepted one keeps its id, type, time, status and payload |
| WorkerPool.StepKeepsWork | src/server/server.cpp:202-219 | no step of acceptor, worker or stopper strands queued work |
| WorkerPool.StepKeepsOwner | src/server/server.cpp:198-268 | no step loses a connection, gives it a second owner or closes it twice |
| WorkerPool.StepKeepsBooks | src/server/server.cpp:167-265 | every step keeps order of dispatch, counters, bounds, and that after a worker left for the stop at most one connection can still be queued |
| WorkerPool.EveryDescriptorOwnedOnce | src/server/server.cpp:167-268 | in every state of every run each accepted connection has exactly one owner among acceptor, queue, one worker and closed |
| WorkerPool.QueuedWorkHasATaker | src/server/server.cpp:202-265 | if a worker is blocked, the queue is no longer than the workers about to check it plus the notifications to come |
| WorkerPool.PoolBounds | src/server/server.cpp:147-219 | open connections never exceed 2 * max_connections + 1, dispatch is in order of acceptance, and the two counters account for every accepted connection |
| WorkerPool.RefusedExactlyWhenFull | src/server/server.cpp:202-216 | in every run a connection is refused and closed exactly when it is offered to a full queue, and otherwise it is put behind those queued |
| WorkerPool.CountersCountOffers | src/server/server.cpp:204-219 | in every state of every run the refused counter is the number of offers to a full queue and the accepted counter, once updated, the number of the others |
| WorkerPool.WorkerChangesExactlyWhen | src/server/server.cpp:244-265 | in every run a worker gets a connection exactly when it checks a queue that holds one, and then the oldest, leaves exactly when it checks an empty queue with the stop flag up, and checks again after a connection or a wake-up |
| WorkerPool.LeavesExactlyWhenStopped | src/server/server.cpp:167-225 | the acceptor leaves its loop exactly when it finds the stop flag up at the top |
| WorkerPool.ConnectionIsServed | src/server/server.cpp:167-265 | a run in which a connection is accepted, queued, dispatched, finished and closed, and `run` returns after a stop |
| WorkerPool.ReturnedMeansAllClosed | src/server/server.cpp:222-242 | when `run` returns every accepted connection was closed exactly once, and unless all workers died at most one was left to the final loop |
| WorkerPool.StopOutsideChecksLetsRunJoin | src/server/server.cpp:123-127 | a stop that does not fall between a worker's check and its block leaves nobody blocked once `run` joins |
| WorkerPool.LeavingOutsideChecksFreesEveryone | src/server/server.cpp:222-230 | if no worker is between its check and its block when `run` notifies all, nobody waits in any later state |
| WorkerPool.LeavingDuringACheckStrands | src/server/server.cpp:222-250 | if one is, it waits and `run` keeps joining in every later state until another wake-up |
| WorkerPool.StrandedExactlyWhen | src/server/server.cpp:123-250 | on a run without later wake-ups a worker is stranded if and only if one was between its check and its block when `run` notified all |
| WorkerPool.StopDuringACheckCanLeaveAWorkerBlocked | src/server/server.cpp:123-127 | a run in which the stop falls there and the only worker stays blocked after all notifications |
| WorkerPool.StopDuringACheckCanBeHarmless | src/server/server.cpp:123-127 | a run in which the stop falls there and everybody is awake when `run` joins |
| Benchmark.StepConserves | src/client/client.cpp:312-374 | every step, with spurious and stale compare-exchanges, conserves the requested connections |
| Benchmark.ConnectionsAreConserved | src/client/client.cpp:305-374 | in every state of every interleaving successful, failed, lost, in hand and remaining add up to the request, so the counter never wraps; failures are failed runs plus abandoned connections; samples and categories match the counts; the metrics file holds a record for each warm-up and each connection run, posted to the summary or not yet |
| Benchmark.OutcomesAreCounted | src/client/client.cpp:361-373 | on every interleaving the successes are the connections that ended well and the failures of runs those that did not, up to those whose thread has not updated the summary yet; at the join exactly |
| Benchmark.WarmUpsComeFirst | src/client/client.cpp:347-352 | on every interleaving warm-ups made, under way, lost with a thread and left add up to the number configured, and no measured connection is taken before the last warm-up has been |
| Benchmark.EverythingReported | src/client/client.cpp:325-374 | a run in which a warm-up and a connection are made, recorded and reported |
| Benchmark.JoinedRunReportsEverything | src/client/client.cpp:376-396 | at the join of any run successes and failures add up to the request exactly when the pool is empty and no thread died with a connection; the pool is empty if some thread did not die, even if clients failed to set up |
| Benchmark.LostExactlyWhen | src/client/client.cpp:354-388 | connections are lost exactly when an exception ends a thread that holds one |
| Benchmark.NoThreadsReportNothing | src/client/client.cpp:305 | the excluded case: a concurrency of 0 with work to do reports nothing |
| Benchmark.EveryConnectionHasARecordExactlyWhen | include/pqtls/client.hpp:82-85 | at the join of any run written, abandoned, lost and remaining add up to warm-ups and requested connections, so the metrics file is complete if and only if no client setup failed while connections were left, no thread died with a connection, and the pool is empty |
| Benchmark.GivenUpExactlyWhen | src/client/client.cpp:332-341 | connections are given up exactly when a setup fails while some are left |
| Benchmark.AbandonedWithoutARecord | src/client/client.cpp:332-341 | a run with a valid configuration whose only connection is reported as failed and has no record |
| Benchmark.LostWithoutARecord | src/client/client.cpp:354-388 | a run without a setup failure whose only connection has neither report nor record |
| Profiles.IEquals | src/common/security_profile.cpp:44-58 | the loop decides equality ignoring ASCII case |
| Profiles.ClassifiersRespectCase | src/common/security_profile.cpp:112-123 | the group classifiers cannot tell apart names that compare equal |
| Profiles.SetSizeDetectsRepetition | src/common/security_profile.cpp:147-152 | the set-size test rejects exactly the lists with a repeated name |
| Profiles.ProfilesAreWellMade | src/common/security_profile.cpp:136-226 | the values `create` can return are exactly those satisfying all its rules, and creating one again changes nothing |
| Profiles.CreateAcceptsExactly | src/common/security_profile.cpp:136-226 | every definition is accepted if and only if it satisfies the rules once an empty suite list and an empty description are filled in, the result is that definition and nothing else changed, and any other is a configuration error |
| Profiles.AuthenticationNamesRoundTrip | src/common/security_profile.cpp:92-106 | an authentication type is read back from its name, and only from names equal to it up to case |
| Profiles.PermitsExactlyTheListedGroups | src/common/security_profile.cpp:241-258 | for every profile the run-time check accepts exactly the non-empty listed groups ignoring case: the fallback test is implied by construction |
| Profiles.NoDowngrade | src/common/security_profile.cpp:183-258 | if a profile offers a post-quantum group and forbids fallback, every permitted group is post-quantum |
| Profiles.AlwaysPostQuantumExactlyWhen | src/common/security_profile.cpp:183-258 | all permitted groups of a profile are post-quantum exactly when all its listed groups are, whatever its flags |
| Profiles.FindInMeaning | src/common/security_profile.cpp:354-358 | a lookup finds a profile of that id, and fails only if there is none |
| Profiles.ProfileRegistry.Empty | src/common/security_profile.cpp:285-286 | an empty registry is valid |
| Profiles.ProfileRegistry.Find | src/common/security_profile.cpp:354-358 | the search returns the one profile with that id, and every profile found was validated |
| Profiles.ProfileRegistry.AddOrReplace | src/common/security_profile.cpp:378-388 | the new profile is found under its id, every other lookup is unchanged, ids stay unique and the size grows only for a new id |
| Builtin.EntryIsCreated | src/common/security_profile.cpp:285-351 | every built-in definition passes validation unchanged and, from the third on, offers a post-quantum group and no other |
| Builtin.CatalogueKeepsItsPromises | src/common/security_profile.cpp:285-351 | every built-in profile whose id starts with `hybrid-` or `pure-` lists only post-quantum groups |
| Builtin.BuiltinRegistry | src/common/security_profile.cpp:285-351 | the built-in registry holds exactly the catalogue and is valid |
| Sessions.ServeMessages | src/server/server.cpp:330-377 | whatever the fragmentation, the frames handled are the first received, only the last of them can be one that closes, and the bytes sent are the replies to them: all if the loop ended without an error, all but a part of the last if not. Without an error it ended because the last frame closed, the limit was reached, the stop flag was up at its last turn, or the peer closed with no complete frame left; with one, because the limit is illegal, or every frame was handled and a header is illegal or a read failed, or the last reply could not be sent, under the category of that cause |
| Sessions.DecisionMeaning | src/server/server.cpp:350-369 | a valid message gets the reply that fits it; anything else gets an error with a generated id and the reason; the connection closes exactly after a frame that is no valid message or a `close` |
| Sessions.SendMessage | src/client/client.cpp:227-229 | exactly the frame of the message is put on the wire, or a part of it, and a failure has its cause: the library cannot write it, it does not fit, or a write failed |
| Sessions.AnswerFrame | src/server/server.cpp:350-376 | one frame is answered as specified, or the connection fails because its reply cannot be written, does not fit or is not taken, with at most a part of it sent; earlier replies stay sent |
| Sessions.ServeNegotiated | src/server/server.cpp:306-405 | the same from the completed handshake on: gates, traffic and record, and the category of each cause of failure |
| Sessions.RepliesAgreeWithRecord | src/server/server.cpp:34-48 | every capabilities reply of a connection carries the group and the post-quantum flags of the record written for it |
| Sessions.HandleConnection | src/server/server.cpp:267-417 | no application byte crosses and no record says success unless the gates passed; the record is honest on every path and shows what was negotiated whenever the handshake completed; a success record counts exactly the bytes and messages of the exchange; a failure has a cause and its category: setup, refused handshake, group, certificate or traffic; capabilities replies agree with the record, and both say post-quantum when the profile offers such a group and forbids fallback |
| Sessions.AwaitFrame | src/client/client.cpp:236-249 | the frame awaited is the next frame of the incoming bytes; without one, its header is illegal, a read failed or the peer closed |
| Sessions.ExchangeOne | src/client/client.cpp:226-253 | one turn of the client's loop: the message is sent and, unless it is a `close`, the next incoming frame is its response, parsed; or the message or the response has failed for its cause |
| Sessions.ExchangeMessages | src/client/client.cpp:222-253 | without an error exactly the messages up to a `close` were sent and each other one has its response, the next incoming frame parsed; with one, the messages answered and at most the next were sent, and that message could not be sent or its response could not be had or is no valid message |
| Sessions.ConnectAndExchange | src/client/client.cpp:117-271 | the same safety for the client, where any error leaves only its category, and that is the category of its cause |
| Sessions.PopulateNegotiation | src/client/client.cpp:24-50 | the record shows what was negotiated and the peer's signature, or the profile's if there is none; it claims hybrid and post-quantum key establishment exactly for the groups the validator knows as such, and post-quantum authentication exactly for the signatures the client looks for, all of which the validator accepts |
| Sessions.RunOnce | src/client/client.cpp:79-115 | safety, honesty and exact counts for the client; a failed connection leaves a blank record with the category of its cause and no responses |
| Sessions.GatesMeanNoDowngrade | src/common/tls_context.cpp:409-457 | past the gates the group is one the profile lists, and post-quantum if the profile offers such a group and forbids fallback |
| Dialogue.ArrivedWereSent | src/common/application_protocol.cpp:98-121 | the complete frames in any part of what a peer sent are the first texts it sent |
| Dialogue.ResponsesAnswerMessages | src/client/client.cpp:226-253 | the two connection methods joined: if each received a part of what the other sent, every response of a successful client is the reply that fits the message at its place, or an error with a reason if the server's parser does not accept that message |
| Records.ClassifiersAgree | tools/result_validator.py:36-40 | the C++ lists compared ignoring case and the Python sets of lower-case names classify every name alike |
| Records.ClientSignatureIsMarked | src/client/client.cpp:44-49 | whatever signature name the client classifies as post-quantum contains a marker of the validator |
| Records.CategoryNamesRoundTrip | src/common/error.cpp:13-41 | every error category is read back from its name, and no two have the same |
| Records.ReportedExactlyWhen | tools/result_validator.py:137-207 | each problem is reported exactly when the record shows it, for every record |
| Records.PassesExactlyWhenCredible | tools/result_validator.py:137-207 | a record passes if and only if: success means TLS 1.3, a group, no error category, a post-quantum claim on a post-quantum group and such a group if the profile promises it; a post-quantum claim means no group or a post-quantum one, a hybrid claim also the post-quantum claim and no group or a hybrid one, and a claim of post-quantum authentication no algorithm or a marked one |
| Records.HonestRecordsPass | tools/result_validator.py:137-207 | an honest record has no problem but a downgrade report, and that one exactly when a promising profile permitted a classical group |
| Records.RecordsPass | tools/result_validator.py:137-207 | every honest record of a profile that keeps its promise passes, successful or failed |
| Records.CleanExactlyWhen | tools/result_validator.py:199-205 | all successful records of a profile pass if and only if its id promises nothing or all its negotiable groups are post-quantum |
| Records.MisnamedProfile | src/common/security_profile.cpp:183-198 | a classical-only profile that forbids fallback, which `create` accepts and whose records the validator reports |
| Structure.StructuralCheck | tools/result_validator.py:93-134 | no problem is reported if and only if the version is the integer 1, the id a text of the pattern, the role one of two, every other required field there and of its kind, no duration negative, and the category absent, null or one the writer knows |
| Structure.KnownCategories | src/common/error.cpp:13-28 | the categories the validator knows are exactly those the peers write |
| Structure.SoundExactlyWhen | tools/result_validator.py:93-134 | a peer's record passes exactly when its connection id matches the pattern and no duration is negative, whatever the outcome |
| Statistics.PercentileMonotone | scripts/analyze-results.py:51-63 | percentiles never decrease as the fraction grows |
| Statistics.PercentileHitsOrderStatistics | scripts/analyze-results.py:57-61 | at a whole position the percentile is that order statistic |
| Statistics.PercentileIsLinear | scripts/analyze-results.py:57-63 | between two order statistics the percentile moves on a straight line |
| Statistics.PercentileSeparates | scripts/analyze-results.py:57-63 | the values before the position are not above the percentile and those after it not below |
| Statistics.PercentileWithinRange | scripts/analyze-results.py:51-63 | percentiles lie between minimum and maximum, which the fractions 0 and 1 attain |
| Statistics.MedianIsP50 | scripts/analyze-results.py:102-106 | the 50th percentile is the median for every sample size |
| Statistics.DistributionIgnoresOrder | scripts/analyze-results.py:81-112 | a distribution depends only on which values occur how often |
| Statistics.DistributionIsOrdered | scripts/analyze-results.py:81-112 | min <= p50 = median <= p90 <= p95 <= p99 <= max, the mean lies in the range, the extremes are values of the sample, and there is a spread exactly from two values on, zero exactly when all values are the same |
| Statistics.ReportedPercentiles | scripts/analyze-results.py:99-112 | which four percentiles are reported, on samples of 100 k + 1 values where they are order statistics |
| Statistics.MeanTimesCount | scripts/analyze-results.py:88 | the mean times the count is the sum |
| Statistics.MeanIsTheCentre | scripts/analyze-results.py:88-91 | squared distances are smallest from the mean, and from any other point larger by the count times its squared distance from the mean |
| Statistics.VarianceBySums | scripts/analyze-results.py:91 | the variance is the sample variance: times n (n - 1) it is n times the sum of squares less the square of the sum |
| Statistics.MarginIsOfTheMean | scripts/analyze-results.py:94-96 | the squared margin times n is the variance times the square of the critical value for n - 1 degrees |
| Statistics.SpreadVanishesExactlyWhen | scripts/analyze-results.py:89-97 | variance and squared margin are never negative, and zero exactly when all values are the same |
| Statistics.TCritical95 | scripts/analyze-results.py:40-48 | lookup and search give the value of the first row with at least that many degrees, none below one |
| Statistics.TableIsStudents | scripts/analyze-results.py:32-37 | the table's numbers agree with independent ones: from 4 degrees on within 0.001 of the expansion of section 26.7.5 of Abramowitz and Stegun, at 3 within 0.004, at 2 and 1 with the closed forms |
| Statistics.CriticalValuesDescend | scripts/analyze-results.py:32-48 | critical values never rise with the degrees of freedom and never fall below the normal one |
| Statistics.TooNarrowAt21 | scripts/analyze-results.py:29-48 | with 21 degrees of freedom the value used is below the table's value for 20 |
| Statistics.TooNarrowExactlyBetweenRows | scripts/analyze-results.py:29-48 | the value used is never above that of the last row with at most that many degrees, and equal exactly at the rows |
| Statistics.FallsShortExactlyBetweenRows | scripts/analyze-results.py:29-48 | up to the last row the value used is below the critical value exactly between rows, for every falling curve through the rows |
| KeyOrder.SortKeys | scripts/analyze-results.py:169 | every key once, in ascending order |
| KeyOrder.TextLessMeaning | scripts/analyze-results.py:169 | texts are ordered by their first difference, an initial part first |
| KeyOrder.KeyLessMeaning | scripts/analyze-results.py:169 | keys are ordered by the first text in which they differ |
| KeyOrder.AscendingUnique | scripts/analyze-results.py:169 | a set of keys has only one ascending listing |
| Analysis.GroupEntries | scripts/analyze-results.py:162-165 | the dictionary has exactly the keys that occur, each with its records in file order |
| Analysis.FieldsByName | scripts/analyze-results.py:158-159 | grouping by the name of a text field goes by that field |
| Analysis.FlagsByName | scripts/analyze-results.py:158-159 | grouping by a yes-or-no field separates exactly the records that differ in it |
| Analysis.SummariseGroup | scripts/analyze-results.py:170-215 | every count, rate, counter and distribution of a row is that of the group's records |
| Analysis.TimesOfTheRow | scripts/analyze-results.py:173-179 | the handshake figures of a row range exactly over the handshake times of its successful records, and the connection figures over their connection times |
| Analysis.Summarise | scripts/analyze-results.py:162-218 | one row for each group that occurs, in key order, describing exactly that group |
| Analysis.CountIgnoresOrder | scripts/analyze-results.py:181-195 | no count depends on the order of the records |
| Analysis.ReportIgnoresRecordOrder | scripts/analyze-results.py:162-218 | reordering the records leaves the whole report unchanged |
| Analysis.ColumnsAccountForEveryRecord | scripts/analyze-results.py:199-214 | every column adds up over the rows to the count of what it names in the input: no record is lost or counted twice |
| Analysis.CountersAccountForTheRow | scripts/analyze-results.py:181-204 | in each row the error categories add up to the failures, the negotiated groups to the successes, successes and failures to the total, and the two rates to one |
| Analysis.RowWarnsExactlyWhen | scripts/analyze-results.py:355-364 | a row warns exactly when its group holds a successful record of a promising profile without the post-quantum mark and the profile is a grouping field |
| Analysis.WarningExactlyWhen | scripts/analyze-results.py:352-364 | the same for the whole report and the whole input |
| Analysis.AcceptedIsNotDowngraded | tools/result_validator.py:148-205 | a record the validator accepts is not downgraded |
| Analysis.AcceptedRecordsNeverWarn | scripts/analyze-results.py:352-364 | if every record passes the validator the analyser never warns, for any grouping |
| Pcap.UpdateFlow | tools/pcap_metrics.py:145-185 | one packet more turns the metrics of a stream's packets into those of the packets including it |
| Pcap.NoteTransport | tools/pcap_metrics.py:148-157 | the first SYN time is kept, retransmissions and fragments are counted |
| Pcap.NoteHandshake | tools/pcap_metrics.py:163-175 | sizes and group come from the first ClientHello and the first ServerHello |
| Pcap.CollectFlows | tools/pcap_metrics.py:136-185 | the dictionary holds one flow per named stream, computed from that stream's packets alone, and its keys are in order of first appearance |
| Pcap.OrderListsEveryStreamOnce | tools/pcap_metrics.py:145 | the listing has every named stream exactly once |
| Pcap.OrderIsStable | tools/pcap_metrics.py:145 | further packets extend the listing only at its end |
| Pcap.Analyse | tools/pcap_metrics.py:136-199 | the flows in order of first appearance, each as if its packets had been captured alone, and the note on missing hellos exactly if some stream has none |
| Pcap.StreamSeparation | tools/pcap_metrics.py:136-185 | a stream analysed alone gives the flow it has in the full capture |
| Pcap.InterleavingIsIrrelevant | tools/pcap_metrics.py:136-185 | captures that interleave the same streams differently give the same flows |
| EndToEnd.ClientRecordPasses | src/client/client.cpp:79-271 | whatever happens to a connection, the client's record passes both halves of the validator, given TLS 1.3 and a profile that keeps its promise |
| EndToEnd.ServerRecordPasses | src/server/server.cpp:267-417 | the same for the server |
| EndToEnd.BuiltinPeersNeverWarn | scripts/analyze-results.py:352-364 | results of built-in profiles, from either peer, never make the analyser warn, however they are grouped |
| EndToEnd.RunTrial | tools/result_validator.py:93-207 | one connection of either peer under a built-in profile leaves a record of that profile and role that both halves of the validator accept |
| EndToEnd.Campaign | scripts/analyze-results.py:352-364 | any number of connections of either peer under built-in profiles, then the analyser: each has its record, both halves of the validator accept it, the report is that of exactly these records, and no row warns, for any grouping |
| EndToEnd.MisnamedRun | tools/result_validator.py:199-205 | the client itself returns a record with a downgrade report, under a profile that `create` accepts |

## Left out

- OpenSSL: handshake, certificate verification, group probing, provider listing and key logging; what they answer is an
  input of a step.
- Sockets, DNS, polling and timeouts: reads and writes move any number of bytes or fail; connections are numbered in
  order of acceptance, so reuse of descriptor numbers by the kernel does not appear.
- JSON and YAML text: trees and parsed definitions are the inputs, and the JSON library is assumed to read back what it
  wrote. Conversion of tshark columns to numbers is not modelled either.
- Termination of `run` after `stop`, and the overwriting of the flag when `run` starts after `stop`: proved is what holds
  when `run` returns, and which timing of a stop leaves nobody blocked.
- Exceptions from locking a mutex or starting a thread, and memory exhaustion.
- Floating-point rounding and resource samples. Standard deviation and margin are kept as their squares, since they need
  a square root; durations are inputs.
- Session caching and resumption: whether a session was resumed is an input.
- The semantic check and the analyser work on the records the C++ writer emits, with ASCII lower-casing; records of other
  shapes, values that Python cannot hash, and the optional schema check are not modelled.
- The check of the TLS version in `create` always holds, since the version type has one value, and is omitted.
- Bit masks and shifts are written as quotients and remainders.
- Analysis.SummariseGroup: counts in one pass what the source counts in several comprehensions over the same list.
- Pcap.Analyse: keeps the flow records as values of a map and not as objects updated in place.
- Sessions.HandleConnection: a connection gets a finite script of reads and a silent peer ends in a timeout, so a
  connection that stays open for ever is not represented; the same holds for Sessions.RunOnce.
- Configuration files, command lines, error texts, capability listing, the audit adapter, claim checking and scripts.
