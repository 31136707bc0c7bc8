# A verified model of the tunnel library's protocol core

The library opens tunnels to an edge network. This project models, in Dafny, the parts of it that
speak a protocol, and proves what they promise for every input, every run and every schedule:

- **Edge discovery** (`Bytes`, `Sets`, `DnsName`, `DnsNameTheorems`, `SrvResponse`, `SrvTheorems`,
  `SrvOctets`): DNS names with compression, SRV queries and the SRV response parser. A grammar of names and responses
  is given independently of the parser, after sections 3.1 and 4.1 of RFC 1035 and "The format of the
  SRV RR" of RFC 2782, and the parser is shown to accept exactly that grammar. It is wider than the
  standards, as the code is: a pointer may target any position of the message, not only a prior one,
  the target of a record may continue behind the record, a name may be longer than 255 octets, and the
  flag word and the question count are not looked at.
- **Framing** (`Framing`, `FramingTheorems`, `FrameOctets`): Cap'n Proto messages on a byte stream ("Serialization
  Over a Stream" of the Cap'n Proto encoding specification), over a transport that hands out bytes
  in chunks of any size.
- **RPC** (`RpcClient`, `RpcTrace`, `RpcServer`, `RpcLockstep`, `Control`): the minimal client and
  the connector's server loop at the level of the `Message`, `Return`, `Finish` and `Release` types of
  rpc.capnp; client runs against an arbitrary peer, client against server over two FIFO channels, and
  the life of a tunnel registration.
- **Configuration pushes** (`Configuration`, `ConfigurationInterleaving`): the shared handler, one
  push after the other and under every interleaving of its atomic steps.
- **Pump** (`Pump`): the two-directional copier under every schedule.
- **Stream serving** (`Serve`, `ActiveStreams`): preamble dispatch, the exact hand-over of the body,
  the bounded drain, and the set of active streams.

Code that loops or mutates is a method with a loop or a class with mutable fields, and its contract
ties it to a specification function; the theorems are about those functions. What the formats are in octets,
which identifiers and texts are used, and what each error is, is stated once more in literals, without the
constants and functions of the model (`SrvOctets`, `FrameOctets`, and lemmas of `RpcClient`,
`RpcServer` and `Control`). I/O, peers and schedulers are parameters or nondeterministic choices. Integers of the source that wrap (`question` ids, the
segment count) or saturate (word totals) do so in the model.

Some promises turned out not to hold as one would expect, and are stated exactly:

- `decode_name` has no jump counter. It ends if and only if its walk never comes back to a position
  (`HaltsExactly`), and a pointer to itself keeps it busy for ever (`SelfPointerNeverHalts`). The parser
  then never returns either: on a datagram of 36 octets (`LoopingResponse`), and in general exactly when a
  bounded check of its answers says so (`DivergesExactly`).
- The parser does not check the question when no answers are announced (`TruncatedQuestionAccepted`);
  with a complete question it accepts exactly the responses (`AcceptsExactlyResponses`).
- The parser does not confine a target to its record (`TargetMayOverrunItsRecord`). All targets lie
  inside their records if and only if each is skipped within its own data, which can be read off the
  octets (`AcceptsStrictlyWhenConfined`).
- Callbacks of overlapping configuration pushes may run in the other order than their versions are
  stored (`CallbacksMayOvertake`), so the last announced configuration need not be the applied one. They
  follow the stores if and only if each callback is that of the oldest push between store and callback
  (`CallbacksFollowStoresExactly`).
- Apart from the control stream, the active streams are those of tasks in flight exactly when no task
  panics (`ActiveSetIsBounded`); a panicked task leaves its stream behind (`PanicLeaksStream`).
- A task releases its stream at most once, but a stream id can be accepted and released again
  (`StreamMayBeServedTwice`). No stream is served twice if and only if none is accepted that an ended
  task has released (`StreamsServedOnceExactly`).
- At a call whose parameters do not decode, the connector's loop stops and drops the stream. The client
  is not left waiting: that question and all later ones end with an error of the stream
  (`CallGetsItsOwnAnswer`; for a session, `UnreadableCallBreaksSession`).
- The module comment of src/edge/discovery.rs shows service labels with underscores; the code encodes
  them without, and the model follows the code.

## Model

| member | source | states |
|---|---|---|
| DnsName.MasksAreRanges | src/edge/discovery.rs:242-256 | the bit masks on a length octet select exactly the ranges the model tests |
| DnsName.NextHalts | src/edge/discovery.rs:231-266 | a walk halts exactly when it halts from its next position, one move cheaper |
| DnsName.YieldIsWalk | src/edge/discovery.rs:228-268 | the decoder's accumulated text and error are those of the labels its walk meets, in order |
| DnsName.DottedIsJoined | src/edge/discovery.rs:262 | the dot between two labels is octet 46 |
| DnsName.DecodeName | src/edge/discovery.rs:228-268 | error, appended text with octet 46 between labels, and stored position of the decoder, jumps included |
| DnsName.FollowName | src/edge/discovery.rs:231-266 | the decoder's loop, with the set-once position |
| DnsName.Skip | src/edge/discovery.rs:206-223 | a skip moves forward and at most one octet past the message |
| DnsName.SkipName | src/edge/discovery.rs:206-223 | the skipping loop computes the recursive definition of skipping |
| DnsNameTheorems.HaltsExactly | src/edge/discovery.rs:231-266 | decoding ends if and only if it never revisits a position, and then within one move per octet plus one |
| DnsNameTheorems.HaltsWithinBound | src/edge/discovery.rs:231-266 | the same as a bounded check: decoding ends exactly when no position is left after one move per octet plus one |
| DnsNameTheorems.SelfPointerNeverHalts | src/edge/discovery.rs:242-253 | a pointer to itself is decoded for ever |
| DnsNameTheorems.BackwardPointersHalt | src/edge/discovery.rs:242-253 | pointers that target strictly before the start of their own run make decoding end, by the measure (run start, octets left) |
| DnsNameTheorems.PrintedRunAt | src/edge/discovery.rs:231-266 | a run of labels stands at a position exactly when its printed octets occur there |
| DnsNameTheorems.RunDecodes | src/edge/discovery.rs:228-268 | compression preserves meaning: a run yields its labels followed by what its pointer's target yields, errors included |
| DnsNameTheorems.ChainDecodes | src/edge/discovery.rs:228-268 | a name laid out over any chain of pointers decodes to exactly its labels |
| DnsNameTheorems.DecodedIsChain | src/edge/discovery.rs:228-268 | conversely, whatever decodes without error is a laid-out name with that meaning |
| DnsNameTheorems.RunSkips | src/edge/discovery.rs:206-223 | skipping a printed run lands right after it |
| DnsNameTheorems.RunAtSkips | src/edge/discovery.rs:206-223 | the same for a run that stands in a message |
| DnsNameTheorems.SkippedIsRun | src/edge/discovery.rs:206-223 | conversely, whatever is skipped inside the message is a run of that size |
| DnsNameTheorems.SkipAgreesWithDecode | src/edge/discovery.rs:206-268 | where decoding succeeds, skipping succeeds and returns the position that decoding stores |
| DnsNameTheorems.StoredIsSkipped | src/edge/discovery.rs:237-250 | the stored position, errors included: past the first run where that stands completely in the message, unchanged otherwise |
| DnsName.AppendLabelsIsDotted | src/edge/discovery.rs:260-264 | pushing labels one by one joins them with dots |
| DnsNameTheorems.SplitJoin | src/edge/discovery.rs:271 | splitting on dots and rejoining is lossless |
| DnsNameTheorems.JoinSplit | src/edge/discovery.rs:271 | joining labels without dots and splitting again is lossless |
| DnsNameTheorems.SplitsAtDots | src/edge/discovery.rs:271 | the pieces of a name have no octet 46 and, joined with it, are the name |
| DnsNameTheorems.PiecesAreUnique | src/edge/discovery.rs:271 | no other pieces are |
| DnsNameTheorems.EncodeName | src/edge/discovery.rs:270-279 | success exactly when all pieces between octets 46 have 1 to 63 octets; the octets appended in both cases |
| DnsNameTheorems.AllLabelsJoin | src/edge/discovery.rs:115-118 | the labels of several names joined by dots are the names joined by dots |
| DnsNameTheorems.EncodedNamesDecode | src/edge/discovery.rs:115-119 | encoded names closed by a zero decode, at any offset of any message, to the names joined by dots, and leave the position past the zero |
| SrvResponse.ParseSrvResponse | src/edge/discovery.rs:147-204 | records or error of the parser, for every input on which it returns; all indexing in bounds |
| SrvResponse.ReadAnswers | src/edge/discovery.rs:167-203 | the answer loop collects the records of its turns in order and stops at the first error |
| SrvResponse.ReadAnswer | src/edge/discovery.rs:169-201 | one turn: the record found, if any, the next position, or the error |
| SrvTheorems.WellFormedResponseParses | src/edge/discovery.rs:147-204 | every well-formed one-question response, with answers of any type and class and plain or compressed names, yields exactly the (target, port) pairs of its class-IN SRV records, in order; any other identifier is refused |
| SrvTheorems.ParsedIsPrinted | src/edge/discovery.rs:147-204 | conversely, an accepted message with a complete question is the printed form of a well-formed response with those records |
| SrvTheorems.AcceptsExactlyResponses | src/edge/discovery.rs:147-204 | for every byte string: accepted with these records, question complete, if and only if it is such a response |
| SrvTheorems.AnswersNeedQuestion | src/edge/discovery.rs:163-173 | with an announced answer, acceptance implies a complete question |
| SrvTheorems.TruncatedQuestionAccepted | src/edge/discovery.rs:161-168 | without announced answers a question cut inside a pointer is accepted |
| SrvTheorems.TargetMayOverrunItsRecord | src/edge/discovery.rs:194-200 | an accepted message whose target is read from the octets behind its record |
| SrvTheorems.TargetInsideExactly | src/edge/discovery.rs:189-200 | for every record: its target lies inside its data if and only if skipping the target ends there |
| SrvTheorems.TargetsInsideExactly | src/edge/discovery.rs:167-202 | for every well-formed response: all targets lie inside their records if and only if each SRV target is skipped within its own data |
| SrvTheorems.AcceptsStrictlyWhenConfined | src/edge/discovery.rs:147-204 | for every byte string: a well-formed response with these records and all targets inside if and only if accepted, question complete and answers confined |
| SrvTheorems.RecordCountBound | src/edge/discovery.rs:147-204 | k > 0 returned records need at least 17 + 17k octets; at most 239 fit the 4096-octet buffer |
| SrvTheorems.LastMoveDecides | src/edge/discovery.rs:231-266 | one move per octet and one more decide whether decoding ends, and whether it succeeds |
| SrvTheorems.TurnHangs | src/edge/discovery.rs:169-201 | whether a turn goes on, ends the parser or fails to return is decided by a computable check of the record |
| SrvTheorems.DivergesExactly | src/edge/discovery.rs:147-204 | for every byte string: the parser fails to return if and only if the check finds, behind answers without error, an SRV record whose target is decoded for ever |
| SrvTheorems.LoopingResponse | src/edge/discovery.rs:194-200 | a response of 36 octets on which it does not return |
| SrvOctets.ResponseParses | src/edge/discovery.rs:147-204 | a literal response with a compressed and a plain SRV record, an address record and one of another class yields "a.x" at 7844 and "a.b" at 443 |
| SrvOctets.NameErrors | src/edge/discovery.rs:232-259 | which error the decoder reports where |
| SrvOctets.SkipErrors | src/edge/discovery.rs:208-220 | which error skipping reports where |
| SrvOctets.HeaderErrors | src/edge/discovery.rs:148-160 | fewer than 12 octets and another identifier are refused as such |
| SrvOctets.ResponseErrors | src/edge/discovery.rs:161-200 | the errors of the answer loop on literal messages |
| SrvOctets.QueryOctets | src/edge/discovery.rs:121-131 | the octets of every query around its name: identifier high octet first, recursion desired, one question, type 33, class 1 |
| SrvOctets.LabelsOctets | src/edge/discovery.rs:275-276 | a label is printed as its length and its octets |
| SrvOctets.QueryOfThreeNames | src/edge/discovery.rs:115-131 | a whole query in literal octets, a two-label name in it |
| SrvTheorems.BuildQuery | src/edge/discovery.rs:115-131 | fails exactly where a label is empty or too long; otherwise the datagram is the printed query for those labels |
| SrvTheorems.EncodeQuestion | src/edge/discovery.rs:115-119 | the three names one after the other, closed by the root octet |
| SrvTheorems.FrameQuery | src/edge/discovery.rs:121-131 | header, question name, type SRV and class IN |
| SrvTheorems.QueryCarriesName | src/edge/discovery.rs:115-131 | the question of a query decodes to the dotted name, ends where type and class begin, and the query itself parses as a response without records |
| Framing.TableSize | rpc/src/io.rs:47-48 | the rounded header size is the table plus its padding |
| Framing.Source.Poll | rpc/src/io.rs:95 | a transport read: any non-empty chunk, zero bytes exactly at the end |
| Framing.ReadExact | rpc/src/io.rs:93-103 | fills the buffer with the next bytes of the stream and consumes exactly those, or reports the end, for any chunking; on a transport error the bytes taken so far, fewer than asked for, are in the buffer; such an error is reported exactly when the transport had one |
| Framing.ReadMessage | rpc/src/io.rs:23-71 | result and bytes consumed of reading one message, every error included; a transport error takes no byte that the reading would not take |
| Framing.RestIsRead | rpc/src/io.rs:46-71 | lengths followed by segments are the rest of the frame, in every outcome |
| Framing.ReadHeader | rpc/src/io.rs:26-45 | the checked segment count and first length |
| Framing.ReadRest | rpc/src/io.rs:46-71 | the rest of the table and the segments |
| Framing.ReadLengths | rpc/src/io.rs:46-63 | all lengths, or the first running total above the limit |
| Framing.ReadTable | rpc/src/io.rs:46-63 | the second part of the table; every slice in bounds |
| Framing.AddLengths | rpc/src/io.rs:51-62 | the loop over the lengths with its saturating total and early exit |
| Framing.ReadSegments | rpc/src/io.rs:65-70 | the segment contents, cut by their lengths |
| Framing.WriteAll | rpc/src/io.rs:105-114 | what is written is a prefix of the bytes, all of them on success, whatever the sink takes per call; an error is the one the sink met |
| FramingTheorems.SizeChecksExact | rpc/src/io.rs:28-63 | accepted exactly when 1 to 512 segments are announced, the true total is within the limit and all bytes are there |
| FramingTheorems.FrameRoundTrip | rpc/src/io.rs:23-71 | a frame in front of any bytes reads back as its segments, consuming exactly the frame |
| FramingTheorems.ReadIsFrame | rpc/src/io.rs:23-71 | whatever is read as a message is a frame of it, up to padding |
| FramingTheorems.AcceptsExactlyFrames | rpc/src/io.rs:16-71 | reading yields a message if and only if the input starts with a frame of it |
| FramingTheorems.CutFrameIsEof | rpc/src/io.rs:93-103 | a frame cut short anywhere is reported as the end of the stream |
| FramingTheorems.ReadStream | rpc/src/cloudflared.rs:81-88 | reading until the first error yields the messages of the specification; a transport error yields a prefix of them |
| FramingTheorems.FramesRoundTrip | rpc/src/io.rs:23-71 | a concatenation of frames reads back as the same list of messages, in front of any tail |
| FramingTheorems.CutStreamKeepsMessages | rpc/src/io.rs:23-103 | a stream cut inside a frame yields the complete messages before it |
| Configuration.ParseRemoteConfiguration | src/edge/configuration.rs:76-107 | announcement or error text of a push |
| Configuration.SplitRules | src/edge/configuration.rs:94-101 | the two vectors hold hostname and service of the routed rules, pairwise and in order |
| Configuration.EdgeConfigurationHandler.constructor | src/edge/configuration.rs:35-42 | a fresh handler has applied version -1 |
| Configuration.EdgeConfigurationHandler.UpdateConfiguration | src/edge/configuration.rs:46-71 | reply, applied version and callback of one push |
| FrameOctets.PutU32Octets | rpc/src/io.rs:29-54 | integers have their low octet first |
| FrameOctets.TableOctets | rpc/src/io.rs:18-19 | a segment table in octets |
| FrameOctets.OneSegment | rpc/src/io.rs:23-71 | a literal frame of one word is read back, in front of anything |
| FrameOctets.TwoSegments | rpc/src/io.rs:23-71 | a literal frame of two segments, its padding ignored |
| FrameOctets.HeaderErrors | rpc/src/io.rs:27-44 | the errors of the first word, the segment count before the length |
| FrameOctets.TotalTooLarge | rpc/src/io.rs:51-60 | the first total above the limit is reported behind the table |
| FrameOctets.ShortBody | rpc/src/io.rs:65-66 | a body that stops short is the end of the stream |
| Configuration.CallbackSeesRules | src/edge/configuration.rs:92-105 | for every history: each value the callback sees has the version of its push and, field by field, the hostnames and services of exactly the rules with a hostname |
| Configuration.RoutedIsSubsequence | src/edge/configuration.rs:96-101 | the routed rules are exactly the rules with a hostname, at increasing places |
| Configuration.AppliedIsLatest | src/edge/configuration.rs:45-72 | after any history the applied version is that of the latest parseable push, or -1 |
| Configuration.ReplyReportsLatest | src/edge/configuration.rs:45-72 | each reply reports the latest parseable push so far, an empty error exactly for a parseable push and otherwise the text of the decoding error |
| Configuration.CallbackSeesParseablePushes | src/edge/configuration.rs:52-57 | the callback sees exactly the parseable pushes, in order |
| ConfigurationInterleaving.RepliesLinearize | src/edge/configuration.rs:51-69 | under every interleaving of the atomic steps each reply is that of the whole-push handler, in the order of stores and loads |
| ConfigurationInterleaving.FinishedRunIsComplete | src/edge/configuration.rs:51-69 | when all tasks have replied, every push has exactly one place and every parseable one exactly one callback |
| ConfigurationInterleaving.CallbacksMayOvertake | src/edge/configuration.rs:53-57 | two overlapping pushes of any valid configuration can be announced in the other order than they are stored |
| ConfigurationInterleaving.CallbacksFollowStoresExactly | src/edge/configuration.rs:51-69 | for every interleaving: the callbacks are a prefix of the parseable pushes in store order if and only if each was taken for the oldest push between store and callback |
| ConfigurationInterleaving.CallbacksInOrder | src/edge/configuration.rs:53-57 | in particular when no two pushes are between store and callback at once |
| ConfigurationInterleaving.OverlapMayStayInOrder | src/edge/configuration.rs:53-57 | overlap alone does not break the order |
| RpcClient.Connection.constructor | rpc/src/rpc.rs:37-43 | a fresh client has asked nothing |
| RpcClient.Connection.SendBootstrap | rpc/src/rpc.rs:52-88 | state, events on the wire and result of a bootstrap, for any peer and any stream failure |
| RpcClient.Connection.SendCall | rpc/src/rpc.rs:92-137 | the same for a call |
| RpcClient.Connection.Close | rpc/src/rpc.rs:149-156 | a release exactly when bootstrapped |
| RpcClient.StraysAreReported | rpc/src/rpc.rs:202-226 | what an operation reports and writes for a message that is no return to its question: an abort, another answer id, another kind |
| RpcClient.BootstrapReports | rpc/src/rpc.rs:63-87 | what it reports and writes for each return to a bootstrap, by its capability table |
| RpcClient.CallReports | rpc/src/rpc.rs:121-136 | the same for each return to a call |
| RpcClient.FailuresAreReported | rpc/src/rpc.rs:52-137 | the failures of order, parameters, stream and finish |
| RpcClient.SuccWraps | rpc/src/rpc.rs:56-57 | ids have 32 bits |
| RpcClient.CloseReleases | rpc/src/rpc.rs:149-156 | import 0 is released once |
| RpcTrace.BootstrapIsSafe | rpc/src/rpc.rs:52-88 | a bootstrap keeps trace and client state in agreement, and asks at most one question, with the next id |
| RpcTrace.CallIsSafe | rpc/src/rpc.rs:92-137 | so does a call |
| RpcTrace.RunIsSafe | rpc/src/rpc.rs:52-144 | against any peer, every run of the client satisfies the protocol monitor |
| RpcTrace.ClosedRunIsSafe | rpc/src/rpc.rs:149-156 | so does a run that ends with a close, which releases exactly when a bootstrap was accepted |
| RpcTrace.SafeTraceByIndex | rpc/src/rpc.rs:52-156 | read by position: no call before an accepted bootstrap, a finish right behind its question's return, a release last and only after an accepted bootstrap |
| RpcTrace.SafePrefix | rpc/src/rpc.rs:52-156 | every prefix of a safe trace is safe |
| RpcTrace.IdsIncrease | rpc/src/rpc.rs:56-57 | question ids on the wire strictly increase in every run that uses at most 2^32 ids |
| RpcTrace.CounterIsIdsUsed | rpc/src/rpc.rs:56-57 | the counter is the number of ids used, modulo 2^32 |
| RpcTrace.FinishIdsIncrease | rpc/src/rpc.rs:141-144 | in a safe trace with increasing questions the finish ids increase too |
| RpcTrace.FinishesAreUnique | rpc/src/rpc.rs:141-144 | hence at most one finish per question in every such run |
| RpcServer.ReactTo | rpc/src/cloudflared.rs:89-144 | the reply, silence or stop for one message, and the handler's new state |
| RpcServer.ServeCloudflared | rpc/src/cloudflared.rs:76-149 | replies written, handler state and result of the loop, which ends early exactly at an unreadable message or a reply that the stream lost |
| RpcServer.ServeSplit | rpc/src/cloudflared.rs:81-148 | serving composes over any cut of the incoming stream; a stop is final |
| RpcServer.OneReturnPerQuestion | rpc/src/cloudflared.rs:81-148 | exactly one return per bootstrap or call, in arrival order, echoing its id; nothing for anything else |
| RpcServer.ServesPushes | rpc/src/cloudflared.rs:105-115 | configuration replies and final handler depend on the pushes alone |
| RpcServer.AnswersFollowHistory | rpc/src/cloudflared.rs:110-114 | each configuration reply is the answer for the history of pushes before it |
| RpcServer.AddressingSchemesAgree | rpc/src/cloudflared.rs:165-178 | both addressing schemes of a method give the same reply and effect |
| RpcServer.PushesAreServed | rpc/src/cloudflared.rs:105-115 | a push under either literal address is answered and applied |
| RpcServer.SessionsAreRefused | rpc/src/cloudflared.rs:54-64 | registering a UDP session, under either literal address, is refused with its text |
| RpcServer.UnregistrationsAreAcknowledged | rpc/src/cloudflared.rs:127-129 | unregistering one gets an empty result |
| RpcServer.OtherCallsAreUnimplemented | rpc/src/cloudflared.rs:130-137 | every other address gets the exception "unimplemented" and leaves the handler alone |
| RpcServer.MisfitsStop | rpc/src/cloudflared.rs:105-119 | exactly the calls whose parameters do not fit stop the loop |
| RpcServer.BootstrapsAreAnswered | rpc/src/cloudflared.rs:191-206 | a bootstrap gets the sender-hosted capability 0; other messages get nothing |
| RpcLockstep.ClientMoveKeeps | rpc/src/rpc.rs:52-156 | a client step, its write going through or failing behind a stopped server, keeps one question in flight and the outcome the system is bound for |
| RpcLockstep.ServerMoveKeeps | rpc/src/cloudflared.rs:81-148 | so does a server step, the stop at an unreadable call included |
| RpcLockstep.NeverStuck | rpc/src/rpc.rs:52-137 | a state with the invariant that has not finished can move |
| RpcLockstep.RunKeeps | rpc/src/rpc.rs:52-156 | every run keeps the invariant and the outcome, and each move makes the system smaller |
| RpcLockstep.EveryScheduleAgrees | rpc/src/rpc.rs:52-156 | for all tasks and under every schedule: at most 10 moves per task and 4 more, never a deadlock, and in the end the results and the handler state of direct calls |
| RpcLockstep.NeverCrossed | rpc/src/rpc.rs:202-226 | for all tasks the answer-id-mismatch and expected-return errors never occur |
| RpcLockstep.CallGetsItsOwnAnswer | rpc/src/cloudflared.rs:96-140 | each task gets the result of its own question: refused before the bootstrap, then what its method computes from its own parameters and the pushes before it, and from the first unreadable call on the failure of the stream, for all tasks |
| RpcLockstep.Finishes | rpc/src/rpc.rs:52-156 | from every state with the invariant some schedule leads to the end |
| RpcLockstep.UnreadableCallBreaksSession | rpc/src/cloudflared.rs:105-109 | in every finished run of a session with an unreadable call, that call and the one behind it fail with the stream |
| RpcLockstep.BrokenSessionRuns | rpc/src/cloudflared.rs:105-109 | there is such a run |
| RpcLockstep.LocalIsOperation | rpc/src/rpc.rs:52-105 | a task that is not asked is the client's own operation, without any event |
| RpcLockstep.AskedIsOperation | rpc/src/rpc.rs:52-226 | the steps of an asked task are the client's own operation, event by event, for every message or end of stream it reads and every write that fails |
| Control.RegisterOnStream | src/edge/control.rs:106-145 | events, result and client of a registration, for any edge |
| Control.UnregisterConnection | src/edge/control.rs:149-170 | events of an unregistration that is not cut short |
| Control.RegisterIsSafe | src/edge/control.rs:106-145 | every registration obeys the RPC protocol; a successful one leaves a bootstrapped client |
| Control.LifeIsSafe | src/edge/control.rs:106-170 | so does every whole life |
| Control.CutLifeIsSafe | src/edge/control.rs:153-169 | so does a life cut by a timeout at any point |
| Control.LifeFollowsVerdict | src/edge/control.rs:112-161 | registerConnection at most once and first; updateLocalConfiguration exactly for an accepted tunnel that is not remotely managed; one release, last, exactly when the edge gave a verdict |
| Control.RegistrationReports | src/edge/control.rs:112-144 | the result of a registration is the edge's verdict, "EDUPCONN" told apart, or the failure of its first failing step |
| Control.BadIdentifierReports | src/edge/control.rs:115-117 | a malformed tunnel identifier is found behind the bootstrap, and nothing more is written |
| Control.LifeCallsProperly | rpc/src/tunnel.rs:102-220 | every call of a life goes to import 0 and the literal registration interface, with the parameters of its method |
| Pump.SidesAreIndependent | src/origin/pump.rs:27-69 | each direction of any run is the run of its own turns alone |
| Pump.ErrorsDoNotCross | src/origin/pump.rs:38-48 | an error in one direction never changes what the other does |
| Pump.PumpIsSafe | src/origin/pump.rs:23-70 | in every reachable state each side has delivered a prefix of its source and closed its destination at most once, only after delivering all of it |
| Pump.PumpTerminates | src/origin/pump.rs:27-70 | a run has at most one turn per byte still to be read and one more per open side |
| Pump.PumpNeverStuck | src/origin/pump.rs:28-31 | an unfinished pump always has an error-free turn |
| Pump.SchedulesAgree | src/origin/pump.rs:27-70 | all error-free schedules end with both sources delivered and both destinations closed once |
| Pump.Endpoint.Read | src/origin/pump.rs:32 | a read of at most 8192 bytes, empty exactly at the end |
| Pump.Endpoint.WriteAll | src/origin/pump.rs:39 | all bytes, or a prefix and an error |
| Pump.TakeTurn | src/origin/pump.rs:32-49 | one arm of the select is a possible turn of its direction |
| Pump.SelectTurn | src/origin/pump.rs:31-68 | the select always has an enabled arm and takes one step of the state machine |
| Pump.PumpLoop | src/origin/pump.rs:27-70 | the loop follows a schedule of the state machine to its end |
| Pump.RunPump | src/origin/pump.rs:15-71 | each direction delivers its whole source and closes its destination once unless its own reads or writes reported an error, whatever the other direction does; then it delivers a prefix and closes nothing |
| Serve.ServeStream | src/edge/serve.rs:77-114 | handler chosen by connection type, or reason for none, and the bytes left for it |
| Serve.OriginGetsExactBody | src/edge/serve.rs:82-113 | the HTTP, websocket or TCP handler gets request and body if and only if the request decodes to that type and the stream is its preamble followed by that body |
| Serve.UndecodableReachesNoOrigin | src/edge/serve.rs:102 | the stream is refused for its request if and only if it is the preamble of a request that does not decode |
| Serve.RpcGetsWholeStream | src/edge/serve.rs:82-86 | an RPC stream is handed over right behind its signature |
| Serve.WriteResponsePreamble | src/edge/serve.rs:238-246 | signature, version and framed response, or a prefix of them on failure |
| FrameOctets.RequestOctets | src/edge/serve.rs:82-113 | a literal data stream reaches the handler of its type, with the bytes behind its request |
| FrameOctets.RefusedOctets | src/edge/serve.rs:87-102 | another version, another signature and a bad frame are refused as such |
| FrameOctets.EarlyEnds | src/edge/serve.rs:82-94 | a stream that ends in its signature or version |
| FrameOctets.PreambleOctets | rpc/src/quic.rs:13-19 | the preamble in octets |
| Serve.DrainUnread | src/edge/serve.rs:290-328 | reads, bytes and stop decision of the drain loop |
| Serve.DrainIsBounded | src/edge/serve.rs:290-328 | at most 4097 reads and 270335 bytes for every peer; the read side is stopped exactly when the stream did not end within the bounds, and the last read is the first without data or beyond a bound |
| Serve.DrainBoundsAttained | src/edge/serve.rs:297-322 | both bounds are attained |
| ActiveStreams.RunKeepsInv | src/edge/serve.rs:35-74 | every run keeps the accepted set the disjoint union of the control stream, the streams of running tasks and those of panicked ones |
| ActiveStreams.ControlStreamStays | src/edge/quic/quiche/mod.rs:83-164 | no run accepts or releases the control stream, which the set holds from the start |
| ActiveStreams.ActiveSetIsPartitioned | src/edge/quic/quiche/mod.rs:83-164 | what the accepted set holds, from the connection's initial set on |
| ActiveStreams.LeaksNeedPanics | src/edge/serve.rs:57-61 | streams leak exactly in runs with a panic |
| ActiveStreams.ActiveSetIsBounded | src/edge/serve.rs:26-75 | each task, by task number, releases its stream at most once and exactly when it ends; apart from the control stream the active streams are those of tasks in the join set if and only if no task panicked, and then at most one more than there are tasks |
| ActiveStreams.PanicLeaksStream | src/edge/serve.rs:57-61 | after a panic the accepted set holds a stream that no task serves |
| ActiveStreams.StreamsServedOnceExactly | src/edge/quic/quiche/mod.rs:137-164 | no stream id is served twice if and only if none is accepted that an ended task has released, and then none is released twice |
| ActiveStreams.StreamMayBeServedTwice | src/edge/quic/quiche/mod.rs:143-164 | a run without panic that serves and releases one stream id twice |

## Left out

- DnsName.DecodeName: requires the walk to halt, because the code loops for ever otherwise; `DnsNameTheorems.HaltsExactly` gives the exact condition.
- SrvResponse.ParseSrvResponse: requires a run that returns, for the same reason; `SrvTheorems.DivergesExactly` gives the exact condition.
- DnsName.Walk: strings are held as octets, so the replacement of invalid UTF-8 in labels is not modelled.
- Names longer than 255 octets and the question count of a response: the code checks neither, and the model does not either.
- Sockets, the resolver list, resolv.conf, UDP, clocks and randomness: I/O; a timeout is a cut of a trace or a read that yields nothing.
- Cap'n Proto struct layout and payload accessors: payloads are opaque values that decode or do not.
- RPC messages are not connected to their bytes: `FramingTheorems.FramesRoundTrip` and the message-level modules are separate layers.
- RpcServer.ServeCloudflared: the incoming stream is a given finite list of messages followed by what reading reports at its end.
- RpcLockstep.EveryScheduleAgrees: whether a stopped server shows on the next write or on the next read is a matter of timing, so the two errors of a broken stream are not told apart behind an unreadable call.
- RpcLockstep.ServerMove: a server loop that stops drops its stream; that the transport then shows the client the end of the stream, or a failing write, is an assumption of the model.
- RpcClient.Connection.SendCall: question ids wrap as in a build without overflow checks; a checked build would panic after 2^32 questions.
- unregisterUdpSession: the code answers it without calling the handler, and so does the model; session ids are not copied into a buffer.
- JSON decoding is an arbitrary function from bytes to rules or an error text.
- Configuration versions are not compared by the code, so nothing about their order is stated.
- Pump.PumpLoop: writes are atomic turns, so deadlock of the two arms under bounded buffers is not excluded; the code does not promise it.
- ActiveStreams.Step: the join set and the accepted set are modelled on values, as a state machine over the steps of concurrent tasks; tasks aborted when the loop returns are not modelled, and the other QUIC backend has no such set.
- Request and response metadata, `write_stream_error`, the handlers behind the dispatch, bodies and responders, the HTTP/2 and QUIC backends, the connector, `Event` and the websocket handshake: thin calls into other libraries, plain data conversion or code without a protocol of its own.
- Log messages and the wording of most errors.
