# netfory-provider: a verified model

The provider accepts `api://` streams over QUIC, limits every peer with a token bucket, and then
executes a request locally, relays it to another node, or turns the stream into a WebSocket tunnel.
This project models those five parts in Dafny and proves what they promise.

| file | component |
|---|---|
| `RateLimit.dfy` | the token bucket of `src/ratelimit.rs`, and the window policy it decides |
| `Protocol.dfy`, `Utf8.dfy`, `Endian.dfy` | the wire format of `src/protocol.rs` |
| `Tunnel.dfy` | the WebSocket tunnel of `src/p2p_server.rs` as a state machine over all interleavings |
| `Relay.dfy` | dispatch at one node and the relay over a network of nodes |
| `Admission.dfy`, `Stats.dfy` | permits, counters and one peer's share over all interleavings of streams |
| `Proxy.dfy` | name table, default endpoint and signed answers of `src/proxy_engine.rs` |
| `Peers.dfy` | signed manifests, peer store and gossip listener of `src/peers.rs` and `src/p2p_server.rs` |
| `FullSearch.dfy` | a relay search that costs everything the TTL allows, with limiters that remember it |
| `ManyTunnels.dfy` | any number of tunnels at once, with one limiter |
| `Session.dfy` | stream, admission, tunnel and limiter together |
| `ByteStrings.dfy` | facts about byte strings that several components share |

The parts are used together. Each answer of the shared limiter object equals a policy over the whole
call history; the tunnel, the relay and the admission machine consult that policy, so their budgets
follow from the limiter's theorems. The tunnel's streams are read and written with the functions of the
wire format, so its results are about what a client sends and reads. An answer that crossed any number
of relays is checked with the client's own procedure for `pdata`. `Session.dfy` joins the handshake that a
client writes to the packet the node dispatches and to the tunnel that reads on behind it.

How the model is built:

* Code that changes state in place is a class or a method proved against a function: the limiter, the
  reader and writer of a stream, frame encoding and decoding, the peer store, the gossip listener, the
  counters, the handler of one stream and its relay loop.
* The tunnel and the accept loops are labelled transition systems. A label is one atomic step of one
  task on what it shares with others; every result is about all finite sequences of enabled labels.
* The network is a function of a `World`: what a node is like when it is reached by a path of attempts,
  and what the transport does to each attempt. Peer stores, limiters and upstreams may therefore change
  while a packet travels, and any topology is covered. `HandleIsEveryNodesCode` and `Handler.HandleStream`
  tie it to the code of a node. Where a result says that something does happen, the limiters of its world
  remember every call (`Remembered`).
* Strings are their UTF-8 bytes. Times and tokens are exact reals. Clock reads, HTTP results and
  transport outcomes are parameters, and nothing is assumed about clock reads unless a lemma says so.
* JSON text, base64 and signatures are functions with the laws in `Lawful`: printing and parsing, encoding
  and decoding are inverse, and a signature belongs to one signer and one message. JSON numbers are integers.
* A write that failed on a QUIC stream is taken to be final: nothing later reaches that stream.

Where the code and its comments disagree the code is modelled: `read_from` reports a clean end for one
to four stray bytes (`CleanEndOnlyAtBoundaryIff`). The limiter reads its clock before it takes the lock, so
reads can reach the bucket out of order: the documented limit is guaranteed for all histories exactly when
they cannot (`LimitGuaranteedIff`), and any two reads that can be swapped are enough to exceed it
(`TwoReadsBreakTheLimit`). Two more limits of the code are stated exactly: nothing checks the 8 MiB limit
before a frame is written (`FramesReadBackIff`, `WholeFramesAreReadIff`), and the joined endpoint names of a
manifest determine the list only when it is not empty and no name has a comma (`NamesReadBack`,
`CanonicalReadsBack`).

## Model

| member | source | states |
|---|---|---|
| RateLimit.RateLimiter.constructor | src/ratelimit.rs:23-25 | a new limiter has no bucket |
| RateLimit.RateLimiter.Allow | src/ratelimit.rs:29-49 | the in-place update answers exactly as the all-windows policy of the caller's own key over the whole interleaved history, changes no other bucket, and does nothing at rate 0 |
| RateLimit.Refilled | src/ratelimit.rs:38-40 | the refill is elapsed time times the caller's rate, capped at that rate |
| RateLimit.AnswersFollowPolicy | src/ratelimit.rs:29-49 | over any interleaving of keys, rates and clock reads every answer of a fresh limiter is the policy's: admitted iff the call fits every window that ends with it |
| RateLimit.LevelIsTightestWindow | src/ratelimit.rs:38-48 | the token level is the minimum of allowance minus admissions over all windows, so one comparison decides them all |
| RateLimit.LevelBounds | src/ratelimit.rs:40-44 | tokens are never negative and never above the rate of the key's last limited call |
| RateLimit.WindowBound | src/ratelimit.rs:38-48 | no window admits more than its first capacity plus what it earned, whatever the rates and clocks |
| RateLimit.AdmissionsBound | src/ratelimit.rs:38-48 | a window with any mix of rates up to R admits at most R, R times its duration, and R times what its clock reads went backwards; calls outside the window do not matter |
| RateLimit.BudgetIsAllowanceIff | src/ratelimit.rs:38-48 | with one rate in the window, its budget is capacity plus rate times duration iff the window's clock reads are in order |
| RateLimit.RateHonoured | src/ratelimit.rs:1-5 | with clock reads in order and rates up to R in a window, it admits at most R plus what its duration earns at R |
| RateLimit.LimitGuaranteedIff | src/ratelimit.rs:34-41 | at every rate, all histories of a clock keep the documented limit in all windows iff no read can reach the lock after a later one |
| RateLimit.TwoReadsBreakTheLimit | src/ratelimit.rs:34-41 | for any rate and any two reads, however close, some history that swaps them admits one call too many between two equal reads |
| RateLimit.AllowanceIsRateTimesTime | src/ratelimit.rs:39-40 | that allowance is rate plus rate times duration |
| RateLimit.OutOfOrderClocksExceedTheRate | src/ratelimit.rs:34-41 | a concrete history of four calls that exceeds it |
| RateLimit.WaitingIsEnough | src/ratelimit.rs:38-48 | a call at rate r at least 1/r seconds after the key's previous one is admitted, whatever came before |
| RateLimit.BurstAdmitsTheRate | src/ratelimit.rs:33-48 | of calls at one moment from a key that made none before, exactly the first `rate` are admitted |
| RateLimit.KeysDoNotInterfere | src/ratelimit.rs:35-36 | a key's answers and bucket are those of a limiter that only saw that key |
| RateLimit.TunnelKeysAreDistinct | src/p2p_server.rs:623 | tunnel keys are injective for colon-free peer ids and never equal a request key |
| RateLimit.TunnelKeyText | src/p2p_server.rs:623 | the key is the peer, `:ws:`, the target |
| RateLimit.MessagesSpendNoRequests | src/p2p_server.rs:623-631 | tunnel messages leave every decision about requests as it was |
| Utf8.LossyIsIdentityOnValid | src/protocol.rs:254 | the repaired reason is always well-formed and equals the bytes exactly when they were well-formed |
| Utf8.ValidIff | src/protocol.rs:247 | text is accepted iff it is the encoding of code points by the table of section 3 of RFC 3629 |
| Utf8.OneReplacementPerPiece | src/protocol.rs:254 | where there is no character, one U+FFFD stands for the longest piece that begins one, or for one byte |
| Utf8.LossyKeepsFront | src/protocol.rs:254 | well-formed text in front is copied |
| Endian.LeReadsBack | src/protocol.rs:238 | a little-endian length reads back modulo its width |
| Endian.LeWritesBack | src/protocol.rs:218 | every byte string of the width is the encoding of its value |
| Endian.BeReadsBack | src/protocol.rs:253 | the same for big-endian codes and times |
| Endian.BeWritesBack | src/protocol.rs:211 | the same for big-endian bytes, and the value is in range |
| Endian.ToLe | src/protocol.rs:218 | the loop writes the little-endian bytes |
| Endian.FromLe | src/protocol.rs:238 | the loop reads them |
| Endian.ToBe | src/protocol.rs:211 | the loop writes the big-endian bytes |
| Endian.FromBe | src/protocol.rs:253 | the loop reads them |
| Protocol.EncodeFrame | src/protocol.rs:203-221 | the growing buffer ends as kind, low 32 bits of the length, payload |
| Protocol.WireLayout | src/protocol.rs:181-221 | the kind bytes and the field order, byte by byte |
| Protocol.ByteOrder | src/protocol.rs:218 | the length is little-endian |
| Protocol.WriterRules | src/protocol.rs:203-221 | every frame, byte by byte: kind, four length bytes, the two code bytes of a Close, payload |
| Protocol.ReaderRules | src/protocol.rs:225-263 | every header and what follows it, byte by byte: above 8 MiB refused, cut off, or read by its kind, with the strict Text check, the code and repaired reason of a Close, and 1005 for a short one |
| Protocol.ShortHeaderRules | src/protocol.rs:228-236 | fewer than five bytes are a clean end on a finished stream and an error on a lost one |
| Protocol.BareCloseReadsAs1005 | src/protocol.rs:256-258 | a Close with no code or half of one is read as 1005 with no reason, and the reader stands behind it |
| Protocol.ParsePayload | src/protocol.rs:246-262 | the kinds, the strict Text check, the repaired reason, code 1005 for a short Close, the unknown kind |
| Protocol.ReadFrom | src/protocol.rs:225-263 | the reading code returns the next frame and stands right behind it, or reports the end or the error that `Decode` gives |
| Protocol.Reader.ReadExact | src/protocol.rs:231-245 | `read_exact` fills the buffer and advances, or uses the stream up and says why |
| Protocol.RoundTrip | src/protocol.rs:203-263 | a frame in front of any bytes reads back exactly iff its payload is at most 8 MiB |
| Protocol.OversizeIsRefused | src/protocol.rs:239-243 | a larger one below 4 GiB is refused at its header |
| Protocol.AcceptedBytesAreCanonical | src/protocol.rs:246-262 | accepted bytes are the encoding of the accepted frame iff it is not a Close with a missing code or a broken reason |
| Protocol.EndedIff | src/protocol.rs:228-236 | `Ok(None)` iff fewer than five bytes are left and the writer finished |
| Protocol.CleanEndOnlyAtBoundaryIff | src/protocol.rs:224-236 | the documented meaning of `Ok(None)` holds iff the rest is not one to four stray bytes |
| Protocol.StrayByteLooksLikeCleanEnd | src/protocol.rs:231-234 | a concrete stream on which it does not hold |
| Protocol.ReadsThrough | src/protocol.rs:225-263 | fitting frames in front of a stream are read first and unchanged, and reading goes on as if the rest were alone |
| Protocol.Truncation | src/protocol.rs:225-263 | every prefix of an encoded stream yields exactly its whole frames, and a clean end iff the writer finished with fewer than five bytes left over |
| Protocol.FramesReadBackIff | src/protocol.rs:203-263 | frames in front of any bytes all read back iff each fits, wrapped 32-bit lengths included |
| Protocol.EncodeAllInjective | src/protocol.rs:203-221 | equal bytes come from equal frame sequences |
| Protocol.OversizeStopsReading | src/protocol.rs:239-243 | an oversize frame hides everything behind it |
| Protocol.HandshakeRoundTrip | src/protocol.rs:21-46 | the reader returns the JSON and leaves the rest, except that it refuses the empty JSON the writer accepts |
| Protocol.StreamDemarcation | src/protocol.rs:21-46 | handshake followed by any fitting frames reads back as exactly that JSON and those frames, then a clean end |
| Protocol.HandshakeTruncation | src/protocol.rs:21-33 | a stream cut inside the handshake is an error, and one cut behind it gives the JSON and what was left |
| Protocol.HandshakeRules | src/protocol.rs:21-46 | both sides byte by byte: lengths 0 and above 8 MiB are refused, a cut is an error, the rest is left |
| Protocol.Reader.ReadToEnd | src/p2p_server.rs:451-455 | a version 0 stream is taken whole when it finishes within 8 MiB, and refused otherwise |
| Protocol.ReadHandshakeV1 | src/protocol.rs:21-33 | the reading code returns what `ReadHandshake` gives and leaves the reader behind the JSON |
| Protocol.WriteHandshakeV1 | src/protocol.rs:36-46 | the writing code appends length and JSON, or refuses and writes nothing |
| Protocol.ResponseCanonicalBytes | src/protocol.rs:123-133 | the buffer ends as the canonical bytes |
| Protocol.ResponseCanonicalInjective | src/protocol.rs:119-133 | they determine id, status, time and body for bar-free ids |
| Protocol.ResponseLayout | src/protocol.rs:123-133 | id, two bytes of status, eight of time, body, in this order with bars between |
| Tunnel.TranslationsUndo | src/p2p_server.rs:629-710 | frame to message and back is the identity iff no reserved Close code is involved |
| Tunnel.OpcodesKept | src/p2p_server.rs:629-710 | both ways a message keeps its kind byte and its payload, but for a reserved or missing Close code, and the limiter is asked about kinds 1 and 2 only |
| Tunnel.UpImageAppend | src/p2p_server.rs:629-671 | each frame taken adds its translation to the image unless it is a data frame that was refused |
| Tunnel.RunKeepsInv | src/p2p_server.rs:613-731 | every step of every task keeps conservation, capacity, stream positions, wire contents and budget |
| Tunnel.UpstreamGetsAPrefix | src/p2p_server.rs:625-730 | at every reachable state upstream has a prefix of the image of the frames taken, these are a prefix of the client's up to its Close, a data frame is missing from the image iff the limiter's policy refused its own call, the channel holds at most 128, and the image is what was delivered, held, queued, given up and blocked, in order, where a live pump leaves at most one message given up |
| Tunnel.NothingIsMissingIff | src/p2p_server.rs:627-730 | over every run, while the pump lives, delivered, held, queued and blocked messages are all of the image iff no send timed out, and then a reader that has ended has taken all the client sent up to its Close |
| Tunnel.ReaderWaitsIff | src/p2p_server.rs:625-648 | while the pump lives a reader with a message waits iff 128 messages are queued |
| Tunnel.NoLimitDropsNothing | src/p2p_server.rs:629-652 | at rate 0 every frame taken is in the image |
| Tunnel.SpacedFramesAllPass | src/p2p_server.rs:629-652 | so it is when the session's limiter calls come at least 1/rate apart |
| Tunnel.UplinkEndToEnd | src/p2p_server.rs:627-676 | for an encoded client stream cut anywhere, upstream gets a prefix of the image of its first frames, from which only refused frames are missing, and what it still lacks is accounted for while the pump lives |
| Tunnel.ControlFramesSurvive | src/p2p_server.rs:630-655 | the limiter drops only Text and Binary |
| Tunnel.NoReservedCloseUpstream | src/p2p_server.rs:656-670 | no Close that reaches upstream carries 1005, 1006 or 1015, for every client byte stream; other codes and all reasons are unchanged |
| Tunnel.BareCloseArrivesAs1000 | src/p2p_server.rs:656-670 | a Close without a code, wherever it stands in the client's stream, can reach upstream only as code 1000 with no reason |
| Tunnel.NothingAfterClose | src/p2p_server.rs:656-671 | nothing is delivered, held or queued behind a Close |
| Tunnel.WireIsPrefix | src/p2p_server.rs:613-719 | the client's stream carries a prefix of its encoded frames, and while the pump lives and the stream is not broken only the bytes still being written are missing |
| Tunnel.FailedWriteEndsPumpIff | src/p2p_server.rs:684-706 | a failed write to the client ends the pump iff it was not passing on a Ping or a Pong |
| Tunnel.WhatEndsTheTasks | src/p2p_server.rs:637-717 | a failed send to upstream and the end of upstream end the pump; a reader whose pump has ended goes on over Ping and Pong only; only Text and Binary time out |
| Tunnel.ClientReadsAPrefix | src/p2p_server.rs:613-719 | whatever part of its stream arrives, the client decodes a prefix of the opening frame and the upstream messages in order, then a clean end or a cut |
| Tunnel.ClientReadsAckFirst | src/p2p_server.rs:613-719 | once a session is open the client's stream decodes to the acknowledgement Text first and then a prefix of the images of the upstream messages |
| Tunnel.WholeFramesAreReadIff | src/p2p_server.rs:684-706 | the whole frames on the wire are all read back iff none is oversize |
| Tunnel.NothingAfterCloseDown | src/p2p_server.rs:700-707 | a Close is the last frame for the client and a bare one becomes code 1000 |
| Tunnel.DeliveredWithinRate | src/p2p_server.rs:621-648 | data messages delivered in a session stay within the budget of its limiter calls, and for ordered clocks and rates up to R since its first call within what R allows from there to the last |
| ManyTunnels.EachIsATunnel | src/p2p_server.rs:620-623 | among any number of interleaved sessions with one limiter, each is a tunnel for which the others are other users of the limiter |
| ManyTunnels.AllDeliveredWithinRate | src/p2p_server.rs:621-648 | all sessions of one peer to one target together, overlapping or not, deliver within the one budget of their calls |
| Tunnel.RefusedSessionOnlyCloses | src/p2p_server.rs:518-604 | a session without upstream delivers nothing and writes at most Close 1011, all of it when the write did not fail, and nothing when the upstream's URL makes no request |
| Tunnel.FirstFrameCanGetThrough | src/p2p_server.rs:627-714 | the machine is not idle: the first frame of a connected client can reach upstream |
| Tunnel.EverythingCanGetThrough | src/p2p_server.rs:627-714 | whatever a connected client sends, some run takes all of it up to its Close and delivers all of the image |
| Tunnel.EverythingCanGoDown | src/p2p_server.rs:613-719 | whatever upstream sends up to a Close, some run puts the acknowledgement and all images on the client's stream |
| Tunnel.OneEndEndsBoth | src/p2p_server.rs:724-729 | when one task has ended, the session can end the other |
| Tunnel.CloseCanBeLost | src/p2p_server.rs:724-729 | so a Close the client sent may never reach upstream: a run in which the pump is aborted with the Close queued |
| Tunnel.DayForgetsTheTasks | src/p2p_server.rs:731 | after the limit of a day no task is aborted |
| Relay.EveryVisit | src/p2p_server.rs:737-762 | on any topology no path is longer than the TTL, and a node k hops away sees the packet with only the TTL lowered by k |
| Relay.IsWsIff | src/p2p_server.rs:475 | the method is `WS` in any case |
| Relay.AdmissionRates | src/p2p_server.rs:460-465 | a packet is measured against the request limit of the endpoint its target names, and against 10 when the target is not served |
| Relay.ClassifyRules | src/p2p_server.rs:466-490 | refused iff over the limit, relayed iff admitted and not served, tunnelled iff also version 1 and `WS`, executed otherwise |
| Relay.BurstGetsTheLimit | src/p2p_server.rs:460-471 | of packets for one endpoint at one moment from a new peer exactly as many get in as its request limit says, all of them when it is 0 |
| Relay.HandleByClass | src/p2p_server.rs:466-490 | a refused packet gets a signed 429 in the node's name and time, an executed one the upstream's status and body or 502, and a relayed one without hops nothing |
| Relay.CostBound | src/p2p_server.rs:737-763 | with at most d candidates per node a packet costs at most d + ... + d^ttl attempts network-wide |
| Relay.CostWithinStores | src/p2p_server.rs:745-751 | the same with n for the number of peers that any node knows |
| Relay.CostAttained | src/p2p_server.rs:737-763 | a fruitless search costs exactly that and fails |
| FullSearch.CompleteGraphPaysInFull | src/p2p_server.rs:737-763 | with no visited set the full bound is paid: in the complete graph of d + 1 nodes that each serve another name, with one limiter per node that remembers and admits every call of the search |
| FullSearch.EmptyAnswersEndTheSearch | src/p2p_server.rs:753-756 | over a transport that shows a silent handler as an empty answer, such a search makes at most ttl attempts and its reply is empty iff there was a candidate to ask |
| FullSearch.VisitsAreDistinct | src/p2p_server.rs:737-763 | no two visits of one search have the same path |
| Relay.AnswerIsMadeOnce | src/p2p_server.rs:753-778 | a non-empty answer is byte for byte what one visited node made, whose limiter refused the packet or which served the target and ran it |
| Relay.FirstAnswerComesBack | src/p2p_server.rs:753-757 | a relay's reply is byte for byte what the first candidate's handler answered whose answer arrives within 8 MiB, after candidates that gave nothing |
| Relay.NobodyAnswers | src/p2p_server.rs:753-763 | it fails when no candidate gives anything |
| Relay.RelayedAnswerVerifies | README.md:139-148 | over any path the client's check accepts it as signed by a visited node, with 429 where that node's limiter refused it, and with the upstream's status and body where that node ran it |
| Relay.FirstReplyWins | src/p2p_server.rs:753-762 | the relay answers with the first candidate that replies and fails iff none does |
| Relay.HandleIsEveryNodesCode | src/p2p_server.rs:443-494 | the network process replies at each node as that node's own code does |
| Relay.ServedTargetsGoNoFurther | src/p2p_server.rs:461-490 | candidates that serve the target end the relay: one hop, one attempt each |
| Relay.AnnouncedTargetsGoNoFurther | src/p2p_server.rs:745-762 | when another node announced the target and announcements are current, everything happens at the candidates one hop away, each is dialled at most once, and a non-empty answer is the refusal or execution of one of them |
| Relay.AnnouncedAnswerComesBack | src/p2p_server.rs:745-757 | for an announced target the reply is the refusal or execution of the node behind the first working link |
| Relay.ForwardedPacketIsReadIff | src/p2p_server.rs:767-777 | the next node reads a forwarded packet as it was sent iff its JSON is at most 8 MiB and the stream was finished |
| Relay.Handler.Relay | src/p2p_server.rs:737-763 | the retry loop returns the first reply of the store's candidates to the packet with TTL lowered by one |
| Relay.Handler.ReadRaw | src/p2p_server.rs:450-455 | version 1 reads the prefixed JSON and stops behind it, version 0 takes the whole stream |
| Relay.Handler.HandleStream | src/p2p_server.rs:443-494 | a stream whose packet cannot be read or parsed changes nothing; otherwise the packet is handled and the reader stands where a tunnel goes on |
| Relay.Handler.HandlePacket | src/p2p_server.rs:458-494 | one parsed packet is counted once in the total and once in the class the limiter and the name table give it, with that class's reply |
| Relay.Handler.Dispatch | src/p2p_server.rs:473-490 | an admitted packet goes into a tunnel, to the local upstream or to the relay, and is counted so |
| Session.CutStreamGivesPacket | src/p2p_server.rs:450-456 | of any cut of a client's stream the node reads the packet that was sent, or none if the cut is inside the handshake, and a tunnel starts at the first frame |
| Session.TunnelOpensIff | src/p2p_server.rs:450-482 | of any cut of a client's stream the node opens a tunnel iff the handshake is whole, the method is `WS`, the target names an endpoint, and the peer is within that endpoint's request limit |
| Session.SessionLimits | src/p2p_server.rs:620-623 | the tunnel's messages are limited by that endpoint's message rate under the key of peer and target |
| Session.TunnelFromTheWire | src/p2p_server.rs:443-730 | from the bytes of handshake and frames, cut anywhere, through admission to upstream: it gets a prefix of the image of the client's first frames up to its Close, only frames the limiter refused are missing from that image, what upstream still lacks is accounted for while the pump lives, and no Close in it is reserved |
| Session.TunnelNeverCostsRequests | src/p2p_server.rs:461-466 | at every state of any tunnel's run every request is decided as if the tunnel had read nothing |
| Admission.AccountingHolds | src/p2p_server.rs:386-428 | in every interleaving of the single steps total = proxied + relayed + rejected + undispatched, permits and running bodies add up to 16 per connection, and the gauge equals the live accept loops |
| Admission.ParsedSplits | src/p2p_server.rs:458-490 | each parsed packet is undispatched or in exactly one of the four classes |
| Admission.ClassIsFinal | src/p2p_server.rs:466-490 | what was decided about a packet never changes, and it is counted in that class only |
| Admission.StreamStartsIff | src/p2p_server.rs:400-403 | a waiting stream can start iff fewer than 16 bodies of its connection run |
| Admission.StreamsBelongToTheirPeer | src/p2p_server.rs:386-410 | every stream is handled for the peer of its connection |
| Admission.NoStreamIsStuck | src/p2p_server.rs:397-411 | a task that is not done can take its next step at once, unless it waits on a connection with 16 running bodies |
| Admission.PeerWithinItsBudget | src/p2p_server.rs:460-471 | over any number of connections and streams a peer's packets admitted under a limit stay within the budget of its limiter calls, and for ordered clocks and local and relayed rates up to R within what R allows from its first call to its last |
| Admission.HandleAsSteps | src/p2p_server.rs:458-490 | the code that handles a packet changes counters and limiter as the three steps of its task do |
| Admission.OpenConnection | src/p2p_server.rs:386-391 | a new guard is the machine's arrival of a connection |
| Admission.CloseConnection | src/stats.rs:137-141 | dropping it is the end of the accept loop |
| Stats.Stats.IncTotal | src/stats.rs:73-75 | adds one to the total and nothing else |
| Stats.Stats.IncProxied | src/stats.rs:76-78 | adds one to the proxied requests |
| Stats.Stats.IncRelayed | src/stats.rs:79-81 | adds one to the relayed requests |
| Stats.Stats.IncRejected | src/stats.rs:82-84 | adds one to the rejected requests |
| Stats.Stats.SetActivePeers | src/stats.rs:85-87 | stores the gauge |
| Stats.ConnGuard.constructor | src/stats.rs:94-97 | a guard counts its connection |
| Stats.ConnGuard.Drop | src/stats.rs:137-141 | dropping it uncounts the connection |
| Proxy.New | src/proxy_engine.rs:44-64 | for any iteration order the table has the last endpoint of each name and the default is the least name |
| Proxy.AnnouncedMeansServed | src/proxy_engine.rs:67-78 | every announced name, the empty one included, resolves to an endpoint of that very name |
| Proxy.LastEndpointCounts | src/proxy_engine.rs:67-114 | a target resolves to the endpoint it names, the last of several with its name, with that endpoint's request and message limits |
| Proxy.ServedIff | src/proxy_engine.rs:67-114 | a target is served iff it names an endpoint; the message limit of others is 30 |
| Proxy.DefaultServed | src/proxy_engine.rs:67-73 | an empty target is served by the endpoint with the least name |
| Proxy.IterationOrderDoesNotMatter | src/proxy_engine.rs:50-55 | the default name, and with distinct names the whole engine, does not depend on map iteration order |
| Proxy.FinalizeBody | src/proxy_engine.rs:228-257 | the buffer and map updates produce the answer `Finalize` describes |
| Proxy.AnswerLayout | src/proxy_engine.rs:228-257 | every answer carries the nine fields of `pdata` by their names, and its signature is over node id, status, time and raw body in this order, numbers printed in decimal, bars between |
| Proxy.SignedLayout | src/proxy_engine.rs:231-233 | the signed bytes of a concrete answer |
| Proxy.FinalizeVerifies | README.md:139-145 | for every upstream body the client recovers exactly the signed status, time and body, and the signature verifies |
| Proxy.FinalizeKeepsFields | src/proxy_engine.rs:248-256 | every other field of an object body survives, an older `pdata` is replaced, anything else is wrapped |
| Proxy.FinalizeNotEmpty | src/proxy_engine.rs:248-256 | no answer is empty |
| Proxy.SignedBytesInjective | src/proxy_engine.rs:231-233 | the signed bytes determine node, status, time and body through decimal printing |
| Proxy.VerifiedClaimIsWhatWasSigned | README.md:139-148 | a claim that verifies under an honest node's signature says exactly what that node signed |
| Proxy.Execute | src/proxy_engine.rs:127-215 | a served target gives the signed upstream result, 502 when the upstream is unreachable |
| Proxy.ExecutionSaysWhatUpstreamDid | src/proxy_engine.rs:127-215 | the signed part of an executed answer carries the upstream's status and body under the endpoint's own name at the present time, or a 502 with the reason |
| Proxy.RefusalSaysLimit | src/proxy_engine.rs:218-225 | the signed part of a refusal is a 429 that says `rate_limited`, under the name asked for, at the present time |
| Proxy.RejectBody | src/proxy_engine.rs:218-225 | the refusal is a signed 429 |
| Peers.NamesReadBack | src/peers.rs:40 | a name list is recovered from its joined form iff it is not empty and comma-free |
| Peers.PiecesJoinBack | src/peers.rs:40 | every string is the joined form of its pieces |
| Peers.CanonicalReadsBack | src/peers.rs:36-50 | all signed fields are recovered from the canonical bytes iff that holds, although names and integers may contain bars |
| Peers.CanonicalLayout | src/peers.rs:36-50 | node id, joined names, uptime, latency, requests, time, in this order with bars between, integers in eight big-endian bytes |
| Peers.JoinLayout | src/peers.rs:40 | names are joined by commas |
| Peers.CanonicalInjective | src/peers.rs:36-50 | equal canonical bytes iff equal signed fields |
| Peers.CommasAndEmptyListsAreAmbiguous | src/peers.rs:40 | without the conditions two announcements share their bytes |
| Peers.CanonicalBytes | src/peers.rs:36-50 | the growing buffer ends as the canonical bytes |
| Peers.PeerStore.Upsert | src/peers.rs:66-70 | the manifest replaces its node's entry and every other node keeps its own, in key order |
| Peers.FindIsMembership | src/peers.rs:73-79 | the store holds at most one manifest per node |
| ByteStrings.LexLessIff | src/peers.rs:73-79 | keys are in dictionary order: a proper prefix first, otherwise the first difference decides |
| Peers.CandidatesExact | src/p2p_server.rs:745-751 | candidates are exactly the other holders of the target if there are any, else exactly the other known nodes |
| Peers.CandidatesInKeyOrder | src/peers.rs:82-97 | they come in key order and none twice |
| Peers.ListenAnnounces | src/p2p_server.rs:867-886 | after any run the store holds for each node the last genuine manifest heard, or the old entry, every new one verifies under its node's id, and the gauge follows |
| Peers.HeardUntilError | src/p2p_server.rs:869-884 | what is heard is what comes before the first error of the gossip stream |
| Peers.LastAcceptedIsLast | src/p2p_server.rs:872-878 | that manifest is an accepted one with no later accepted one, changed only in its time stamp |

## Left out

- Tunnel.EverythingCanGetThrough: says that delivery is possible, not that it happens, because the code aborts the pump with frames still queued.
- Relay.CostBound: counts attempts, not time; the five-second and QUIC timeouts are not modelled.
- FullSearch.CompleteGraphPaysInFull: its transport reports a handler that wrote nothing as an error (`EmptyAnswersEndTheSearch` is about the other case) and keeps waiting connections up; what iroh does there is not part of this model.
- Peers.ListenAnnounces: does not model a failing database write, which the code ignores.
- f64 rounding in the bucket, mutex poisoning, memory limits and the wrap-around of 64-bit counters.
- The building of the local HTTP request (URL, method, header filtering) and of the WebSocket handshake request; HTTP results are arbitrary.
- The texts of the opening frames of a tunnel; any text stands for them.
- `ws_url_for`, `protocols_for`, `names`, `health`, `snapshot`, `avg_latency_ms`: single lookups and displays.
- JSON, base64 and YAML syntax, Ed25519, BIP-39, hex and node-id parsing: used through their laws or as outcomes.
- Endpoint construction, sockets, DHT bootstrap, gossip transport, dashboard, configuration parsing and logging.
- Enforcement of the 24-hour limit: the timeout only forgets the tasks (`DayForgetsTheTasks`), so nothing is enforced.
- Freshness of manifests and completeness of the relay (finding a route when there is one): the code ensures neither.
- Delivery of frames still queued when a session ends: the code does not ensure it (`CloseCanBeLost`).
