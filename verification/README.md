# Meshly-core: a verified model of its protocols

Meshly-core is a relay-assisted tunnel. Clients publish services (a TCP port or a
directory served over HTTP) and consume services of other clients; a central server
keeps a registry of who provides what, and relays byte streams for pairs that cannot
reach each other directly, optionally at a limited rate. Consumer and provider
authenticate each other with an HMAC over the service name and a nonce.

This project models the parts of that system where a bug would be silent, and proves
what they promise:

- **Frames** (`Bytes`, `Frames`, `DataOpens`): the length-prefixed codec of every
  control and data message, round trips over streams of frames, and the exact sets of
  payloads that decode and that index out of range.
- **Handshake** (`Authentication`, `Handshake`, `RelayedHandshake`, `RelayPipe`): the
  consumer, relay and provider programs, and a backend that may speak first, as a step
  system over byte channels. The relayed system refines the direct one, cannot deadlock
  exactly under a stated condition on the rate, and moves bytes transparently; a bridge
  is opened only by a proof computed for this service and this nonce.
- **Rate limiting** (`RateLimit`, `Throughput`, `ThrottledCopy`): the token bucket under
  changing rates, its bandwidth bound and how long it takes at most, and the exact
  condition under which a copy finishes.
- **Registry** (`Registry`, `ServerObjects`, `ControlSessions`): the server's maps refine
  an event log; session lifecycle over every interleaving; what a sweep keeps.
- **Relay admission and rates** (`RelayAdmission`, `RelayRates`).
- **HTTP** (`HttpReader`, `HttpText`, `HttpRequest`, `HttpResponse`, `HttpSession`): the
  bounded readers against whole-stream references, requests read back as sent, the
  keep-alive loop on pipelined requests, what is answered, and responses that a client
  can split again.
- **Client** (`ServiceNames`, `Config`, `Dial`): names and ALPNs, validation loops against
  a declarative condition, the dial loop's backoff and its provider cache.

Code that changes things in place is a class or a looping method proved against a
function of values; the laws are lemmas about that function. Concurrency is a step
system: a run is a sequence of enabled steps, and a theorem about a run is a theorem
about every interleaving. `f64` quantities are reals. `acquire` need not return, so its
executions are driven by finite lists of clock and rate observations; a statement for
every list covers every finite prefix of every execution.

`dafny verify dfyconfig.toml` checks the whole project.

## What the code does not do

Some natural claims are false of the code. Each is kept as the code has it, with an
input that shows it and the exact condition under which the claim holds.

- `acquire(n)` never returns at a positive rate below `n`, nor while the rate is set to
  0 under it unless its tokens are already in hand (`SettledRateIsExact`), so a
  throttled copy can stall for good at any positive rate below its 16 KiB buffer
  (`FinishesExactly`). A relayed handshake can hang at a positive rate below 35 bytes
  per second, and, if the provider accepts, below an `AuthOk` together with what the
  backend says unasked, up to one 16 KiB read (`DeadlockFreeExactly`): an ssh server's
  banner is enough.
- `decode` of a `DataOpen` checks the length for an empty provider and consumer only,
  and then slices by the provider's own length (`PanicsExactlyOnOverrun`). In the relay
  the panic ends the loop over the connection's streams (`StreamIsDecidedExactly`).
- A control session that ends on a failed write, or on such a panic, skips its clean-up.
  What it leaves behind is harmless exactly when another connection of the client will
  still remove it; a connection that is itself closing does not (`UncleanExitExactly`,
  `OpenConnectionIsNotEnough`, `FailedGreetingLeaks`).
- `drop_session` collects names and then removes them; a removal takes away another
  client's registration exactly when that client took the name over in between
  (`SplitDropTakesForeignExactly`, `SplitDropLosesRegistration`).
- A sweep visits only groups that have a service, and misses stale sessions exactly in
  the others (`SweepMissesExactly`, `ServicelessGroupIsNeverSwept`).
- The documentation says that a token identifies its group, but two groups may have the
  same one (`SharedTokenIsAccepted`), and then iteration order decides
  (`TokenOpensOneGroupExactly`).
- A relay request is refused or admitted depending on map iteration order when groups
  disagree on a service's provider (`AdmittedExactlyOnAgreement`).
- The header reader looks for the terminator inside one chunk at a time
  (`ChunkedReaderExactly`, `StraddlingTerminatorIsMissed`).
- A request without header fields is not read by itself, because its empty line is no
  terminator for the reader (`ReadBackExactly`). At the end of the stream it fails
  (`HeaderlessFails`); otherwise it is answered, and the message behind it is swallowed
  (`HeaderlessSwallowsNext`). A pipeline is answered in order exactly when no such
  request gets in the way (`ServedInOrderExactly`).
- Keep-alive follows section 9.3 of RFC 9112 except for HTTP/1.0 requests with both
  `close` and `keep-alive`, which are kept open, and for versions above HTTP/1.1, which
  are closed (`KeepAliveMeetsRfcExactly`, `KeptOpenAgainstClose`, `LaterVersionIsClosed`).
- Of several `Content-Length` fields the last one counts, where section 6.3 of RFC 9112
  has differing values refused (`BodiesAreRefusedExactly`, `LastLengthCounts`).
- An error answered to HEAD announces length 0 where GET announces the length of the
  error text (`HeadMatchesGetExactly`).
- With several dialing tasks a task that has invalidated the provider id dials again
  without subscribing, exactly when another task has stored an id meanwhile
  (`RetrySkipsSubscribeExactly`); that id can be the stale one (`StaleIdCanComeBack`).
- The doubling of the backoff overflows 64 bits for settings of 2^63 milliseconds or
  more (`OverflowExactly`).

## Model

| member | source | states |
|---|---|---|
| `Bytes.U16LEIsArithmetic` | crates/common/src/protocol.rs:259-284 | a length is written as its remainder by 256, then its quotient |
| `Bytes.FromU16LEIsArithmetic` | crates/common/src/protocol.rs:331-372 | two bytes are read as the first plus 256 times the second |
| `Bytes.LengthBytes` | crates/common/src/protocol.rs:331-372 | reading two bytes as a length and writing it again gives the same two bytes |
| `Bytes.LengthReadsBack` | crates/common/src/protocol.rs:394-436 | the two bytes written for any length that fits 16 bits read back as that length |
| `Bytes.ValidExactly` | crates/common/src/protocol.rs:301-391 | the UTF-8 test accepts exactly the concatenations of shortest encodings of Unicode scalar values, by the table in section 3 of RFC 3629 |
| `Frames.EncodeIntoBuffer` | crates/common/src/protocol.rs:248-298 | appending field by field to a buffer gives the specified payload or the specified error, for every frame |
| `Frames.ByteStream.WriteFrame` | crates/common/src/protocol.rs:394-408 | on success exactly the frame's bytes are appended, on an error nothing is |
| `Frames.ByteStream.ReadExact` | crates/common/src/protocol.rs:411-436 | n bytes are taken off the front, or everything is consumed and a short read reported |
| `Frames.ByteStream.ReadFrameFrom` | crates/common/src/protocol.rs:411-436 | result and remaining bytes are those of the whole-stream reading of one frame |
| `Frames.PayloadRoundTrip` | crates/common/src/protocol.rs:301-391 | every frame that encodes decodes from its tag and payload to itself |
| `Frames.DataOpenEncodes` | crates/common/src/protocol.rs:259-284 | a `DataOpen` that encodes has the documented layout: three length-prefixed strings, then the 32-byte proof |
| `Frames.DataOpenDecodes` | crates/common/src/protocol.rs:331-372 | any bytes in that layout, whatever trails them, decode to exactly the fields laid out |
| `Frames.FrameRoundTrip` | crates/common/src/protocol.rs:394-436 | reading one written frame followed by any bytes yields the frame and leaves exactly those bytes |
| `Frames.StreamRoundTrip` | crates/common/src/protocol.rs:394-436 | any list of frames written in sequence and followed by any bytes reads back as the same list, consuming exactly its bytes |
| `Frames.StreamsAreUnambiguous` | crates/common/src/protocol.rs:394-436 | equally long frame lists with the same bytes, whatever follows, are the same list |
| `Frames.StrictPrefixIsShort` | crates/common/src/protocol.rs:411-436 | every strict prefix of a frame gives a short-read error, never a frame |
| `Frames.WireFormat` | crates/common/src/protocol.rs:394-408 | a frame can be written if and only if its payload encodes and has at most 32768 bytes, and then it is its tag number, the length's low and high byte, and the payload |
| `Frames.TagRanges` | crates/common/src/protocol.rs:36-64 | tags lie in the documented ranges, 0x01 to 0x0F for the data plane and 0x10 to 0x1F for the control plane |
| `Frames.EncodableExactly` | crates/common/src/protocol.rs:248-298 | a frame encodes if and only if no `DataOpen` field and no control text exceeds 65535 bytes |
| `Frames.UnknownTagExactly` | crates/common/src/protocol.rs:301-391 | a payload is refused for its tag if and only if the tag is none of the fourteen |
| `Frames.DecodesExactlyEncodings` | crates/common/src/protocol.rs:301-391 | a payload of fixed layout decodes to a frame if and only if the frame encodes to it, but for the ignored payloads of `AuthOk` and `Heartbeat` |
| `Frames.LongFrameIsRefused` | crates/common/src/protocol.rs:411-436 | a header that announces more than 32768 bytes is refused, and only the header is consumed |
| `DataOpens.DecodesExactlyLayouts` | crates/common/src/protocol.rs:331-372 | a `DataOpen` payload decodes if and only if it is three length-prefixed UTF-8 fields, a 32-byte proof and any tail, and then to those fields |
| `DataOpens.ReencodingIsAPrefix` | crates/common/src/protocol.rs:259-284 | re-encoding a decoded `DataOpen` gives a prefix of the payload |
| `DataOpens.OverrunsExactly` | crates/common/src/protocol.rs:345-360 | the payloads on which slicing goes out of range are exactly those whose provider length runs past the end |
| `DataOpens.PanicsExactlyOnOverrun` | crates/common/src/protocol.rs:301-391 | over all tags and payloads, `decode` panics if and only if the tag is `DataOpen` and the payload overruns |
| `DataOpens.OverrunReachableFromTheWire` | crates/common/src/protocol.rs:411-436 | a 38-byte payload within the frame limit reaches the panic through `read_from`, whatever follows it |
| `Authentication.MessageIsUnambiguous` | crates/common/src/protocol.rs:449-459 | service name followed by a 32-byte nonce determines both |
| `Authentication.StepKeepsInvariant` | crates/client/src/expose.rs:62-124 | every step of any number of sessions and proof computations keeps nonces distinct and bridges backed |
| `Authentication.BridgingIsBacked` | crates/client/src/expose.rs:82-110 | over every interleaving, a bridging session's proof was computed with its secret, for its service and its own nonce |
| `Authentication.OneProofOneSession` | crates/client/src/static_http.rs:81-108 | one computed proof never opens two sessions |
| `Authentication.NoHolderNoBridge` | crates/client/src/expose.rs:82-110 | a service for which no proof was ever computed is never bridged |
| `Authentication.HonestAnswerIsAccepted` | crates/client/src/expose.rs:128-130 | the proof of a holder for the offered nonce opens the session |
| `Authentication.SessionIsItsFrames` | crates/client/src/expose.rs:62-105 | over every run: a session offers a nonce if and only if its one frame so far is an `AuthHello`; it bridges if and only if a second frame is the proof for that nonce, its secret and its service, and rejects any other proof; any other first or second frame, or a hangup, closes it |
| `Authentication.SessionIsAccepted` | crates/client/src/expose.rs:62-105 | a session keeps the secret and the service it was accepted with |
| `Authentication.HonestExchangeBridges` | crates/client/src/expose.rs:62-110 | after any run, a new session that gets an `AuthHello` and then the proof of a holder of its secret for its fresh nonce bridges |
| `RateLimit.Bucket.constructor` | crates/server/src/ratelimit.rs:44-53 | a bucket starts with the tokens it is given, which the copy takes from the rate it has loaded, and the current time |
| `RateLimit.Bucket.Refill` | crates/server/src/ratelimit.rs:55-67 | one load of the rate; rate 0 leaves the bucket alone, else tokens for the elapsed time are added and clipped to one second's worth |
| `RateLimit.Bucket.TryAcquire` | crates/server/src/ratelimit.rs:70-90 | the loop takes the tokens at the pass, time and balance that the specification gives for these observations |
| `RateLimit.RefillKeepsSane` | crates/server/src/ratelimit.rs:55-67 | refilling keeps the balance non-negative and at most one second's worth |
| `RateLimit.RefillsCompose` | crates/server/src/ratelimit.rs:55-67 | refilling twice is refilling once at the later time, and time spent at rate 0 counts for the next rate |
| `RateLimit.AcquireSleepsExactly` | crates/server/src/ratelimit.rs:70-90 | at a constant rate `acquire(n)` returns at once if the refilled tokens cover n, and otherwise after one sleep of the larger of (n - tokens)/rate and 1 ms, with exactly the tokens then left |
| `RateLimit.PassesAreSpaced` | crates/server/src/ratelimit.rs:70-90 | at any rates each pass loads the rate once, and two passes are apart by the tokens missing over the captured rate, at least 1 ms, and the lag of the load |
| `RateLimit.AcquireIsExact` | crates/server/src/ratelimit.rs:70-90 | at a constant rate `acquire(n)` returns after at most one sleep if the rate is 0 or at least n, and under no schedule otherwise |
| `RateLimit.SettledRateIsExact` | crates/server/src/ratelimit.rs:55-90 | once the rate stops changing, a waiting `acquire(n)` returns within a thousand sleeps if the rate is at least n, or is 0 and its tokens cover n, and otherwise never, whatever rate it captured |
| `RateLimit.AcquireAdmitsRequest` | crates/server/src/ratelimit.rs:70-90 | the events of a call account for exactly n bytes if it returns and for none if it does not |
| `RateLimit.BandwidthBound` | crates/server/src/ratelimit.rs:44-90 | for every sequence of acquires and rate changes, events within T seconds that read positive rates of at most R admit at most R*(T+1) bytes |
| `RateLimit.BoundIsTight` | crates/server/src/ratelimit.rs:44-90 | the bound is reached at every positive rate |
| `Throughput.ServedInTime` | crates/server/src/ratelimit.rs:70-90 | at a constant rate requests served back to back end no earlier than (sum - tokens in hand)/rate, and no later than that, or 0, plus 1 ms a request and the time the copy was not run |
| `Throughput.BurstIsImmediate` | crates/server/src/ratelimit.rs:70-90 | requests that the tokens in hand cover are served without sleeping |
| `ThrottledCopy.RunCopyThrottled` | crates/server/src/ratelimit.rs:101-127 | the copy loop's outcome, output and end time are those of the specification, for every chunking, every schedule and every failing read, write or flush |
| `ThrottledCopy.CopyDelivers` | crates/server/src/ratelimit.rs:113-126 | the writer has always seen a prefix of the input, also when a write fails half-way; a finished copy delivered all of it and returns its length |
| `ThrottledCopy.CopyEndsExactly` | crates/server/src/ratelimit.rs:101-127 | a copy blocks if and only if some acquire does not return; otherwise it is done at end of file and failed at a read, write or flush error, having written what the failing write forwarded |
| `ThrottledCopy.CopyTakes` | crates/server/src/ratelimit.rs:101-127 | at a constant rate a copy of n bytes takes at least n/rate - 1 seconds, and at most that, or 0, plus 1 ms a chunk and the time it was not run; the first second's worth is copied without sleeping |
| `ThrottledCopy.FullBufferBlocks` | crates/server/src/ratelimit.rs:116-124 | a chunk larger than a constant positive rate is never written, however long the copy waits |
| `ThrottledCopy.FinishesExactly` | crates/server/src/ratelimit.rs:101-127 | every chunking of every finite input is copied to its end if and only if the rate is 0 or at least 16384 |
| `Handshake.ReadIgnoresLaterBytes` | crates/common/src/protocol.rs:411-436 | bytes behind a complete frame do not change how it is read |
| `Handshake.HandshakeOnTheWire` | crates/common/src/protocol.rs:394-408 | the literal bytes of hello, nonce, proof and acceptance |
| `Handshake.RefusalOnTheWire` | crates/client/src/expose.rs:94-106 | a refusal is `AuthErr` with code 1 and the text "bad HMAC proof" |
| `Handshake.ConsumerEndsExactly` | crates/client/src/consume.rs:280-310 | for any bytes, a consumer ends accepted if and only if it reads `AuthOk` in place of the verdict, denied if and only if it reads `AuthErr` or, in place of the verdict, no frame, and answers exactly the nonce it reads |
| `Handshake.ProviderIsSession` | crates/client/src/expose.rs:62-105 | the provider program moves as a session of the authentication theorems on every frame, and closes on bytes that are no frame |
| `Handshake.DirectStep` | crates/client/src/consume.rs:270-309 | every enabled turn of consumer, provider or backend keeps the pair on its track, channel contents included, and lowers the rank |
| `Handshake.DirectProgress` | crates/client/src/expose.rs:67-109 | a state on track has settled or has an enabled turn |
| `Handshake.DirectHandshakeSettles` | crates/client/src/consume.rs:254-310 | runs have at most nine turns besides those of the backend, and one that cannot go on ended with the verdict the two secrets call for, on both sides |
| `Handshake.WithoutHelloDirectIsStuck` | crates/client/src/consume.rs:270-280 | without `AuthHello` the direct system reaches a stuck state with no verdict |
| `RelayedHandshake.StepRefines` | crates/server/src/relay.rs:83-115 | every step of the three-party system is no step or one step of the direct system and lowers the measure |
| `RelayedHandshake.RunRefinesDirect` | crates/server/src/relay.rs:228-290 | every relayed run, in any chunks, is a direct run seen through the channels, of bounded length |
| `RelayedHandshake.RelayedProgress` | crates/server/src/relay.rs:237-247 | with the limiter off, at 0, or at no less than the largest chunk that can hold back the handshake, a state that keeps the invariant has settled or has an enabled step |
| `RelayedHandshake.RelayedHandshakeSettles` | crates/client/src/consume.rs:313-381 | under those limits every run is finite and ends with the verdict of the direct handshake for the same secrets, service and nonce |
| `RelayedHandshake.DeadlockFreeExactly` | crates/server/src/ratelimit.rs:101-127 | no reachable state is stuck short of a verdict if and only if the reply limit is off, 0, or at least 35 and, when the secrets agree, at least min(16384, 3 + what the backend says first) |
| `RelayedHandshake.EarlyBytesStarve` | crates/client/src/expose.rs:109-121 | at every smaller positive rate a backend that speaks behind `AuthOk` brings the consumer to wait for its verdict for good |
| `RelayedHandshake.BufferIsAlwaysEnough` | crates/server/src/ratelimit.rs:101-127 | a rate of at least 16384 is deadlock-free whatever the backend says |
| `RelayedHandshake.WithoutHelloRelayedIsStuck` | crates/client/src/consume.rs:322-345 | without `AuthHello` the relayed system reaches a stuck state at every rate |
| `RelayPipe.StepKeepsInv` | crates/server/src/relay.rs:300-341 | every read, write, close, end and failure on either direction, also in the middle of a chunk, keeps bytes and counts conserved |
| `RelayPipe.RelayIsTransparent` | crates/server/src/relay.rs:300-341 | in every run each side has received a prefix of what the other wrote; counts are returned if and only if neither copy broke, and are exactly what was written, all of it forwarded |
| `RelayPipe.MovesLowerWork` | crates/server/src/relay.rs:300-341 | every step of the relay or of a reading end lowers the work in hand |
| `RelayPipe.QuietMeansDelivered` | crates/server/src/relay.rs:300-341 | when nothing can move, each direction that did not break has delivered all that was written, and if both sides are closed the relay has returned, with the exact counts unless one broke |
| `RelayPipe.CopyingStartsBehindDataOpen` | crates/server/src/relay.rs:92-115 | the relay consumes exactly the `DataOpen` before it copies, so the request stream starts with the bytes behind it |
| `Registry.RegistryAgreesWithLog` | crates/server/src/registry.rs:222-261 | after every number of events the service and session maps hold exactly what a reading of the events alone says |
| `Registry.LookupRefinesLog` | crates/server/src/registry.rs:124-126 | after any log of registers, touches, drops and sweeps a service resolves to p if and only if its latest accepted registration was by p and nothing dropped p since |
| `Registry.HeartbeatRefinesLog` | crates/server/src/registry.rs:240-261 | a session holds time t if and only if the client's latest heartbeat was at t and nothing dropped the client since |
| `Registry.GroupsAreIndependent` | crates/server/src/registry.rs:222-261 | deleting all events of other groups from the log leaves a group as it was |
| `Registry.SweepKeepsExactlyTheLive` | crates/server/src/main.rs:164-183 | a swept group keeps exactly the sessions at or after the cutoff and the services of providers that were not dropped |
| `Registry.SweepIsIdempotent` | crates/server/src/main.rs:164-183 | sweeping a group again at the same cutoff changes nothing |
| `Registry.WithoutOneMore` | crates/server/src/registry.rs:248-261 | dropping clients one after the other is dropping them all |
| `Registry.SweepMissesExactly` | crates/server/src/main.rs:164-183 | a sweep leaves no stale session in a group if and only if the group has a service or had no stale session |
| `Registry.ServicelessGroupIsNeverSwept` | crates/server/src/registry.rs:129-141 | a group without services is unchanged by any number of sweeps and events of other groups |
| `Registry.IterationMembers` | crates/server/src/registry.rs:129-141 | in whatever order the maps are iterated, the dump holds exactly the registered services |
| `Registry.TokenOpensOneGroupExactly` | crates/server/src/registry.rs:117-120 | a token opens the same group under every iteration order if and only if at most one group has it |
| `ServerObjects.Group.RegisterService` | crates/server/src/registry.rs:222-237 | last registration wins and the previous provider is returned; a name over 32 bytes changes nothing |
| `ServerObjects.Group.TouchSession` | crates/server/src/registry.rs:240-245 | the client's heartbeat is now, and nothing else changes |
| `ServerObjects.Group.DropSession` | crates/server/src/registry.rs:248-261 | the collect-and-remove loop removes the session and exactly the services of that client |
| `ServerObjects.ServerState.LookupService` | crates/server/src/registry.rs:124-126 | the provider registered in that group, or none, also for an unknown group |
| `ServerObjects.ServerState.DumpServices` | crates/server/src/registry.rs:129-141 | the nested loops produce one of the possible iterations of the registry |
| `ServerObjects.ServerState.SweepOne` | crates/server/src/main.rs:164-183 | exactly the stale sessions of one group are dropped, and no other group changes |
| `ServerObjects.ServerState.SweepDeadSessions` | crates/server/src/main.rs:164-183 | visiting a group once per dumped service amounts to one sweep event on the whole registry |
| `ControlSessions.LifecycleHolds` | crates/server/src/control.rs:92-169 | if sessions leave through the clean-up, in every interleaving with sweeps and with split drops each provider and session key has an open control session in its group |
| `ControlSessions.SessionHoldsLatestStamp` | crates/server/src/control.rs:92-169 | over every interleaving a session entry is there with time t if and only if the client's latest Hello or heartbeat, on any of its connections, was at t and no clean-up or sweep ended it since |
| `ControlSessions.LookupFindsLatestRegistration` | crates/server/src/control.rs:175-206 | over every interleaving a name resolves to p if and only if its latest registration, of at most 32 bytes, was by p and no removal came since |
| `ControlSessions.LastStepDecides` | crates/server/src/control.rs:92-169 | an answer is due, and may fail, if and only if the connection's last step was a Hello, an accepted registration or a lookup; a command is read if and only if it was an answer, a heartbeat or a refused registration |
| `ControlSessions.SafeForGoodExactly` | crates/server/src/control.rs:92-169 | the lifecycle property survives every clean continuation of a state if and only if every entry will still be removed by an open connection of its client |
| `ControlSessions.UncleanExitExactly` | crates/server/src/control.rs:92-169 | after leaving on a failed write or a panic of the decoder the property survives every clean continuation if and only if other connections of the client will still remove its session and each of its services |
| `ControlSessions.OpenConnectionIsNotEnough` | crates/server/src/control.rs:141-169 | a reachable state in which the client has another open connection and the property is still lost |
| `ControlSessions.FailedGreetingLeaks` | crates/server/src/control.rs:92-100 | a client whose `HelloOk` cannot be written leaves its session entry behind |
| `ControlSessions.SplitDropTakesForeignExactly` | crates/server/src/registry.rs:248-261 | in every interleaving, the removal of a collected name takes away another client's registration if and only if that client registered it since the collection and nothing registered or removed it after that |
| `ControlSessions.SplitDropLosesRegistration` | crates/server/src/registry.rs:248-261 | a reachable state in which a split drop removes another client's live registration |
| `RelayAdmission.LookupServiceAnyGroup` | crates/server/src/relay.rs:218-225 | the scan returns the provider of the first listed entry for the service, or none |
| `RelayAdmission.FoundIsListed` | crates/server/src/relay.rs:218-225 | a provider is found if and only if some entry lists the service, and it comes from such an entry |
| `RelayAdmission.AcceptLoop` | crates/server/src/relay.rs:80-216 | the loop over a connection's streams makes the decisions of the specification, in order, and ends at a panic |
| `RelayAdmission.StreamIsDecidedExactly` | crates/server/src/relay.rs:80-216 | a stream is decided, and on its own merits, if and only if reading no earlier stream of the connection panicked |
| `RelayAdmission.AdmissionIsSafe` | crates/server/src/relay.rs:117-180 | a relayed stream claims its own peer, names a provider registered for that service in some group, and gets that peer's override or else the default rate |
| `RelayAdmission.RefusalMeans` | crates/server/src/relay.rs:117-180 | each refusal is given if and only if its reason holds: unparsable target, unparsable or foreign consumer, a service that nobody registers; a wrong provider means that another one registers it |
| `RelayAdmission.AdmittedExactlyOnAgreement` | crates/server/src/relay.rs:117-180 | a well-formed request for a registered provider is admitted under every iteration order if and only if all groups registering the name agree on it |
| `RelayAdmission.MasterSwitch` | crates/server/src/main.rs:91-104 | a tunnel is limited if and only if the relay section exists and is enabled, and then starts at its consumer's override or else at the section's rate |
| `RelayRates.IdsDistinctExactly` | crates/server/src/registry.rs:176-180 | allocated ids are pairwise distinct for exactly 2^64 allocations |
| `RelayRates.TableIsExact` | crates/server/src/relay.rs:252-282 | over every interleaving below the wrap, the table's keys are exactly the ids of live throttled tunnels, each with its own handle |
| `RelayRates.UpdateReachesExactlyOne` | crates/server/src/registry.rs:199-206 | an update changes the rate seen by exactly the tunnel with that id; an unknown id changes nothing |
| `RelayRates.TunnelSeesOwedRate` | crates/server/src/relay.rs:252-260 | over every interleaving below the wrap a live throttled tunnel reads the rate of the last update of its id since it was established, or the rate it was spawned with if there was none |
| `RelayRates.ThrottledIfSpawnedSo` | crates/server/src/relay.rs:252-260 | an established tunnel is throttled if and only if it was spawned with a rate |
| `RelayRates.RateTable.AllocStreamId` | crates/server/src/registry.rs:176-180 | returns the counter and advances it with 64-bit wrap-around |
| `RelayRates.RateTable.RegisterRelayRate` | crates/server/src/registry.rs:183-185 | the id maps to that handle, other ids are unchanged |
| `RelayRates.RateTable.UnregisterRelayRate` | crates/server/src/registry.rs:188-190 | exactly that id is removed |
| `RelayRates.RateTable.UpdateRelayRate` | crates/server/src/registry.rs:199-206 | reports whether the id is known and stores the rate in its handle only |
| `RelayRates.RateTable.OpenTunnel` | crates/server/src/relay.rs:228-260 | a tunnel that cannot be opened changes nothing; one opened under the limiter takes the next id and is registered under it with a new handle that holds its initial rate |
| `RelayRates.RateTable.RunRelay` | crates/server/src/relay.rs:228-290 | a tunnel that cannot be opened changes nothing; of an opened one, whether its copy succeeds or fails, the id is not in the table afterwards and no other entry changed |
| `ServiceNames.AcceptedExactly` | crates/common/src/alpn.rs:58-81 | a name is accepted if and only if it is 1 to 32 bytes of runs of lower-case letters and digits joined by single dashes and not reserved |
| `ServiceNames.AlpnsAreDistinct` | crates/common/src/alpn.rs:37-40 | different services have different ALPNs, none of them the control or data one |
| `Config.Validate` | crates/common/src/config.rs:309-342 | accepts if and only if the record is a valid server or a valid client, not both, with a known log level |
| `Config.ValidateServer` | crates/common/src/config.rs:344-383 | accepts if and only if group names are distinct, tokens are non-empty, and rate overrides parse to distinct nodes |
| `Config.SharedTokenIsAccepted` | crates/common/src/config.rs:344-383 | a server configuration in which two groups share a token is valid |
| `Config.ValidateClient` | crates/common/src/config.rs:385-512 | accepts if and only if server id and token are there, all names are valid and distinct across the three tables, secrets are non-empty and static roots are directories |
| `Config.NamesDistinct` | crates/common/src/config.rs:416-467 | the separate passes over the tables decide distinctness of all names together |
| `Config.RegisterHandlers` | crates/client/src/main.rs:182-211 | an accepted client registers the control ALPN and one per published service, in order, pairwise distinct |
| `Config.PublishedAlpnsDistinct` | crates/client/src/main.rs:182-211 | acceptance implies that the registered ALPNs are pairwise distinct |
| `Dial.ClampBackoff` | crates/client/src/main.rs:416-428 | the smallest value that is at least the floor and at least the configured one |
| `Dial.ConsumeState.EnsureProviderId` | crates/client/src/consume.rs:384-397 | the cached id if there is one, else the subscribed one, which is then cached |
| `Dial.ConsumeState.InvalidateProviderCache` | crates/client/src/consume.rs:399-401 | the cache is empty |
| `Dial.ConsumeState.DialStream` | crates/client/src/consume.rs:188-241 | result, failed passes with their sleeps, and final cache are those of the specification for every sequence of dial outcomes |
| `Dial.DialEndsExactly` | crates/client/src/consume.rs:188-241 | from the environment alone: the first pass that finds no provider, reaches one, or cannot double its backoff ends the dial, with no provider, the direct stream if the direct dial is tried and succeeds, else the relayed one; it is still trying if and only if there is no such pass; failed passes and the final cache are given too |
| `Dial.TriesFollowEnvironment` | crates/client/src/consume.rs:188-241 | pass k dials the provider of the last subscribe up to it, redone behind an authentication failure, and directly only if told to |
| `Dial.SleepsAreExponential` | crates/client/src/main.rs:333-345 | with initial and max raised to at least 10 and 100 ms the k-th sleep is initial for k = 0 and min(initial*2^k, max) after, never below 10 ms |
| `Dial.OverflowExactly` | crates/client/src/consume.rs:188-241 | some run overflows 64 bits if and only if initial or max is at least 2^63 |
| `Dial.AuthFailureForcesSubscribe` | crates/client/src/consume.rs:188-241 | in a single task a retry subscribes again if and only if the direct dial before it failed authentication, and otherwise dials the same provider |
| `Dial.CacheHoldsReturnedIds` | crates/client/src/consume.rs:384-401 | over every interleaving of tasks the cache holds nothing or an id that some subscribe returned, and so does every dial |
| `Dial.RetrySkipsSubscribeExactly` | crates/client/src/consume.rs:188-241 | over every interleaving a task's retry after its own invalidation dials without subscribing if and only if another task has stored an id since and nobody has invalidated it |
| `Dial.StaleIdCanComeBack` | crates/client/src/consume.rs:384-401 | a run in which the invalidated id itself is stored again and dialed again |
| `HttpReader.SkipSkip` | crates/client/src/static_http.rs:277-343 | consuming m and then n bytes is consuming m + n bytes, chunk boundaries included |
| `HttpReader.ReadUntilLimited` | crates/client/src/static_http.rs:277-312 | for every chunking the result is that of the whole stream, and a returned line is exactly what was consumed |
| `HttpReader.FirstLineMeans` | crates/client/src/static_http.rs:277-312 | a line is returned if and only if a delimiter lies within the limit, and ends with the first one; the line is too long if and only if there is more than the limit and no delimiter within it; no data if and only if the stream is empty |
| `HttpReader.FindHeaderTerminator` | crates/client/src/static_http.rs:347-364 | the scan by start finds the terminator that ends first |
| `HttpReader.ReadHeadersLimited` | crates/client/src/static_http.rs:317-343 | a returned section is exactly what was consumed, within the cap, ends in a terminator, and is the first one inside a single chunk |
| `HttpReader.FirstHeadersMeans` | crates/client/src/static_http.rs:317-343 | in the whole-stream reference a section is returned if and only if a terminator lies within the cap, and ends with the first one; it is too long if and only if there is more than the cap and none within it |
| `HttpReader.FirstSeenIsFirstInOneChunk` | crates/client/src/static_http.rs:317-343 | the terminator found is the first one that lies inside a single chunk |
| `HttpReader.ChunkedReaderExactly` | crates/client/src/static_http.rs:317-343 | the chunked reader equals the whole-stream reference if and only if the first terminator is absent, beyond the cap, or inside one chunk |
| `HttpReader.StraddlingTerminatorIsMissed` | crates/client/src/static_http.rs:327-335 | a two-chunk stream whose cut terminator is missed |
| `HttpText.DecimalRoundTrip` | crates/client/src/static_http.rs:225-229 | a printed length below 2^64 parses back to itself |
| `HttpRequest.LineIsSplit` | crates/client/src/static_http.rs:187-202 | the request line is its first three space-separated parts, and is refused for bad UTF-8, for each missing part, and for a third part that does not start with HTTP/ |
| `HttpRequest.ScanTokensLoop` | crates/client/src/static_http.rs:231-241 | the token loop sets the flags of the specification |
| `HttpRequest.ScanHeaders` | crates/client/src/static_http.rs:213-244 | the header loop ends with the length and the flags of the specification, or its error |
| `HttpRequest.ReadRequestFrom` | crates/client/src/static_http.rs:178-273 | outcome and remaining stream of reading one request are those of the specification, for every stream and every error |
| `HttpRequest.NeverDrains` | crates/client/src/static_http.rs:246-262 | the branch that reads a request body is unreachable |
| `HttpRequest.SectionEnds` | crates/client/src/static_http.rs:347-364 | the first terminator of a section with a field is its last byte, whatever follows |
| `HttpRequest.LinesAreFields` | crates/client/src/static_http.rs:213-244 | scanning the lines of a section is scanning its fields |
| `HttpRequest.FieldsMean` | crates/client/src/static_http.rs:225-244 | the section is an error if and only if an announced length is no number; the last announced length counts; the flags say whether some `Connection` field lists `close` or `keep-alive`, case-insensitively |
| `HttpRequest.RequestReadsBack` | crates/client/src/static_http.rs:178-273 | a well-formed request with a field and a whole terminator is read back, kept open by the server's rule on version and `Connection` options, and nothing behind it is consumed |
| `HttpRequest.KeepAliveMeetsRfcExactly` | crates/client/src/static_http.rs:260-266 | the decision to keep the connection open is that of section 9.3 of RFC 9112 if and only if the request is not HTTP/1.0 with both options, nor above HTTP/1.1 without `close` |
| `HttpRequest.KeptOpenAgainstClose` | crates/client/src/static_http.rs:260-266 | a well-formed HTTP/1.0 request with `Connection: close,keep-alive` is kept open, against the RFC |
| `HttpRequest.LaterVersionIsClosed` | crates/client/src/static_http.rs:260-266 | a well-formed HTTP/1.2 request is closed, against the RFC |
| `HttpRequest.ReadBackExactly` | crates/client/src/static_http.rs:178-273 | whatever follows and however the stream is cut, a well-formed request is read back if and only if it has a header field and its terminator lies in one chunk |
| `HttpRequest.BodiesAreRefusedExactly` | crates/client/src/static_http.rs:225-250 | a sound request head is answered if and only if it announces no body; it is refused as too long with n if and only if it announces n > 0 bytes, and as bad if and only if a length is no number |
| `HttpRequest.LastLengthCounts` | crates/client/src/static_http.rs:225-229 | a section that announces 5 bytes and then 0 counts as announcing no body |
| `HttpRequest.LongLineIsRefused` | crates/client/src/static_http.rs:178-187 | a request line above 8192 bytes is refused, however the stream is cut |
| `HttpRequest.LongSectionIsRefused` | crates/client/src/static_http.rs:317-343 | a header section above 65536 bytes is refused, however the stream is cut |
| `HttpRequest.HeaderlessFails` | crates/client/src/static_http.rs:205-212 | a request without header fields at the end of the stream fails as closed in its headers, for every chunking |
| `HttpRequest.HeaderlessSwallowsNext` | crates/client/src/static_http.rs:205-244 | with another request head behind it, whatever it announces, the request is read as sent and exactly that head is consumed with it |
| `HttpResponse.PercentDecode` | crates/client/src/static_http.rs:514-540 | the loop decodes escapes and plus signs and fails on a cut or bad escape and on bytes that are not UTF-8 |
| `HttpResponse.DecodesExactlySpellings` | crates/client/src/static_http.rs:514-540 | a text decodes to some bytes if and only if it spells them with characters for themselves, plus signs for spaces and two-digit escapes in either case |
| `HttpResponse.EncodeThenDecode` | crates/client/src/static_http.rs:514-540 | percent-encoding by section 2.1 of RFC 3986 and then decoding is the identity on all bytes |
| `HttpResponse.EncodedPathIsReached` | crates/client/src/static_http.rs:421-437 | the target of an encoded UTF-8 path with any query or fragment is exactly that path below the root |
| `HttpResponse.HeadMatchesGetExactly` | crates/client/src/static_http.rs:377-409 | HEAD and GET get the same header fields if and only if the path decodes and names a readable file or a directory that may be listed |
| `HttpResponse.AnswerMeans` | crates/client/src/static_http.rs:377-494 | for every site and request each status is given if and only if its reason holds; 200 to a GET carries the file with its type and length, or the listing, and HEAD the same fields without content; an error carries its own text; `Connection` says whether the server keeps the stream open |
| `HttpResponse.WriteResponse` | crates/client/src/static_http.rs:496-508 | exactly the rendered response is appended to the stream |
| `HttpResponse.HeadReadsBack` | crates/client/src/static_http.rs:496-508 | status, reason and header fields parse back from the head that is written |
| `HttpResponse.ReplyReadsBack` | crates/client/src/static_http.rs:496-508 | a reader by section 6.3 of RFC 9112 splits a framed response off any following bytes |
| `HttpResponse.EveryResponseIsFramed` | crates/client/src/static_http.rs:411-494 | for every request and site the announced length is that of the body, and answers to HEAD have no body |
| `HttpSession.ReadShrinks` | crates/client/src/static_http.rs:117-129 | every served request consumes bytes, so a session on a finite stream ends |
| `HttpSession.ServeOne` | crates/client/src/static_http.rs:139-157 | one response for one request, none at end of stream or on an error, and whether to go on |
| `HttpSession.Serve` | crates/client/src/static_http.rs:117-132 | the loop writes exactly the rendered responses to the answered requests |
| `HttpSession.PipelineIsAnswered` | crates/client/src/static_http.rs:117-157 | of well-formed pipelined requests exactly the served ones are answered, in order, one each: the loop skips the message behind each request without fields and stops behind the first served one that is not kept open; only if it gets through all does it go on behind them |
| `HttpSession.ServedInOrderExactly` | crates/client/src/static_http.rs:117-157 | the served requests are all those up to the first that is not kept open if and only if each of them has a header field, or is itself that first one with a message behind it |
| `HttpSession.OutputSplits` | crates/client/src/static_http.rs:496-508 | the output of any session splits back into the same responses, and nothing else is consumed |
| `HttpSession.SessionRoundTrip` | crates/client/src/static_http.rs:117-157 | a client that pipelines requests reads back from the output the response to each served one, with nothing left over |
| `HttpSession.FileIsDelivered` | crates/client/src/static_http.rs:117-157 | end to end: where a served pipelined request asks for a readable file by its encoded path, the client reads back that file, its length and its type, and after HEAD the same without the content |

## Left out

- Iroh, QUIC, tokio and TCP: channels are FIFO byte sequences that may close; `tunnel::bridge` is not part of this model.
- HMAC-SHA256, constant-time comparison and randomness: the MAC is an arbitrary function; the network does not guess an awaited tag and no computed tag collides with it, up to the zero padding of keys in section 2 of RFC 2104; nonces in one run are distinct.
- JSON text of control messages: a pair of functions with a round-trip law.
- TOML syntax, socket addresses and paths: validation starts from the parsed record, which carries whether a static root exists and is a directory.
- `EndpointId` parsing: an arbitrary partial function.
- The lookup of a token inside a control session: there the group of a `Hello` is given.
- `read_from` while bytes are missing: a read happens when its frame is complete, or at end of stream.
- Faults during a handshake, such as a backend that cannot be reached: the handshake theorems are about fault-free runs, with a finite but arbitrary number of early bytes of the backend and a rate that does not change.
- Half-close: nothing is claimed about forwarding an end of stream in one direction while the other is open.
- The text matching of `is_auth_error`: each failed direct dial is tagged as an authentication failure or another one.
- Cancellation and task aborts: a relay task runs to the end of `run_relay`.
- The file system: a function from decoded paths to what is found there; canonicalisation, directory reading, the HTML listing and the table of file extensions are not modelled.
- Rounding of `f64` token counts.
- Logging, `--status`, identity files, the CLI and runtime counters.
- `subscribe` and the heartbeat writer of the client: only the server side of a control session is modelled.
- ControlSessions.LifecycleHolds: a sweep may drop any client of any group at any time, which covers every real sweep.
- RelayRates.RateTable.RunRelay: the copy is only its outcome; what other tunnels do to the table meanwhile is in `RelayRates.TableIsExact`.
- Config.Validate: decides acceptance; which of several errors is reported first is not stated.
- Dial.ConsumeState.DialStream: a doubling beyond 64 bits ends the run with a distinct outcome, where a release build wraps around and a debug build panics.
