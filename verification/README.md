# Verified model of the proxy core

Dafny models of the parts of the proxy core that hold real state: stream multiplexing and its
XHTTP sibling, the rule router with its domain patterns, the worker pool, the DCCP packet codec,
the congestion controls, the TLS server-name sniffer, mKCP and the gRPC-style framing.

Code that updates objects is a class with the same fields. Its methods are proved against
functions on values (`MuxProtocol.Step`, `Ccid.Step2`, `Grpc.ReadOnce`, ...), and the promises of
the source are proved about those functions, over every run and every input. Goroutines, channels,
locks and condition variables are state machines over their atomic steps (`MuxWakeup`,
`XhttpWakeup`, `WorkerPool`). Each file is one module:

| file | models |
|---|---|
| `Bytes.dfy`, `Conn.dfy` | fixed-width integers and their encodings, a byte connection |
| `Buf.dfy` | `app/common/buf/buffer.go` as the multiplexer uses it |
| `MuxProtocol.dfy`, `MuxSession.dfy`, `MuxWakeup.dfy` | `app/features/multiplex/mux.go` |
| `XhttpProtocol.dfy`, `XhttpSession.dfy`, `XhttpWakeup.dfy` | `app/transport/xhttp.go` |
| `DomainPattern.dfy`, `Ports.dfy`, `Router.dfy` | `app/route/router.go` |
| `WorkerPool.dfy` | `app/core/worker.go` |
| `DccpChecksum.dfy`, `DccpPacket.dfy` | `app/transport/dccp/packet.go` |
| `Ccid.dfy` | `app/transport/dccp/congestion.go` |
| `Sni.dfy` | `app/common/protocol/protocol.go` |
| `Bbr.dfy` | `app/transport/bbr/bbr.go` |
| `Kcp.dfy` | `app/transport/mkcp.go` |
| `Grpc.dfy` | `app/transport/grpc.go` |

`dafny verify dfyconfig.toml` checks everything. A `hide` statement in a proof keeps definitions
the proof does not need away from the solver.

## Where the code and what is said about it differ

The models follow the code. These promises hold only in part; the lemma named gives the exact
condition or a run that breaks them.

- Mux: frames are announced as up to 65536 bytes but the length field has 16 bits, so exactly the
  payloads up to 65535 bytes come back (`MuxProtocol.ParseEncode`). A stream buffer is never
  compacted and takes 32768 bytes in its lifetime (`MuxProtocol.EndToEnd`). Local stream ids stay
  fresh exactly below 2^31 allowed streams (`MuxProtocol.FreshIdsBound`). Local Close and
  local Reset do not wake a reader: one waits on a closed or reset stream, with neither it nor a
  handler able to step, exactly when no token is there and the stream was closed here after the
  reader's test with none coming or since, or was reset here after the call began
  (`MuxWakeup.StrandedExactlyWhenMissed`, `MuxWakeup.LocalCloseStrands`,
  `MuxWakeup.LocalResetStrands`). Of the streams the peer opens, AcceptStream hands out all but
  those whose first frame came while 32 were waiting (`MuxProtocol.AcceptedInOrder`).
- XHTTP: a reader sleeps through a close exactly when the peer's close is signalled between the
  reader's test and its Wait, or the stream is closed here, which signals nobody, and nothing is
  signalled later (`XhttpWakeup.CloseIsMissedExactlyWhenLate`, `XhttpWakeup.CloseCanBeMissed`,
  `XhttpWakeup.LocalCloseStrands`). No stream loses data exactly while at most 2^31 streams are
  opened; the next open takes over the first one's id (`XhttpProtocol.LosslessBound`).
- Router: a star stops at a newline. All patterns together keep their plain meaning on a name
  exactly when it has no newline (`DomainPattern.PlainMeaningIffOneLine`), and a pattern keeps it
  on all names exactly when it has no wildcard (`DomainPattern.PlainMeaningIffFixed`). While a
  configuration is being replaced, old rules meet the new balancers (`Router.Router.SetConfig`).
- Worker pool: the promised minimum of workers is kept on every run exactly by pools of at most
  two workers that have no queue to fill or no CPU to scale to, and by empty ones
  (`WorkerPool.FloorExactlyWhenNeverScaling`); every other pool can lose all its workers
  (`WorkerPool.FloorCanFail`), though not while idle exits are decided one at a time
  (`WorkerPool.FloorHoldsOneAtATime`).
- DCCP: options come back exactly when their lengths count their data, none has type 0 and they
  take at most 48 padded bytes (`DccpPacket.RoundTrip`); the packet
  checks to 0 exactly when the caller's checksum field is a one's-complement zero
  (`DccpPacket.EncodedPacketChecks`); the decoder computes the checksum and ignores it.
- TLS: the host name is found exactly when the server name list is shorter than 256 bytes
  (`Sni.ExtractUndoesPrint`), and the record is recognised exactly when a byte follows it
  (`Sni.RecordIsSniffed`).
- CCID 2: each loss multiplies the timeout by every doubling so far (`Ccid.LossesBackOff`), so the
  ninth loss in a row overflows a 64-bit duration (`Ccid.NinthLossOverflows`), and until Reset no acknowledgement lowers the back-off count (`Ccid.BackoffCountsLosses`).
- CCID 4: the window's linear step is never taken (`Ccid.AlwaysMultiplies4`).
- BBR: the time the last RTT probe ended is never recorded, so the test that ten seconds have
  passed since then always succeeds: every RTT update with a positive minimum starts a probe
  (`Bbr.BBR.OnRTTUpdate`), and only Reset ends one (`Bbr.BBR.OnPacketAcked`).
- mKCP: a flush encodes every segment at the same place of one buffer, which nothing reads: no
  byte leaves, and the buffer is left with all flushed segments exactly when there was at most
  one (`Kcp.FlushKeepsOnlyTheLast`, `Kcp.SecondOverwritesFirst`). So a `Send` of more than 1326
  bytes into an empty queue is not whole in the buffer after the flush. The results about encoded
  segments laid back to back are about the codec, not about a transfer. The window probe never
  fires (`Kcp.KCPState.CheckProbe`), flushes can come closer than the interval
  (`Kcp.NextFlushDue`) and `Recv` loses what does not fit (`Kcp.KCPState.Recv`).

## Model

| member | source | states |
|---|---|---|
| Buf.Buffer.New | app/common/buf/buffer.go:62-79 | a new buffer is empty and holds 32768 bytes |
| Buf.Buffer.IsEmpty | app/common/buf/buffer.go:107-109 | empty exactly when no accepted byte is unread |
| Buf.Buffer.Write | app/common/buf/buffer.go:142-149 | all bytes ever accepted are the first ones offered, up to the array's length; a short write fills it |
| Buf.Buffer.Read | app/common/buf/buffer.go:164-172 | bytes handed out followed by the new contents are the old contents; EOF exactly when empty |
| MuxProtocol.ParseEncode | app/features/multiplex/mux.go:208-223 | a frame and the bytes after it come back exactly when the payload is at most 65535 bytes |
| MuxProtocol.WireBytes | app/features/multiplex/mux.go:212-223 | the header byte by byte: id, type, a zero, the low 16 bits of the length, all big-endian |
| MuxProtocol.PipeIsFrameQueue | app/features/multiplex/mux.go:240-287 | on every run the handled frames are a prefix of the sent frames and the wire holds exactly the others |
| MuxProtocol.DrainIsRun | app/features/multiplex/mux.go:248-286 | the read loop until EOF or GoAway is one of the interleavings the run theorems cover |
| MuxProtocol.Fidelity | app/features/multiplex/mux.go:289-323 | for any interleaving of frames, opens, reads and closes, delivered then buffered bytes are the first 32768 received for that stream |
| MuxProtocol.ReceivedIsProjection | app/features/multiplex/mux.go:289-317 | a known stream receives the payloads of its own data frames, in order, and nothing else |
| MuxProtocol.EndToEnd | app/features/multiplex/mux.go:200-323 | from sender to reader: a stream's reads and buffer are the data sent for it in the frames handled since it became known, up to 32768 bytes |
| MuxProtocol.ReadsInOrder | app/features/multiplex/mux.go:61-84 | on every run the next read of a stream gives as much as fits of what was sent for it and not yet read; EOF only when the stream is closed and nothing is left, waiting only when nothing is left of an open one |
| MuxProtocol.FlagsExactly | app/features/multiplex/mux.go:94-106 | on every run a stream is closed, or reset, exactly when a handled close or reset of its own or a local call made it so |
| MuxProtocol.PongsEcho | app/features/multiplex/mux.go:272-286 | one pong for each ping before the goodbye, in order, with its payload |
| MuxProtocol.AcceptedInOrder | app/features/multiplex/mux.go:188-317 | on every run the streams accepted and then those waiting are the peer's new even ids in order, without exactly those that came with 32 waiting; none comes twice |
| MuxProtocol.EndedReadsNeverWait | app/features/multiplex/mux.go:325-350 | on any run in which the read loop takes a close or reset of a registered stream, no later read of it waits, and after a reset every one reports it |
| MuxProtocol.FreshIdsBound | app/features/multiplex/mux.go:163-186 | OpenStream never reuses an id in the table, on any run, exactly below 2^31 allowed streams |
| MuxProtocol.OpensUpToLimit | app/features/multiplex/mux.go:163-186 | with nobody else opening, the ids are 1, 3, 5, ... and the limit refuses the first one too many |
| MuxSession.MuxStream.Read | app/features/multiplex/mux.go:61-84 | one pass of Read hands out the oldest buffered bytes, EOF, the reset, or would wait, as the stream value says |
| MuxSession.MuxSession.OpenStream | app/features/multiplex/mux.go:163-186 | refuses when closed or at the limit, else registers an empty stream under nextID and changes no other stream |
| MuxSession.MuxSession.AcceptStream | app/features/multiplex/mux.go:188-198 | hands out the peer's streams oldest first |
| MuxSession.MuxSession.WriteFrame | app/features/multiplex/mux.go:200-238 | whatever was left in the reused buffer, the wire gets exactly the frame's encoding, nothing when closed |
| MuxSession.MuxSession.ReadStream | app/features/multiplex/mux.go:61-84 | a read between any steps of the read loop is the protocol's read event: this stream's oldest bytes move out, the session stays consistent |
| MuxSession.MuxSession.CloseStream | app/features/multiplex/mux.go:94-100 | marks the stream closed; the first close of an open session sends one close frame |
| MuxSession.MuxSession.ResetStream | app/features/multiplex/mux.go:102-106 | marks the stream reset, not closed; every reset of an open session sends one reset frame |
| MuxSession.MuxSession.WriteStream | app/features/multiplex/mux.go:86-92 | one data frame goes out exactly when neither stream nor session is closed |
| MuxSession.MuxSession.HandleData | app/features/multiplex/mux.go:289-323 | the payload goes to its own stream only; an unknown even id opens a stream, an unknown odd id is dropped |
| MuxSession.MuxSession.HandleClose | app/features/multiplex/mux.go:325-336 | marks that stream closed and no other |
| MuxSession.MuxSession.HandleReset | app/features/multiplex/mux.go:338-350 | marks that stream reset and closed and no other |
| MuxSession.MuxSession.ReadFrame | app/features/multiplex/mux.go:244-271 | with a reused scratch array, exactly the frame at the front of the wire, or failure when it is incomplete |
| MuxSession.MuxSession.ReadLoop | app/features/multiplex/mux.go:240-287 | on any inbound bytes the loop ends with the stream table and the pong replies that handling the complete frames in order gives |
| MuxWakeup.NoLostWakeup | app/features/multiplex/mux.go:61-84 | in every interleaving a waiting reader with data, close or reset from the peer has a token or a handler about to send one, and no byte is lost |
| MuxWakeup.WaitingReaderIsWoken | app/features/multiplex/mux.go:315-322 | such a reader can step, or the handler can and is strictly closer to waking it |
| MuxWakeup.ReaderTakes | app/features/multiplex/mux.go:66-83 | left alone, a reader that enters takes what fits of the oldest bytes |
| MuxWakeup.ReaderEndsOrWaits | app/features/multiplex/mux.go:69-81 | with nothing buffered it ends on a closed stream and waits on an open one |
| MuxWakeup.TokenWakesOnce | app/features/multiplex/mux.go:74-75 | one token wakes a waiting reader once |
| MuxWakeup.HandlerStores | app/features/multiplex/mux.go:315-322 | left alone, the handler stores the payload and leaves a token |
| MuxWakeup.StrandedExactlyWhenMissed | app/features/multiplex/mux.go:61-106 | in every interleaving a reader waits on a closed or reset stream with nobody able to step exactly when no token is there, no handler is under way, and a local Close came after its test with no token coming or since, or a local Reset after the call began |
| MuxWakeup.LocalCloseStrands | app/features/multiplex/mux.go:94-100 | a run in which local Close leaves a waiting reader with nobody to wake it |
| MuxWakeup.LocalResetStrands | app/features/multiplex/mux.go:102-106 | a run in which local Reset leaves a waiting reader with nobody to wake it |
| XhttpProtocol.ParseEncode | app/transport/xhttp.go:235-239 | a frame comes back exactly when its payload is shorter than 4 GiB |
| XhttpProtocol.WireBytes | app/transport/xhttp.go:235-239 | the header byte by byte: type, id and length big-endian, flags, two zeros |
| XhttpProtocol.IdsAreCounted | app/transport/xhttp.go:112-128 | on every run the next local id is the next odd number modulo 2^32 |
| XhttpProtocol.OpenedIdsDistinct | app/transport/xhttp.go:117-118 | local ids are odd and two of them coincide exactly when their opens are a multiple of 2^31 apart |
| XhttpProtocol.RunLossless | app/transport/xhttp.go:179-209 | delivered then buffered bytes are all the data received for the stream, without bound |
| XhttpProtocol.EndToEnd | app/transport/xhttp.go:139-272 | reads and buffer are the projection of the handled prefix of the sent frames; EOF only after all of it was read |
| XhttpProtocol.ReadsInOrder | app/transport/xhttp.go:260-272 | on every run the next read gives as much as fits of what was sent and not yet read; EOF only when closed and nothing is left, waiting only when nothing is left of an open one |
| XhttpProtocol.ClosedExactly | app/transport/xhttp.go:211-289 | on every run a stream is closed exactly when a handled close or reset of its own or a local Close made it so |
| XhttpProtocol.PongsEcho | app/transport/xhttp.go:161-176 | one pong for each ping before the goodbye, in order, with its payload |
| XhttpProtocol.ClosedReadsNeverWait | app/transport/xhttp.go:211-227 | on any run in which the read loop takes a close or reset of a registered stream, no later read of it waits |
| XhttpProtocol.LosslessBound | app/transport/xhttp.go:116-126 | no run with up to n opens loses a stream's data exactly when n is at most 2^31; the open after that replaces a live stream |
| XhttpSession.XHTTPStream.Read | app/transport/xhttp.go:260-272 | one pass of Read hands out the oldest bytes, EOF when closed and drained, or would wait |
| XhttpSession.XHTTPConnection.OpenStream | app/transport/xhttp.go:112-128 | registers an empty stream under the next odd id, unless closed |
| XhttpSession.XHTTPConnection.ReadStream | app/transport/xhttp.go:260-272 | a read between any steps of the read loop is the protocol's read event and the connection stays consistent |
| XhttpSession.XHTTPConnection.CloseStream | app/transport/xhttp.go:284-289 | marks the stream closed; the first close of an open connection sends one close frame |
| XhttpSession.XHTTPConnection.WriteStream | app/transport/xhttp.go:274-282 | one data frame goes out exactly when neither stream nor connection is closed |
| XhttpSession.XHTTPConnection.HandleData | app/transport/xhttp.go:179-209 | appends to its own stream only; an unknown even id opens one, an unknown odd id is dropped |
| XhttpSession.XHTTPConnection.HandleClose | app/transport/xhttp.go:211-227 | close and reset mark that stream closed and keep its data |
| XhttpSession.XHTTPConnection.WriteFrame | app/transport/xhttp.go:229-249 | the wire gets exactly the frame's encoding, nothing when closed |
| XhttpSession.XHTTPConnection.ReadLoop | app/transport/xhttp.go:139-177 | on any inbound bytes the loop ends with the streams and pongs that the complete frames give |
| XhttpWakeup.NoLostData | app/transport/xhttp.go:198-208 | in every interleaving a parked reader with data is notified or about to be, and no byte is lost |
| XhttpWakeup.ReaderTakes | app/transport/xhttp.go:260-272 | left alone, a reader that enters takes what fits of the oldest bytes |
| XhttpWakeup.ReaderEndsOrParks | app/transport/xhttp.go:263-268 | with nothing buffered it ends on a closed stream and parks on an open one |
| XhttpWakeup.SignalWakesOnce | app/transport/xhttp.go:267 | one signal wakes a parked reader once |
| XhttpWakeup.HandlerStores | app/transport/xhttp.go:205-208 | left alone, the handler stores the whole payload and notifies a parked reader |
| XhttpWakeup.CloseIsMissedExactlyWhenLate | app/transport/xhttp.go:211-289 | in every interleaving a reader sleeps through a close exactly when its signal fell between the reader's test and its Wait, or it was a local one, and no signal has followed |
| XhttpWakeup.CloseCanBeMissed | app/transport/xhttp.go:263-268 | a run in which the peer's close falls into that gap and nothing can step |
| XhttpWakeup.LocalCloseStrands | app/transport/xhttp.go:284-289 | a run in which local Close leaves a sleeping reader with nobody to wake it |
| DomainPattern.RewriteIsTranslate | app/route/router.go:102-103 | replacing the quoted star in the quoted pattern is the character-wise translation, backslashes included |
| DomainPattern.PatternMeaning | app/route/router.go:92-105 | every pattern compiles, and matches exactly the names it globs line by line, equals or is contained in |
| DomainPattern.FullPattern | app/route/router.go:93-98 | a `full:` pattern matches exactly the name equal to it, with or without `domain:` in front |
| DomainPattern.KeywordPattern | app/route/router.go:93-101 | a `keyword:` pattern matches exactly the names that contain it, with or without `domain:` in front |
| DomainPattern.GlobPattern | app/route/router.go:93-104 | any other pattern matches exactly the names it globs line by line, with or without `domain:` in front once |
| DomainPattern.PlainMeaningIffOneLine | app/route/router.go:103-104 | all patterns keep their plain meaning on a name exactly when it has no newline |
| DomainPattern.PlainMeaningIffFixed | app/route/router.go:92-105 | a pattern keeps its plain meaning on every name exactly when it is `full:`, `keyword:` or has no star |
| Ports.ParsePort | app/route/router.go:261-269 | the number spelled by the digits, modulo 2^16 |
| Ports.MatchPort | app/route/router.go:247-259 | empty matches all, exactly one dash is an inclusive range, anything else one number |
| Ports.DecimalPort | app/route/router.go:258-268 | a port printed in decimal matches itself only |
| Ports.DecimalRange | app/route/router.go:252-257 | a range printed in decimal matches exactly the ports from one end to the other |
| Ports.BlankPort | app/route/router.go:247-269 | blanks around a port do not matter |
| Ports.SpacedRange | app/route/router.go:247-269 | nor do blanks around a range or anything but digits and dashes around its dash |
| Ports.BlankMatchesAll | app/route/router.go:248-251 | a rule of blanks matches every port |
| Ports.TwoDashes | app/route/router.go:252-258 | with two dashes it is the one number that all its digits spell |
| Router.Router.CompileRules | app/route/router.go:40-90 | one compiled rule per configured rule, in order |
| Router.CompiledDomains | app/route/router.go:52-65 | some compiled expression matches exactly when some configured pattern has that meaning for the name |
| Router.CompiledIPs | app/route/router.go:67-86 | some compiled prefix contains the address exactly when some configured entry parses and does |
| Router.PlainAddressHits | app/route/router.go:74-84 | with containment by masked bytes, an entry without a slash hits exactly the address it names, in its 4-byte or 16-byte form |
| Router.Router.MatchRule | app/route/router.go:142-236 | the branching is one conjunction over the configured rule; domain and address lists bind only with their datum, and one must bind if either is given |
| Router.ConditionsAreJoined | app/route/router.go:142-236 | a rule matches exactly when each of its conditions does when it stands alone |
| Router.OneCondition | app/route/router.go:142-195 | each single condition asks for its own value of the context; a source address binds only when the context has one |
| Router.OneTarget | app/route/router.go:197-236 | a domain, an address or both: those the context can be held against must hit, and there must be one |
| Router.Router.SelectBalancer | app/route/router.go:238-245 | the first choice of the first balancer of that tag that has one, else direct |
| Router.Router.Route | app/route/router.go:120-140 | by the rules last compiled and the balancers last set: the target of the earliest matching rule that names one, else the first balancer's choice, else no route |
| Router.RouteIsDetermined | app/route/router.go:120-140 | configuration and context alone determine the outcome |
| Router.RoutedInFront | app/route/router.go:124-133 | a rule in front decides when it matches and names an outbound or else a balancer; otherwise the rest decides |
| Router.RoutedWithoutRules | app/route/router.go:135-139 | without rules the first balancer's tag is looked up, and without balancers there is no route |
| Router.SelectedInFront | app/route/router.go:238-245 | a balancer in front with the tag and a choice is taken, else the others are asked, else direct |
| Router.Router.SetConfig | app/route/router.go:296-298 | between the two critical sections of a reload routing goes by the old rules and the new balancers |
| Router.Router.ReloadConfig | app/route/router.go:295-300 | afterwards routing goes by the new configuration |
| WorkerPool.Conservation | app/core/worker.go:88-159 | in every interleaving each queued task is queued, held by one worker or done, none runs twice, and submitted minus completed is the workers between the two updates |
| WorkerPool.WorkerLimit | app/core/worker.go:161-176 | numWorkers never exceeds the initial number or four per CPU, whichever is more |
| WorkerPool.WorkersAreCounted | app/core/worker.go:119-127 | numWorkers is exactly the workers that have not exited idle, plus the one announced and not started; never negative |
| WorkerPool.SubmitAlone | app/core/worker.go:142-176 | a call by itself starts workers exactly when more than three quarters of the queue are taken, four at most and up to four per CPU, and queues its task last |
| WorkerPool.TaskAlone | app/core/worker.go:93-117 | a worker by itself runs the task it took once and accounts for it |
| WorkerPool.TimeoutAlone | app/core/worker.go:118-128 | an idle worker by itself leaves exactly when there are at least three and more than a quarter of the initial number |
| WorkerPool.NothingAfterStop | app/core/worker.go:142-145 | in every interleaving no call that enters after Stop queues its task |
| WorkerPool.NobodyGivesUpBeforeStop | app/core/worker.go:129-159 | in every interleaving workers and callers give up only after the context is cancelled, and that only after Stop |
| WorkerPool.FloorExactlyWhenNeverScaling | app/core/worker.go:119-173 | a pool keeps its minimum on every run exactly when it has no workers, or at most two and no queue or no CPU to scale up with |
| WorkerPool.FloorHoldsOneAtATime | app/core/worker.go:121-126 | every new pool keeps its minimum on runs where no two workers decide to exit at once |
| WorkerPool.FloorCanFail | app/core/worker.go:121-173 | every other pool with workers has a run to zero workers, if need be by scaling up first |
| DccpChecksum.ComputeChecksum | app/transport/dccp/packet.go:150-166 | the 32-bit accumulation and fold compute the complemented folded word sum, odd byte included |
| DccpChecksum.NoOverflowBound | app/transport/dccp/packet.go:151-158 | no data of a length overflows the accumulator exactly up to 131074 bytes |
| DccpChecksum.FoldIsMod | app/transport/dccp/packet.go:162-164 | folding keeps the sum modulo 65535 and is zero only for zero |
| DccpChecksum.RfcExample | app/transport/dccp/packet.go:150-166 | the worked example of section 3 of RFC 1071 |
| DccpChecksum.OddByte | app/transport/dccp/packet.go:157-160 | an odd last byte counts as if a zero followed it |
| DccpChecksum.StoredChecksum | app/transport/dccp/packet.go:65-66 | storing the checksum in its field makes the whole check to 0 exactly when the field held a one's-complement zero |
| DccpChecksum.WordChangeDetected | app/transport/dccp/packet.go:150-166 | changing one word changes the checksum, except between the two zeros in otherwise non-zero data |
| DccpPacket.EncodePacket | app/transport/dccp/packet.go:22-69 | the array holds the packet's bytes for any option lengths, and the slice panics are exactly the stated ones |
| DccpPacket.ParseLoop | app/transport/dccp/packet.go:119-148 | on any bytes the loop advances and gives the options, consumed length and error of the grammar |
| DccpPacket.BadOption | app/transport/dccp/packet.go:125-142 | after any options a length below two is an error; one that runs past the end, or a type alone, ends the list there |
| DccpPacket.DecodePacket | app/transport/dccp/packet.go:71-117 | the result or error of the grammar, with the caller's bytes put back unchanged |
| DccpPacket.Layout | app/transport/dccp/packet.go:35-63 | byte by byte: header, upper half of an extended sequence number, options, padding, payload |
| DccpPacket.HeaderBytes | app/transport/dccp/packet.go:38-44 | the eight fixed bytes one by one, ports and checksum big-endian |
| DccpPacket.HeaderSurvives | app/transport/dccp/packet.go:76-94 | ports, CCVal, type and flag come back, and of the sequence number the upper 32 bits |
| DccpPacket.RoundTrip | app/transport/dccp/packet.go:22-117 | for any options the encoder accepts, decoding gives the options and payload exactly when each length counts its data, no type is 0 and they take at most 48 padded bytes; and then the header |
| DccpPacket.EncodedPacketChecks | app/transport/dccp/packet.go:44-66 | for any options the encoder accepts, the encoded packet checks to 0 exactly when the given checksum field is 0 or 0xFFFF |
| Ccid.EstimatorBounds | app/transport/dccp/congestion.go:129-139 | after any samples the mean lies between the extremes and the deviation is at most the larger of half the largest and their spread |
| Ccid.FirstSample | app/transport/dccp/congestion.go:129-131 | the first sample is the mean and half of it the deviation |
| Ccid.SampleMoves | app/transport/dccp/congestion.go:132-139 | up to rounding a sample moves the mean one eighth of the way to it, and the deviation one quarter of the way to its distance |
| Ccid.EqualSamplesConverge | app/transport/dccp/congestion.go:129-139 | n equal samples bring the mean to within 7 ns of (7/8)^n of its distance |
| Ccid.EstimateFollowsSamples | app/transport/dccp/congestion.go:114-150 | on every run the estimate depends on the acknowledged samples alone |
| Ccid.BackedOff | app/transport/dccp/congestion.go:152-160 | the timeout times two to the back-off, six at most |
| Ccid.Ccid2CC.OnPacketLost | app/transport/dccp/congestion.go:97-112 | halves the window, at least one packet, and backs the timeout off |
| Ccid.Ccid2CC.OnPacketAcked | app/transport/dccp/congestion.go:114-150 | updates estimate, timeout, extremes, pipe and window, and keeps the window safe |
| Ccid.NewWindowSafe2 | app/transport/dccp/congestion.go:97-150 | on every run the window is between 1 and 2 plus the acknowledgements, the threshold at least 2 |
| Ccid.LossHalves | app/transport/dccp/congestion.go:97-112 | on every run a loss halves a window of at least two and leaves a smaller one at one; the threshold is half the old window, at least two |
| Ccid.LossesDivide | app/transport/dccp/congestion.go:97-112 | k losses divide a window of at least 2^k by 2^k |
| Ccid.SlowStartAddsOne | app/transport/dccp/congestion.go:145-146 | below the threshold n acknowledgements add n |
| Ccid.PipeIsOutstanding | app/transport/dccp/congestion.go:90-119 | on every run of a sender that hears only about its own packets the pipe is the number outstanding |
| Ccid.ResetRestarts2 | app/transport/dccp/congestion.go:169-178 | on every run Reset gives a window of two and a second's timeout with nothing in flight, and keeps the estimate |
| Ccid.ExtremesOfSamples2 | app/transport/dccp/congestion.go:122-127 | on every run the recorded extremes are those of the samples |
| Ccid.AckSetsTimeout2 | app/transport/dccp/congestion.go:140-143 | on every run an acknowledgement sets the larger of 200 ms and mean plus four deviations |
| Ccid.SquareRootLaw | app/transport/dccp/congestion.go:145-149 | n acknowledgements in avoidance add between 2n and 3n to the square of the window |
| Ccid.TimeoutBounds2 | app/transport/dccp/congestion.go:140-143 | on every run an acknowledgement sets a timeout between 200 ms and the larger of that and five times the largest sample |
| Ccid.LossesBackOff | app/transport/dccp/congestion.go:103-108 | k losses multiply the timeout by two to the power 1 + 2 + ... , each term at most six |
| Ccid.NinthLossOverflows | app/transport/dccp/congestion.go:103-108 | from a new control the timeout fits 64 bits exactly up to eight losses in a row |
| Ccid.BackoffCountsLosses | app/transport/dccp/congestion.go:97-150 | on every run without Reset the back-off is the number of losses, whatever was acknowledged |
| Ccid.Ccid4CC.OnPacketLost | app/transport/dccp/congestion.go:327-334 | the window shrinks to seven tenths, at least two |
| Ccid.Ccid4CC.OnPacketAcked | app/transport/dccp/congestion.go:336-375 | updates estimate, timeout, count and the capped window |
| Ccid.WindowDiscipline4 | app/transport/dccp/congestion.go:321-402 | on every run of a sender that asks first, resets included, the in-flight count is exact, the limit is the window's whole part, 2 to 1000, and at most 1000 packets are out |
| Ccid.GrowthLaw4 | app/transport/dccp/congestion.go:364-371 | below the threshold n acknowledgements multiply the window by 1.5^n, up to 1000 |
| Ccid.LinearLaw4 | app/transport/dccp/congestion.go:364-371 | from the threshold on each adds half a packet, up to 1000 |
| Ccid.AlwaysMultiplies4 | app/transport/dccp/congestion.go:327-371 | nothing lowers the threshold, so on every run of a new control an acknowledgement multiplies and the linear step is never taken |
| Ccid.LossLaw4 | app/transport/dccp/congestion.go:327-334 | k losses multiply the window by 0.7^k, down to two |
| Ccid.BackoffFollows4 | app/transport/dccp/congestion.go:327-375 | on every run the back-off is the losses since the last acknowledgement or reset |
| Ccid.ResetRestarts4 | app/transport/dccp/congestion.go:393-402 | on every run Reset gives a window of ten and a second's timeout with nothing in flight, and keeps the estimate |
| Ccid.ExtremesOfSamples4 | app/transport/dccp/congestion.go:344-349 | on every run the recorded extremes are those of the samples |
| Ccid.AckSetsTimeout4 | app/transport/dccp/congestion.go:373-374 | on every run an acknowledgement sets half the mean plus four deviations and clears the back-off |
| Ccid.EstimateFollowsSamples4 | app/transport/dccp/congestion.go:336-402 | on every run, resets included, the estimate depends on the samples taken alone and the timeout is one second or follows it |
| Ccid.TimeoutBounds4 | app/transport/dccp/congestion.go:321-402 | at any time of any run the timeout is one second or bounded by the samples taken so far |
| Ccid.AckBoundsTimeout4 | app/transport/dccp/congestion.go:352-373 | on every run an acknowledgement sets a timeout bounded by the samples so far |
| Sni.ExtractSNI | app/common/protocol/protocol.go:130-185 | on any bytes every index is in range, the loop ends, and the result is that of the nested grammar |
| Sni.ExtractUndoesPrint | app/common/protocol/protocol.go:130-185 | for any ClientHello with a server name extension after others, the first host name exactly when its list is shorter than 256 bytes, else nothing |
| Sni.ExtensionDecides | app/common/protocol/protocol.go:163-181 | whatever the first server name extension holds, its own bytes decide what name is found |
| Sni.NoExtensionNoName | app/common/protocol/protocol.go:158-185 | a ClientHello without such an extension has no name |
| Sni.NotHello | app/common/protocol/protocol.go:130-142 | nor has anything but a whole ClientHello |
| Sni.Sniff | app/common/protocol/protocol.go:37-48 | the first sniffer that recognises the bytes decides |
| Sni.HttpIsSniffed | app/common/protocol/protocol.go:89-103 | HTTP exactly when the data begins with one of the eight methods |
| Sni.DnsIsSniffed | app/common/protocol/protocol.go:119-128 | what is neither a method nor a record is DNS exactly when twelve bytes are there, the query bit is clear and the code is zero |
| Sni.OtherRecords | app/common/protocol/protocol.go:105-117 | a record of another version, or cut off, is not TLS |
| Sni.RecordIsSniffed | app/common/protocol/protocol.go:105-128 | a handshake record of any length is taken as TLS exactly when a byte follows it; otherwise it is DNS or unknown, by its length |
| Sni.ClientHelloIsSniffed | app/common/protocol/protocol.go:37-185 | a ClientHello record with a byte after it yields its host name |
| Bbr.RingPutRecent | app/transport/bbr/bbr.go:188-204 | writing a ring slot and moving on keeps the ring equal to the window of the last samples |
| Bbr.RateTimesSeconds | app/transport/bbr/bbr.go:438-443 | a rate sample times the seconds is the size, and infinite exactly at zero time |
| Bbr.BBR.UpdateBWFilter | app/transport/bbr/bbr.go:188-200 | afterwards bwMax is the maximum of the last bwFilterLen rate samples, and bw of all since Reset |
| Bbr.BBR.UpdateMinRTTFilter | app/transport/bbr/bbr.go:202-211 | afterwards minRTT is the minimum of one hour and the last minRTTLen samples |
| Bbr.BBR.UpdatePacingRate | app/transport/bbr/bbr.go:224-231 | the pacing rate becomes the larger of itself and bandwidth times gain times segment size; it never falls |
| Bbr.BBR.UpdateCWND | app/transport/bbr/bbr.go:233-252 | in Startup the window grows by its gain up to gain times what the path holds, in Drain it is what the path holds, in ProbeRTT the initial window; always between that and 600 |
| Bbr.BBR.AdvanceMode | app/transport/bbr/bbr.go:254-293 | the next mode of each mode; Startup is left only for Drain, after three consecutive acks whose latest rate equals the maximum |
| Bbr.BBR.OnPacketLost | app/transport/bbr/bbr.go:395-422 | a loss multiplies the window by 0.8, or by alpha or beta in the later generations, alpha when marked packets exceed their share; never below the initial window |
| Bbr.BBR.OnPacketAcked | app/transport/bbr/bbr.go:424-449 | records the samples, keeps filters, window and mode order, and drains only after three agreeing Startup acks; window and pacing rate move as UpdateCWND and UpdatePacingRate say, one packet less is in flight; never leaves ProbeRTT |
| Bbr.BBR.OnRTTUpdate | app/transport/bbr/bbr.go:451-463 | records the sample and enters ProbeRTT exactly when the minimum is positive |
| Bbr.BBR.Reset | app/transport/bbr/bbr.go:495-510 | returns to Startup, its gains and the initial window and keeps the filters' samples |
| Kcp.HeaderRoundTrip | app/transport/mkcp.go:299-308 | all header fields come back |
| Kcp.HeaderBytes | app/transport/mkcp.go:299-308 | the header byte by byte, little-endian |
| Kcp.ParseEncoded | app/transport/mkcp.go:316-346 | parsing any encoded segments back to back gives exactly them |
| Kcp.ParseCutOff | app/transport/mkcp.go:316-335 | less than a header behind the segments is left alone, a header whose data is cut off is a panic |
| Kcp.PushAndWindow | app/transport/mkcp.go:336-343 | only PUSH segments are queued, and the last WINS segment sets the window |
| Kcp.EncodingsCarryData | app/transport/mkcp.go:299-346 | the encodings of PUSH segments, laid back to back, parse to their data in order |
| Kcp.FlushKeepsOnlyTheLast | app/transport/mkcp.go:244-260 | after segments are encoded one after another at the buffer's front, some part of the buffer parses to all of them exactly when there is at most one |
| Kcp.SecondOverwritesFirst | app/transport/mkcp.go:244-260 | after two one-byte segments the buffer parses to the second and nothing of it to both |
| Kcp.KCPState.Send | app/transport/mkcp.go:164-181 | queued data grows by exactly the buffer, in the fewest segments that fit |
| Kcp.KCPState.Update | app/transport/mkcp.go:183-202 | flushes exactly when due; numbers, order and data are kept, and the buffer carries what was flushed exactly when one segment or none was queued |
| Kcp.FirstFlushDue | app/transport/mkcp.go:183-202 | the first flush is due 100 ms after the first update |
| Kcp.NextFlushDue | app/transport/mkcp.go:183-202 | after a flush that came so late, modulo the interval, the next is due that much later again, over any updates in between |
| Kcp.KCPState.CheckProbe | app/transport/mkcp.go:208-227 | the probe flag is never raised |
| Kcp.KCPState.Flush | app/transport/mkcp.go:204-297 | moves the whole queue to the send buffer, segment i numbered i modulo 2^32, each encoded once, with this moment's time and window, and over the one before: the bytes left in the buffer, which carry all of them exactly when at most one was queued |
| Kcp.KCPState.EncodeSegment | app/transport/mkcp.go:299-314 | the buffer starts with the segment's bytes when they fit and keeps what stood behind them |
| Kcp.KCPState.Input | app/transport/mkcp.go:316-346 | queues exactly the PUSH segments, takes the last announced window, and panics exactly when a length runs past the array |
| Kcp.KCPState.Recv | app/transport/mkcp.go:147-162 | the first whole segments that fit, up to the first that does not, all exactly when they fit; the rest of the buffer is untouched and the queue is forgotten |
| Kcp.KCPState.EncodingsCarrySent | app/transport/mkcp.go:164-346 | codec round trip: once the queue is flushed, the encodings of the send buffer, laid back to back, parse to exactly the bytes passed to Send |
| Kcp.KCPState.InputThenRecv | app/transport/mkcp.go:147-346 | Input of the back-to-back encodings into an empty receiver, then Recv, gives the bytes passed to Send exactly when they fit |
| Grpc.Transparent | app/transport/grpc.go:67-160 | bytes read then pending are bytes pending before then written, over every run |
| Grpc.ByteTransparency | app/transport/grpc.go:67-160 | reads are a prefix of the writes, and all of them exactly when a read would wait |
| Grpc.ReadGives | app/transport/grpc.go:67-114 | a read that does not wait gives as many bytes as fit of what is left of the current frame, or else of the next |
| Grpc.ReadAdvances | app/transport/grpc.go:67-114 | on every run such a read of at least one byte gives some |
| Grpc.FramesSize | app/transport/grpc.go:116-160 | chunks of 65536 bytes and one rest, five bytes in front of each |
| Grpc.FrameBytes | app/transport/grpc.go:135-145 | a big-endian length, a zero byte, the chunk |
| Grpc.GRPCConn.Write | app/transport/grpc.go:116-160 | the wire gets the chunked frames of the bytes and the oversized fallback is never needed |
| Grpc.GRPCConn.Read | app/transport/grpc.go:67-114 | left-over bytes first, else the next frame; the position invariant always holds |

## Left out

- Shutting down a whole mux or XHTTP session, which its read loop starts and then blocks on, and keep-alive pings.
- The XHTTP accept queue and the buffered reader and writer: the connection is modelled as one byte pipe.
- The contents of `regexp:` rules, address parsing and prefix containment: parameters of the router model.
- Character encodings of names and patterns: strings of characters, with no invalid UTF-8.
- WorkerPool.Resize, which sets the counter without ending a worker, and the helpers built on top of the pool.
- WorkerPool.Conservation: the results channel, a negative initial number of workers and 32-bit wrap-around of the counters are not modelled.
- The DCCP handshake and transports, and ReadFullDCCPPacket, which stops at the end of the options.
- CCID 3: its rate comes from a throughput equation with square roots in floating point and from the time of day.
- Ccid.WindowDiscipline4: acknowledgements of packets sent before a Reset; the modelled sender gives those packets up.
- Ccid.NewWindowSafe2: floating-point rounding and the 64-bit range of durations are not modelled; the same holds for the other window and timeout results.
- Bbr.BBR.OnPacketAcked: byte and packet counters that nothing reads are left out, and a configuration with zero gains or sizes is excluded.
- Kcp.KCPState.Flush: the acknowledgement and probe segments, which it never has any to encode.
- The mKCP connection around the state, whose loops call Input and Update and send nothing.
- GRPC and mKCP dialing, listening, deadlines, and the concurrent use of their state by several goroutines.
- Obfuscators, VMess, VLESS, Trojan, Shadowsocks, TLS disguises, QUIC, WebSocket, dual-stack dialing, configuration files, command line and platform code.
