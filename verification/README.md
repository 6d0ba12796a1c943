# NetISDN, verified

A model of NetISDN, an audio-over-IP codec with its own RTP and RTCP packets, a playout buffer and a small
call server, with proofs about it in Dafny. `dafny verify dfyconfig.toml` checks everything.

The program's objects are classes whose methods follow the source's loops and branches; each is proved against
a function on values, and what the program promises is proved of those functions over every input and every run,
in terms of fields, octets and lines that do not name them.

| files | part of the program |
|---|---|
| `RingBuffer`, `SharedRing` | the ring between network and sound card, used by one thread and by two |
| `Receiver`, `Stream`, `MeterAverage`, `Playout`, `PhaseLock` | packet order and loss, a sender against a receiver, muting and playing, the phase-locked loop |
| `Datagram`, `Delivery` | octets of sound on their way, from one codec's send log to the other's sound card |
| `Codec`, `Rtcp`, `Report`, `Gpio` | the codec object, its reports, what they tell, and its control lines |
| `Wire`, `RtpHeader`, `ReceptionBlock`, `SenderReport`, `SourceDescription`, `Bye`, `ControlHeader`, `Layout` | RTP and RTCP packets, sections 5.1 and 6.1 to 6.6 of RFC 3550 |
| `Calls`, `Ports`, `CallRuns`, `Commands`, `Protocol`, `Server` | the call server: its map, runs of it, what each line does, in functions and in plain terms, and its object |
| `Text`, `AudioSettings`, `Negotiation` | the control protocol and what two clients agree on |
| `Base64`, `Encoder` | base64 and the cutting of MPEG into packets |
| `Words`, `Options`, `Bits`, `Runs` | machine words, values that may be missing, masks, runs of state machines |

## What holds, and what does not

Results that a reader of the source or its documentation might not expect, each with its exact condition:

- The ring is safe between two threads exactly when no read of a byte or more takes its snapshot between the writer's
  `+=` and `&=` at the end of the buffer while the read pointer is at its start (`SharedRing.SafeExactly`). With both
  in one store every interleaving is safe.
- A loss-free stream loses the frame at every 16-bit wrap and counts it as lost (`Streams.WholeStream`): the
  next number is computed as an int, so 65536 never arrives.
- The reported loss fraction stays at most one half exactly as long as every late packet finds room for one more
  loss, and every rollover for all so far, among the packets expected (`Receiver.HalfLostExactly`). Without late
  packets and rollovers it always does; one of either can be enough to report everything lost.
- On the wire the padding bit collides with the packet count, the extension bit with the source count, and the
  loss fields keep four and eleven bits, all narrower than RFC 3550; the source of a description is read from the
  wrong word. The round trips say exactly what comes back.
- A call is sound, its two sides matched and able to go one by one, exactly when the caller is idle, is not the
  callee, the callee has logged in, and neither is already closed (`Calls.SetUpExact`, `CallRuns.RunSoundExactly`).
  The server tests none of these. The client's guard (netisdn/netisdn.cpp:512-524) looks at the client's own codec,
  which may lag behind the server, so it does not establish the first either.
- Ports at a public address stay apart exactly when the two that a call finds fit there (`Ports.SetUpUniqueExact`,
  `CallRuns.RunPortsExactly`). They fit between different addresses and between clients whose own address is the
  public one; they never fit between two clients behind one address whose own addresses are nobody's public one.
- Negotiation agrees on everything but the caller's own receiving bit rate from 2^31 up, which is printed signed
  (`Negotiation.Agreement`), and, through the accessors, on a caller that transmits nothing (`AccessorsAgree`).
- A failing encoder silently shortens what is pending, unless it fails by more than that (`Encoders.TurnConserves`).

## Model

| member | source | states |
|---|---|---|
| RingBuffers.RingBuffer.constructor | lib/ringbuffer.cpp:37-52 | the size is a power of two, at least two and at least what was asked, and less than twice that; the ring starts empty |
| RingBuffers.RingBuffer.WriteSpace | lib/ringbuffer.cpp:101-114 | free room plus contents is always one less than the size |
| RingBuffers.RingBuffer.ReadSpace | lib/ringbuffer.cpp:117-128 | exactly the number of unread bytes |
| RingBuffers.RingBuffer.Split | lib/ringbuffer.cpp:138-146 | a transfer splits where it meets the end: the parts add up, stay inside, and the second starts the buffer |
| RingBuffers.RingBuffer.ReadAdvance | lib/ringbuffer.cpp:94-98 | drops exactly that many of the oldest bytes; the pointer moves modulo the size |
| RingBuffers.RingBuffer.WriteAdvance | lib/ringbuffer.cpp:87-91 | publishes exactly the cells passed, behind what was there |
| RingBuffers.RingBuffer.Read | lib/ringbuffer.cpp:131-165 | takes the longest available prefix of the queue, up to the count; touches nothing else of the destination |
| RingBuffers.RingBuffer.Write | lib/ringbuffer.cpp:168-202 | appends the longest prefix that fits in size-1 and returns its length |
| RingBuffers.RingBuffer.GetReadVector | lib/ringbuffer.cpp:205-240 | the two stretches, one after the other, are exactly the unread bytes |
| RingBuffers.RingBuffer.GetWriteVector | lib/ringbuffer.cpp:243-276 | the two stretches are exactly the free cells, in the order in which they will be read |
| RingBuffers.RingBuffer.Reset | lib/ringbuffer.cpp:80-84 | empties the queue |
| SharedRing.WriterAvoidsUnread | lib/ringbuffer.cpp:184-200 | in every reachable interleaving the cell about to be written holds no unread byte |
| SharedRing.ReaderSeesComplete | lib/ringbuffer.cpp:147-163 | the byte about to be read was published, and is the next in order |
| SharedRing.NextKeepsInv | lib/ringbuffer.cpp:131-202 | every step of either thread, down to single bytes and to `+=` apart from `&=`, keeps the invariant unless a read starts on a stale snapshot |
| SharedRing.BeginReadExact | lib/ringbuffer.cpp:117-139 | starting a read keeps the invariant exactly when it does not, asking for a byte or more, find the write pointer unmasked at the end and the read pointer at the start |
| SharedRing.StaleReadIsUnsafe | lib/ringbuffer.cpp:117-163 | at any size and in any state: a read that starts on such a snapshot takes, with its first byte, one that was never published |
| SharedRing.ReadSafeExactly | lib/ringbuffer.cpp:117-163 | starting a read and taking its first byte is safe exactly when the snapshot is not such a one |
| SharedRing.RunSafe | lib/ringbuffer.cpp:131-202 | over every interleaving without such a read, what was read is, in order, a prefix of what write() accepted, each byte published first |
| SharedRing.SafeExactly | lib/ringbuffer.cpp:131-202 | an interleaving is safe throughout, the reader's next step included, exactly when no read starts on such a snapshot |
| SharedRing.OneStepPublishIsSafe | lib/ringbuffer.cpp:185-198 | if adding and masking are one store, every interleaving is safe |
| SharedRing.FromTheStart | lib/ringbuffer.cpp:37-52 | the same from the constructed ring |
| SharedRing.NeverStuck | lib/ringbuffer.cpp:131-202 | a call under way always has a next step |
| SharedRing.StaleSnapshotBreaksTheRing | lib/ringbuffer.cpp:117-128 | a run from the start: on two cells the reader gets four bytes of the two written |
| MeterAverages.MeterAverage.Average | lib/meteraverage.cpp:33-39 | the mean of the queue, zero when it is empty |
| MeterAverages.MeterAverage.AddValue | lib/meteraverage.cpp:42-51 | the queue is the last maxsize values, and the running total is their sum |
| MeterAverages.MeterAverage.Preset | lib/meteraverage.cpp:54-63 | maxsize equal values and their sum |
| MeterAverages.AddAllKeepsTheLast | lib/meteraverage.cpp:42-51 | adding any values one at a time leaves the last maxsize of all ever added |
| MeterAverages.MeanBounded | lib/meteraverage.cpp:33-39 | the mean of values within a bound is within it |
| Receiver.ReceiveByKind | lib/codec.cpp:177-220 | each of six kinds of packet has one effect; at 65535 none is in order, and a jump back over 0xff00 is a loss that resynchronises |
| Receiver.RepeatOneExact | lib/codec.cpp:177-220 | n copies of a packet leave the receiver as one does exactly when it was not late (or the counters went round); the frames are those of one copy |
| Receiver.RedundancyIsTransparent | lib/codec.cpp:84-88 | repeating packets any number of times in a row, over any stream, delivers the same frames and, when none is late, the same receiver, counters included |
| Receiver.FramesJoin | lib/codec.cpp:162-252 | frames delivered over a run are those of its parts, one after the other |
| Receiver.ReportsDoNotDisturb | lib/codec.cpp:1596-1612 | reports sent in between change neither the frames delivered nor the numbers nor the losses |
| Receiver.ObserveKeepsConsistent | lib/codec.cpp:177-220 | every packet and every report keeps the accounting, and the extended number does not go down within a source |
| Receiver.RunConsistent | lib/codec.cpp:177-220 | over every arrival order with reports between: delivered extended numbers strictly increase, last<=lo, received = delivered + duplicates + lost, and reported intervals plus the current one are the losses (modulo 2^32) |
| Receiver.FreshIsConsistent | lib/codec.cpp:1718-1727 | the accounting holds for a receiver just set up |
| Receiver.ExtendedNumberExact | lib/codec.cpp:194-200 | within a source the 32-bit number goes down exactly when its upper half overflows |
| Receiver.AffordableExact | lib/codec.cpp:177-220 | an event keeps the bound exactly when, read off the state before it, a late packet leaves room for one more loss, or a rollover's number for all losses so far and its own; no other event breaks it |
| Receiver.HalfLostExactly | lib/codec.cpp:177-220 | over any run in any order, with reports anywhere: the bound always holds exactly when every event was so when it came |
| Receiver.ForwardRunLosesAtMostHalf | lib/codec.cpp:1596-1612 | in particular it holds over every run without late packets and rollovers |
| Receiver.LatePacketReportsAllLost | lib/codec.cpp:178-183 | a run where one late packet breaks it |
| Receiver.RolloverReportsAllLost | lib/codec.cpp:194-200 | three consecutive packets across a rollover break it |
| Streams.AfterStep | lib/codec.cpp:177-200 | the closed form of the receiver after n packets holds across a wrap and elsewhere |
| Streams.FollowsOn | lib/codec.cpp:177-220 | a loss-free continuation of any length ends in the closed form, delivers all but the frames at wraps, and has no late packet |
| Streams.ButWrapsCount | lib/rtpheader.cpp:291-296 | exactly as many frames are left out as the number wraps |
| Streams.WholeStream | lib/rtpheader.cpp:291-296 | a new source from any first number: which frames are delivered, and every field of the receiver at the end |
| Streams.SourceZero | lib/codec.cpp:177-220 | a fresh receiver takes source zero for the one it knows: the first frame is lost too unless it is number one |
| Streams.ExtendedNumberOfStream | lib/codec.cpp:194-200 | the extended number ends at start+n-1 modulo 2^32 counted on from earlier rollovers; exactly so, without overflow, iff there were none |
| Streams.RedundantStream | lib/codec.cpp:84-88 | the same with each packet sent any number of times |
| Playouts.TakeAllGains | lib/codec.cpp:162-252 | taking datagrams only appends to the ring |
| Playouts.CallbackConserves | lib/codec.cpp:123-325 | a callback plays from the front of the ring what it removes, and nothing else changes hands |
| Playouts.RunConserves | lib/codec.cpp:123-325 | over any run all unmuted output, then the ring, is the ring at the start, then all bytes it accepted |
| Playouts.PlaysExactly | lib/codec.cpp:255-322 | a callback sounds exactly when the ring covers it and, unless locked, the setpoint; sounding is locking; how long and which bytes |
| Playouts.StaysUnmuted | lib/codec.cpp:285-322 | while locked, output does not stop before the ring is used up, should nothing arrive |
| Playouts.LockLastsSetpoint | lib/codec.cpp:261-317 | from the callback that locks on, output is unmuted for as many callbacks as the setpoint (and at least that one) |
| Playouts.StarvesExactly | lib/codec.cpp:285-322 | with a silent network the lock lasts exactly while whole blocks remain |
| Playouts.OffsetStaysBounded | lib/codec.cpp:226-280 | over any run the loop offset stays within 400 |
| Playouts.PresetIsBounded | lib/codec.cpp:1735 | the preset loop is within it |
| Playouts.RatioStaysBounded | lib/codec.cpp:239-241 | the resampling ratio stays within (rate-400)/rate and (rate+400)/rate |
| Playouts.WindowIsLastSteps | lib/codec.cpp:273-280 | the loop holds the last 500 detector steps of the run |
| PhaseLocks.DatagramTaken | lib/codec.cpp:162-252 | one datagram: exactly which ones set the offset to the mean and put into the ring what fits of their sound |
| PhaseLocks.OffsetFollowsMean | lib/codec.cpp:226-241 | after any datagrams the offset is the mean if a frame was decoded, and each was resampled with it |
| PhaseLocks.DetectorStep | lib/codec.cpp:255-280 | a callback adds one step unless it fills the ring before sound: 400 exactly when the ring holds less than the setpoint, else -400 |
| PhaseLocks.LoopPullsBack | lib/codec.cpp:226-280 | after 500 callbacks all below the setpoint every frame is resampled at (rate+400)/rate, more than one; all at or above, at (rate-400)/rate, less than one |
| PhaseLocks.LoopbackOnlyMutes | lib/codec.cpp:142-156 | in loopback a datagram only silences the output and loses the lock |
| Playouts.PiecesAccepted | lib/codec.cpp:162-252 | what the ring accepts over a run is, input by input, the pieces it took |
| Playouts.AllInputsArrived | lib/codec.cpp:177-235 | what is decoded over a run are the frames the receiver delivers that are not empty, in order |
| Playouts.AllInputsBounded | lib/codec.cpp:226-241 | each is resampled with an offset within one integrator step |
| Playouts.PiecesAreSounds | lib/codec.cpp:226-252 | for any decoder with a state of its own, the ring takes the beginning of each sound, and all of each exactly when it has room |
| Playouts.RunPieces | lib/codec.cpp:123-325 | the same over any run of callbacks |
| Playouts.SentIsHeard | lib/codec.cpp:84-88 | end to end, for any decoder and resampler with a state of their own: a stream, each packet repeated at will, over any callbacks: output and ring are what the ring had room for of the sound of every frame sent but those at wraps, and all of it exactly when it always had room |
| Codecs.Codec.constructor | lib/codec.cpp:328-382 | a connection starts with a fresh receiver, an empty ring, an empty log and a header at a random number |
| Codecs.Codec.ClearReceiver | lib/codec.cpp:1718-1735 | the receive side as the streams start |
| Codecs.Codec.ReceivePacket | lib/codec.cpp:177-220 | the field updates are the receiver function, and the frame is kept exactly when it is accepted |
| Codecs.Codec.ReceiveDatagram | lib/codec.cpp:164-252 | one datagram: order, loop offset, ring |
| Codecs.Codec.ReceiveOctets | lib/codec.cpp:164-252 | the same from the words of the receive buffer: the header is read, the rest of what was received is the frame, a runt is ignored |
| Codecs.Codec.FillRing | lib/codec.cpp:162-252 | all datagrams waiting, in order |
| Codecs.Codec.Silence | lib/codec.cpp:1573-1582 | the buffer is all zero and the lock is lost |
| Codecs.Codec.Play | lib/codec.cpp:255-324 | prefill, phase detector and output act as the playout function; the buffer holds the bytes played or zeros |
| Codecs.Codec.AudioOutputCallback | lib/codec.cpp:123-325 | the whole callback is the playout function; in loopback the datagrams go back and nothing is received |
| Datagrams.SentAppend | lib/codec.cpp:1324-1335 | one more frame extends the stream by one datagram, whose header has the next number and time |
| Datagrams.RedundantAppend | lib/codec.cpp:84-88 | and the log by as many copies |
| Datagrams.DatagramRoundTrip | lib/codec.cpp:162-177 | the octets of a header with fewer than eight sources and a frame, in whatever buffer they arrive, are taken for the packet of that source, number and frame |
| Datagrams.FrameOfArrival | lib/rtpheader.cpp:307-336 | where the frame of any datagram starts, and that a header longer than what was received counts for nothing |
| Datagrams.StreamUnpacked | lib/codec.cpp:84-88 | so the datagrams of a stream, each sent any number of times, arrive as its packets, as often |
| Deliveries.CarriedSizes | lib/codec.cpp:164 | none that is sent is short enough to be ignored |
| Deliveries.OctetsAreHeard | lib/codec.cpp:66-325 | octets to sound: the datagrams one codec logs, arriving whole and in order, are heard by the other as in `Playouts.SentIsHeard` |
| Codecs.Codec.EncodeFrame | lib/codec.cpp:1321-1339 | one frame: the octets are those of the header as it stands and of the frame; the header moves on; the counters count it |
| Codecs.Codec.SendCopies | lib/codec.cpp:85-88 | as many copies as the stream ratio says |
| Codecs.Codec.AudioInputCallback | lib/codec.cpp:66-90 | the log of octets stays the redundant stream of all frames produced, and the counters count them; nothing is sent in loopback |
| Codecs.Codec.SendGpio | lib/codec.cpp:656-673 | that line is set and no other changes |
| Codecs.Codec.ReadPrivateSourceChunk | lib/codec.cpp:1833-1856 | the received mask and the changes told are those of the chunk |
| Codecs.Codec.BuildReport | lib/codec.cpp:1590-1612 | the sender report with the reception block that is due |
| Codecs.Codec.EndInterval | lib/codec.cpp:1610-1611 | a reported interval is cleared and no other |
| Codecs.Codec.GenerateRtcpPacket | lib/codec.cpp:1585-1639 | the words are the report and the description, compounded; read back they tell the fields of this object; the interval ends |
| Codecs.Codec.GenerateLastPacket | lib/codec.cpp:621-624 | the words of the report and of a BYE |
| Codecs.Codec.Disconnect | lib/codec.cpp:605-653 | nothing when there is no connection; else the last report ends in a BYE, and lock, rollovers and stream ratio are reset |
| Codecs.Codec.ReadChunks | lib/codec.cpp:828-867 | each private chunk is heeded in order and its changes told |
| Codecs.Codec.HearBye | lib/codec.cpp:883-899 | a BYE ends the connection, with an answer if there was one, and clears all counts but the first packet count |
| Codecs.Codec.RtcpReceiveData | lib/codec.cpp:815-903 | lines, changes told, receiver counts, connection and the words that answer a BYE, after any compound packet |
| Rtcp.PartsWords | lib/codec.cpp:1585-1639 | both are compound packets that can be sent: the report with a full block is 13 words, the description at most 133 |
| Rtcp.WordsSplit | lib/codec.cpp:1585-1639 | a report is its two packets and the last one that and a BYE, at most 146 and 148 words |
| Rtcp.ReportReachesPeer | lib/codec.cpp:815-903 | walking the words recovers the sender part (losses narrowed), every chunk and the BYE, and the peer takes over the sender's lines |
| PeerReports.PeerReads | lib/codec.cpp:1585-1639 | what the peer reads from the words, field by field: counts and times of the sender; a block exactly when lo>last, with the interval's fraction and all losses narrowed, the extended number and the last report's time; name, lines, BYE |
| PeerReports.ReportHeard | lib/codec.cpp:868-900 | what hearing that changes: the first packet count, the time, and after a BYE everything but that count |
| PeerReports.ReportEndsInterval | lib/codec.cpp:1610-1611 | a report with a block clears the interval's losses and moves the last number up; nothing else changes |
| PeerReports.NothingNewNoBlock | lib/codec.cpp:1596-1611 | a report that follows another with no packet between has no block |
| PeerReports.ReportsCover | lib/codec.cpp:1596-1611 | over any run, all packets reported as expected, with those to report, are the numbers gone up by, but for those forgotten at rollovers and new sources |
| PeerReports.ReportsCoverSource | lib/codec.cpp:1596-1611 | in one source without rollovers they are lo-start |
| PeerReports.ReportsTellLosses | lib/codec.cpp:1596-1611 | and the losses reported, with those to report, are the change of all losses |
| PeerReports.FractionInBlock | lib/codec.cpp:1601-1603 | the fraction in a block is the interval's losses over the packets expected, at most one half exactly as `HalfLostExactly` says |
| PeerReports.BlocksTellAtMostHalf | lib/codec.cpp:1601-1603 | over a run of affordable events no block tells more than one half |
| PeerReports.UnaffordableTellsMore | lib/codec.cpp:1601-1603 | and after one that is not affordable a block tells more |
| Gpio.MaskRoundTrip | lib/codec.cpp:1619-1628 | every mask survives its chunk, and a recognised chunk is the chunk of the mask read |
| Gpio.OneChangeEach | lib/codec.cpp:1849-1854 | one change for each differing line, with its new state, in ascending order, and no other |
| Gpio.ListenersAgree | lib/codec.cpp:1833-1856 | over any chunks a listener that follows the changes has the received lines |
| Gpio.SetLineOnly | lib/codec.cpp:658-672 | setting a line leaves the others alone |
| Gpio.LinesAscend | lib/codec.cpp:658 | line 0 is the lowest bit, each line the bit above the one before |
| Wire.PacketHeadRoundTrip | lib/rtpbye.cpp:96-99 | type, version and length come back; the count and the padding bit exactly when they do not collide |
| ReceptionBlocks.BlockRoundTrip | lib/rtpreceptionblock.cpp:122-148 | a block comes back with four bits of its fraction and eleven of its losses |
| ReceptionBlocks.NarrowedExact | lib/rtpreceptionblock.cpp:141-142 | nothing is lost exactly for whole 256ths below 16 and losses below 2048 |
| ReceptionBlocks.ReceptionBlock.ReadBlock | lib/rtpreceptionblock.cpp:122-132 | the fields of the six words |
| ReceptionBlocks.ReceptionBlock.WriteBlock | lib/rtpreceptionblock.cpp:135-148 | stores the six words, or nothing when they do not fit |
| Byes.HeadRoundTrip | lib/rtpbye.cpp:80-83 | the count comes back unless padding is set below 16 sources, the padding bit unless clear from 16 up |
| Byes.ByeRoundTrip | lib/rtpbye.cpp:75-104 | a BYE without padding comes back from anywhere in a buffer |
| Byes.RtpBye.AddSsrc | lib/rtpbye.cpp:65-72 | appends up to 31 sources |
| Byes.RtpBye.ReadBlock | lib/rtpbye.cpp:75-88 | the packet at that place, or nothing for another type |
| Byes.RtpBye.WriteBlock | lib/rtpbye.cpp:91-104 | stores exactly its words, or nothing when they do not fit |
| SenderReports.BlocksRoundTrip | lib/rtpsenderreport.cpp:162-166 | any list of blocks comes back, narrowed |
| SenderReports.HeadRoundTrip | lib/rtpsenderreport.cpp:184-188 | the length field covers the packet, and exactly when count and padding come back |
| SenderReports.ReportRoundTrip | lib/rtpsenderreport.cpp:148-211 | a report without padding comes back, its blocks narrowed |
| SenderReports.SenderReport.AddReceptionBlock | lib/rtpsenderreport.cpp:138-145 | appends up to 31 blocks |
| SenderReports.SenderReport.ReadBlock | lib/rtpsenderreport.cpp:148-168 | the report at that place, or a cleared one for another type |
| SenderReports.SenderReport.WriteBlock | lib/rtpsenderreport.cpp:171-211 | stores exactly its words, with a null block when it has none, or nothing when they do not fit |
| SourceDescriptions.SizeCoversItems | lib/rtpsourcedescription.cpp:228-236 | the octets of any chunks fit the size computed for them |
| SourceDescriptions.SizeIsTight | lib/rtpsourcedescription.cpp:228-236 | with at most eight octets to spare for each, so that for one only one size will do |
| SourceDescriptions.RoomForNull | lib/rtpsourcedescription.cpp:228-236 | with at least one null octet after the last item, as section 6.5 of RFC 3550 asks |
| SourceDescriptions.DistinctTypesAreFew | lib/rtpsourcedescription.cpp:116-120 | chunks of distinct types never overflow the five-bit count |
| SourceDescriptions.ItemsRoundTrip | lib/rtpsourcedescription.cpp:170-182 | a run of items comes back: every type, length and octet, and where it ends |
| SourceDescriptions.SdesRoundTrip | lib/rtpsourcedescription.cpp:154-211 | a written description comes back from anywhere, its size too; its source is read from the chunk octets |
| SourceDescriptions.SourceDescription.AddChunk | lib/rtpsourcedescription.cpp:112-132 | refuses a type already present, keeps 255 octets, keeps types distinct |
| SourceDescriptions.SourceDescription.ChunkData | lib/rtpsourcedescription.cpp:91-102 | the octets of the chunk, as far as the buffer goes |
| SourceDescriptions.SourceDescription.GetTotalSize | lib/rtpsourcedescription.cpp:228-236 | the size of the present chunks |
| SourceDescriptions.SourceDescription.WriteBlock | lib/rtpsourcedescription.cpp:187-211 | clears the room and stores exactly the packet, or nothing when it does not fit |
| SourceDescriptions.SourceDescription.ReadBlock | lib/rtpsourcedescription.cpp:154-184 | the chunks at that place and the size the program takes them for |
| ControlHeaders.AnyWordsWalkable | lib/rtpcontrolheader.cpp:87-148 | whatever the words, the walk ends, and stays within 1994 words after those received |
| ControlHeaders.OthersArePassed | lib/rtpcontrolheader.cpp:87-148 | the walk ends at another version and passes over other types by their length |
| ControlHeaders.ReceiverReportNeverRecognised | lib/rtpreceptionreport.cpp:105 | a receiver report is never recognised in a packet of version 2 |
| ControlHeaders.PartRoundTrip | lib/rtpcontrolheader.cpp:94-146 | a packet of any kind, anywhere, is read back and its length field covers it |
| ControlHeaders.CompoundRoundTrip | lib/rtpcontrolheader.cpp:87-148 | walking any list of packets, in any order, recovers the first of each kind |
| ControlHeaders.ControlHeader.ReadBlock | lib/rtpcontrolheader.cpp:87-148 | the object after the loop holds what the walk finds |
| RtpHeaders.HeaderRoundTrip | lib/rtpheader.cpp:307-354 | a written header comes back before any frame, except that the extension bit reads set exactly from 8 sources up; below that the frame is found, however much was received |
| RtpHeaders.BufferFits | lib/rtpheader.cpp:307-336 | in a buffer of twenty words no first word makes the reading leave it |
| RtpHeaders.RtpHeader.Advance | lib/rtpheader.cpp:291-296 | number and timestamp move on, 16 and 32 bits wide |
| RtpHeaders.RtpHeader.AddCsrc | lib/rtpheader.cpp:274-281 | appends up to 15 sources |
| RtpHeaders.RtpHeader.ReadBlock | lib/rtpheader.cpp:307-336 | the fields of the words, and where the frame starts |
| RtpHeaders.RtpHeader.WriteBlock | lib/rtpheader.cpp:339-354 | stores exactly the header, or nothing when it does not fit |
| Layouts.DatagramLayout | lib/rtpheader.cpp:339-354 | where every field of a datagram of sound stands, octet by octet |
| Layouts.ReportLayout | lib/rtpsenderreport.cpp:171-211 | where every field of a sender report stands; type 200 |
| Layouts.BlockLayout | lib/rtpreceptionblock.cpp:135-148 | where every field of a reception block stands |
| Layouts.DescriptionLayout | lib/rtpsourcedescription.cpp:187-211 | where every field of a description stands; type 202, items and then nulls |
| Layouts.ItemLayout | lib/rtpsourcedescription.cpp:199-206 | an item is its type, its length and its octets |
| Layouts.ByeLayout | lib/rtpbye.cpp:91-104 | where every field of a BYE stands; type 203 |
| Calls.EndCallFrees | netsipd/netsipd.cpp:502-530 | both sides are idle, nobody points at the connection, and no one else changes |
| Calls.LogoutFrees | netsipd/netsipd.cpp:586-617 | so does a logout, and the user is gone |
| Calls.KillKeeps | netsipd/netsipd.cpp:176-184 | closing keeps calls symmetric and leaves both sides idle |
| Calls.ReapKeeps | netsipd/netsipd.cpp:187-197 | dropping what is gone keeps calls symmetric and touches no call |
| Calls.ConnectKeeps | netsipd/netsipd.cpp:145-155 | so does a new connection on a free descriptor |
| Calls.LoginKeeps | netsipd/netsipd.cpp:233-263 | so does LI, at any time |
| Calls.PasswordKeeps | netsipd/netsipd.cpp:266-323 | so does PW, right or wrong |
| Calls.SetUpMatchedExact | netsipd/netsipd.cpp:366-439 | setting up a call with an idle connection keeps connections matched in pairs exactly when the caller is idle and is not the callee |
| Calls.SetUpExact | netsipd/netsipd.cpp:366-439 | the pairs are matched, and stay so when either side goes, exactly when the caller is idle, is not the callee, the callee has logged in, and neither is closed already |
| Calls.BusyCaller | netsipd/netsipd.cpp:366-395 | a caller in a call makes another: the first partner points at one that points elsewhere |
| Calls.UnauthenticatedCallee | netsipd/netsipd.cpp:366-395 | a callee that has not logged in closes and is dropped: the caller points at nothing |
| CallRuns.ExpireKeeps | netsipd/netsipd.cpp:214-230 | the ping timer drops exactly the overdue and keeps calls symmetric |
| CallRuns.StepKeepsSymmetric | netsipd/netsipd.cpp:145-617 | every event, from live senders and others, keeps calls symmetric, given the guard on calls |
| CallRuns.CallSoundExactly | netsipd/netsipd.cpp:366-439 | the same condition for CA with the ports the server finds |
| CallRuns.RunKeepsSymmetric | netsipd/netsipd.cpp:145-617 | in every run whose calls meet the guard, each connection in a call has a live partner, not itself, that points back in the same call |
| CallRuns.RunSoundExactly | netsipd/netsipd.cpp:145-617 | in any run that can happen, all calls are sound when set up exactly when all meet the guard |
| CallRuns.StepPortsExact | netsipd/netsipd.cpp:394-395 | an event keeps ports at every address apart exactly when, being a call, its ports fit |
| CallRuns.RunPortsExactly | netsipd/netsipd.cpp:744-763 | in every such run no two connections at one address ever share a port exactly when the ports of every call fitted |
| CallRuns.RunKeepsPortsApart | netsipd/netsipd.cpp:744-763 | they do whenever all calls join different public addresses |
| Ports.FewUsed | netsipd/netsipd.cpp:744-763 | used ports are no more than connections |
| Ports.LeastPort | netsipd/netsipd.cpp:744-763 | there is a least even port from 5004 unused at the address, within 16 bits below 30266 connections |
| Ports.FirstPort | netsipd/netsipd.cpp:744-763 | the first port at an address is 5004 |
| Ports.SetUpUniqueExact | netsipd/netsipd.cpp:377-395 | a call keeps ports apart exactly when the two found, wherever they were searched, differ if the address is one and are had by no third connection at the public addresses |
| Ports.DifferentAddressesFit | netsipd/netsipd.cpp:385-395 | they do between different public addresses |
| Ports.OwnAddressesFit | netsipd/netsipd.cpp:385-395 | and between clients whose own address is the public one, as on one host |
| Ports.SetUpKeepsUnique | netsipd/netsipd.cpp:385-395 | so a call between different public addresses keeps ports apart |
| Ports.SamePeerCollides | netsipd/netsipd.cpp:385-389 | they never do behind one address between clients whose own addresses are nobody's public one: both get 5004 |
| Ports.FirstCallBehindOneAddress | netsipd/netsipd.cpp:385-395 | an instance of it |
| Ports.PairsDisjoint | netsipd/netsipd.cpp:744-763 | apart and even, the port pairs for sound and reports are disjoint |
| Servers.SipConnection.constructor | netsipd/sipconnection.cpp:176-189 | an idle connection without a user |
| Servers.Server.NewConnection | netsipd/netsipd.cpp:145-155 | adds that connection and changes no other |
| Servers.Server.SocketKill | netsipd/netsipd.cpp:176-184 | the map after closing, and what is written |
| Servers.Server.ZombieData | netsipd/netsipd.cpp:187-197 | exactly the connections gone are dropped |
| Servers.Server.PingTimerData | netsipd/netsipd.cpp:214-230 | the overdue are logged out and dropped in order, the rest are pinged, and what is written |
| Servers.Server.LogIn | netsipd/netsipd.cpp:233-263 | the map after LI, and what is written |
| Servers.Server.CheckPassword | netsipd/netsipd.cpp:266-323 | the map after PW, and which answer is written (see `Protocols.PasswordLogsInExactly`) |
| Servers.Server.InitiateCall | netsipd/netsipd.cpp:326-499 | each refusal, or the call set up, and all that is written |
| Servers.Server.FindCallee | netsipd/netsipd.cpp:354-365 | the last connection with the user |
| Servers.Server.GetFdByUid | netsipd/netsipd.cpp:721-730 | the first other connection with the user, or none |
| Servers.Server.Join | netsipd/netsipd.cpp:377-439 | partners, ports and call number of the two sides |
| Servers.Server.SendMedia | netsipd/netsipd.cpp:460-489 | the two ME lines |
| Servers.Server.End | netsipd/netsipd.cpp:502-530 | the map after BY, and MS to both |
| Servers.Server.ForwardMessage | netsipd/netsipd.cpp:533-544 | the words go to the partner (see `Protocols.ForwardedToPartner`) |
| Servers.Server.LogoutUser | netsipd/netsipd.cpp:586-617 | the map after a logout |
| Servers.Server.ParseCommand | netsipd/netsipd.cpp:663-711 | what any line does, and that all but LI and PW need a login; from symmetric calls, what its event does in `CallRuns.Step` |
| Servers.Server.GeneratePort | netsipd/netsipd.cpp:744-763 | the restarting search ends with the least free port |
| Commands.CommandKeepsSymmetric | netsipd/netsipd.cpp:663-711 | every line, after a close too, keeps calls symmetric, given the guard on calls |
| Commands.GoneCallerStillCalls | netsipd/netsipd.cpp:158-173 | a login line that closes the connection and a call in one segment: the call is set up from what is closed, and dropping it leaves the callee pointing at nothing |
| Commands.MediaSendsAgree | netsipd/netsipd.cpp:460-489 | the two ME lines, read by the two clients, start one call |
| Commands.CommandIsStep | netsipd/netsipd.cpp:663-711 | every line does to the map what the event read off its words does in `CallRuns.Step`, an event that can happen, or nothing if it is none |
| Protocols.ByEndsTheCall | netsipd/netsipd.cpp:502-530 | BY: sender and partner idle, without number and port, all others as they were; MS to the partner and then to the sender |
| Protocols.ClosingEndsTheCall | netsipd/netsipd.cpp:586-617 | closing: the user is gone, the partner idle, all others as they were; MS to both exactly when the call has a number |
| Protocols.LoginNeeded | netsipd/netsipd.cpp:678-683 | before login any line but LI and PW is told ER 5 and closes the connection |
| Protocols.LoginNamesTheUser | netsipd/netsipd.cpp:233-263 | LI: challenge sent; number, name and hash of the directory, address and version of the client, and nothing else |
| Protocols.PasswordLogsInExactly | netsipd/netsipd.cpp:266-323 | PW logs in exactly with two words, a user, its hash, and no other connection of that user; else the connection is closed and the code tells the test that failed first |
| Protocols.BadLoginCloses | netsipd/netsipd.cpp:236-300 | a malformed LI, and a wrong PW even after login, closes the connection and ends its call |
| Protocols.ForwardedToPartner | netsipd/netsipd.cpp:533-544 | CB and ER in a call: one line, to the one connection that points back in the same call, which reads in it the words sent; when idle nothing |
| Protocols.CallRefused | netsipd/netsipd.cpp:331-375 | each refusal of CA and its code; nothing changes |
| Protocols.CallMade | netsipd/netsipd.cpp:377-439 | CA: partners, least even free ports at the addresses searched, the caller's first, and the number of the call; all others as they were |
| Protocols.CallTold | netsipd/netsipd.cpp:366-499 | what each side is written, in order: ER 10, its ME line, what is known of the other; no one else anything |
| Protocols.OtherLines | netsipd/netsipd.cpp:696-710 | MD, PG and unknown commands |
| Protocols.ConnectionIsNew | netsipd/netsipd.cpp:145-155 | a new connection is nobody's, in no call, and overdue only after its first moment |
| Protocols.ZombiesGo | netsipd/netsipd.cpp:187-197 | the zombie timer drops exactly the closed connections and changes no other |
| Protocols.OverdueGo | netsipd/netsipd.cpp:214-230 | the ping timer drops exactly the overdue; partners of theirs are left idle and all others as they were |
| Protocols.PingedOnce | netsipd/netsipd.cpp:214-230 | over a pass each connection gets PG once unless overdue, MS once if its numbered call ends, and nothing else |
| Protocols.LoggedInByPassword | netsipd/netsipd.cpp:266-323 | over any run, whoever is logged in did so at a PW with the hash held then, while no other connection had the user, and is the same connection since |
| Protocols.LinesAreRun | netsipd/netsipd.cpp:158-173 | any lines, with timers and connections between, make a run of events to which all results on runs apply |
| Protocols.ForwardedInRuns | netsipd/netsipd.cpp:533-544 | at any point of such a run what is forwarded reaches the one in the call with the sender |
| Text.DecimalRoundTrip | lib/controlconnect.cpp:249-264 | printed numbers are read back |
| Text.SignedReads | netsipd/netsipd.cpp:463-474 | a number printed signed reads as zero from 2^31 up |
| Text.NumbersReadExactly | lib/controlconnect.cpp:249-271 | which texts read as which number, signed or not: as printed, after zeros and perhaps a sign, and within range |
| Text.SplitSpaced | lib/controlconnect.cpp:343 | words come back from a line of them |
| Text.SplitsExactly | netsipd/netsipd.cpp:666 | which texts split into which words: the words whole, with any gaps around them |
| Text.StripsExactly | netsipd/netsipd.cpp:666 | the white space at both ends goes, and nothing else |
| Text.WordsBack | netsipd/netsipd.cpp:539-543 | words of a line, put together again, are read as the same words |
| Text.ChunksDoNotMatter | lib/controlconnect.cpp:172-187 | the same commands are read however the bytes arrive |
| Text.CommandsRoundTrip | netsipd/netsipd.cpp:158-173 | commands sent are the commands read, in whatever pieces |
| Text.LineReader.ReadyRead | netsipd/netsipd.cpp:158-173 | the loop over the bytes reads those commands |
| Audio.Settings.Get | lib/audiosettings.cpp:34-38 | without a receive format every accessor gives the transmit side, otherwise its own |
| Audio.AudioSettings.Get | lib/audiosettings.cpp:291-299 | the accessor over the arrays |
| Audio.AudioSettings.SetFormat | lib/audiosettings.cpp:41-45 | sets that field of that direction only |
| Negotiation.DottedRoundTrip | lib/controlconnect.cpp:246-250 | addresses come back from their text |
| Negotiation.CallLineSplits | lib/controlconnect.cpp:70-88 | the caller's line splits into fourteen words at the server |
| Negotiation.CallerReads | netsipd/netsipd.cpp:460-474 | what the caller makes of its ME line |
| Negotiation.CalleeReads | netsipd/netsipd.cpp:475-489 | what the callee makes of its ME line |
| Negotiation.Agreement | lib/controlconnect.cpp:237-281 | both start the same call: directions, rate, ports and addresses crossed; only the caller's own receiving bit rate may differ, exactly from 2^31 up; without a receive format both transmit alike |
| Negotiation.AccessorsAgree | lib/audiosettings.cpp:291-299 | asked through the accessors the callee receives what is sent exactly when the caller sends something, or both directions are alike |
| Negotiation.RefusesLayer3 | lib/controlconnect.cpp:272-280 | a client without MPEG refuses exactly the calls it would receive as MPEG |
| Negotiation.StartMedia | lib/controlconnect.cpp:237-283 | filling the settings object field by field gives that reading |
| Negotiation.IgnoresExactly | lib/controlconnect.cpp:237-256 | which ME lines are ignored |
| Negotiation.ReceiveSideCleared | lib/audiosettings.cpp:205-220 | what an ME line does not say of receiving is as cleared |
| Base64.EncodeLength | lib/netconf.cpp:440-480 | four letters for every three octets begun |
| Base64.NetDataToBase64 | lib/netconf.cpp:440-480 | the loops with the padding give the encoding |
| Base64.GroupBack | lib/netconf.cpp:448-462 | a group is its sextets and its octets put together again |
| Base64.AlphabetInOrder | lib/netconf.cpp:325-329 | the alphabet is the standard's, in order |
| Base64.RoundTrip | lib/netconf.cpp:440-534 | decoding gives every byte string back |
| Base64.DecodesExactly | lib/netconf.cpp:483-534 | decoding works exactly on letters and pads with at most two pads, and how many octets it gives |
| Base64.OctetsLength | lib/netconf.cpp:520-522 | three octets are written for every four characters begun |
| Base64.NetBase64ToData | lib/netconf.cpp:483-534 | the loops give that decoding, and zero when it fails |
| Base64.StringRoundTrip | lib/netconf.cpp:331-437 | a string comes back exactly when its characters are octets |
| Base64.NetStringToBase64 | lib/netconf.cpp:331-371 | the encoding of the characters, those above 255 as zero |
| Base64.NetBase64ToString | lib/netconf.cpp:374-437 | the decoded string and whether it worked |
| Encoders.PacketsConserve | client/encoder.c:48-64 | packets and remainder are the input, every packet is of 576 octets |
| Encoders.TurnConserves | client/encoder.c:154-163 | a turn loses nothing exactly when the encoder did not fail, or failed by more than was pending |
| Encoders.RunConserves | client/encoder.c:154-164 | over any run without failures what was sent and what is pending are all that came out; less than a packet is pending |
| Encoders.Encoder.WriteBuffer | client/encoder.c:48-64 | sends the whole packets and moves the rest to the front, in place |
| Encoders.Encoder.Step | client/encoder.c:154-163 | one turn of the main loop on the buffer |

## Left out

- LAME, libmad, Speex, Vorbis, libsamplerate, PortAudio: decoding with resampling is any state machine over the frames and offsets it is given, a datagram comes with what it yields, an input callback with the frame encoded.
- Sockets, timers, signals, SQL, GeoIP, syslog, clocks and random numbers: parameters of the methods, and ghost logs of what is sent.
- Doubles: means, fractions and ratios are exact reals, so rounding is not modelled.
- Memory order: the two threads of the ring see each other's stores in the order in which they are made.
- Multicast status updates, statistics shown to the user and the "packets received" figure (lib/codec.cpp:788-792): they feed no decision.
- RTPReceptionReport: its type test includes the version bits and its blocks overwrite its header, so no round trip exists; only that it is never recognised is proved.
- Codec::WriteLayer3Buffer and client/pa_encoder.c: their carry-over buffer is local to each call; client/encoder.c is modelled instead, without its final flush.
- MD5 and the challenge: the hash that a login expects is a parameter.
- The meters of both callbacks, the one-shot timers of the control lines, codec set-up and tear-down of foreign objects.
- The table of timestamp intervals by payload type (lib/rtpheader.cpp:34-157): the interval is a parameter.
- removeChunk and removeCsrc: no caller.
- The dialogs, the administration tools, INI files and escaping helpers.
- ControlHeaders.ControlHeader.ReadBlock: requires every packet visited to lie within the buffer; reading past it on malformed packets is not modelled.
- RtpHeaders.RtpHeader.ReadBlock: requires the words that the first word announces, which any buffer of twenty words has; shorter ones are not modelled.
- Codecs.Codec.EncodeFrame: one packet for one frame, as Speex makes it; it requires the frame to fit the 1500 octets of the buffer, which the source does not look at.
- Codecs.Codec.AudioInputCallback: requires the same of the frame.
- Codecs.Codec.FillRing: the receive loop also stops at an empty datagram (lib/codec.cpp:162-163), so the datagrams of a call are those before one.
- Servers.Server.ZombieData: erasing from the map while iterating over it is modelled as dropping the connections and going on.
- Servers.Server.PingTimerData: likewise; it requires symmetric calls, since a logout otherwise follows a descriptor that may be gone.
- Servers.Server.ParseCommand: a line without words is excluded, since the source indexes the first word of an empty list.
- Base64.NetBase64ToData: requires the buffer to hold three octets for every four characters begun, as the source does not look at the size it is given.
- Base64.NetStringToBase64: the string forms repeat the loops of the byte forms in the source and call them here.
- RingBuffers.RingBuffer.constructor: sizes above 2^30, for which the source shifts into the sign bit, are excluded.
- Audio.AudioSettings.Get: the five parallel arrays by direction are one array of records.
- Codecs.Codec.RtcpReceiveData: handles one datagram; the loop over those waiting is left to the caller, and names and other text chunks are only shown.
- Codecs.Codec.constructor: a codec object is one connection; reconnecting is a new object.
