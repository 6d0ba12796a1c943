/** lib/codec.cpp: the object that the sound card's callbacks and the RTCP timers work on. */
module Codecs {
  import opened Words
  import opened Wire
  import opened RingBuffers
  import opened MeterAverages
  import opened RtpHeaders
  import opened Receiver
  import opened Streams
  import opened Datagrams
  import P = Playouts
  import G = Gpio
  import RB = ReceptionBlocks
  import SR = SenderReports
  import SD = SourceDescriptions
  import BY = Byes
  import CH = ControlHeaders
  import opened Rtcp
  import PR = PeerReports

  const RING_SIZE := 1048576

  // ---------------------------------------------------------------- the sender's log

  lemma CopiesNext<T>(p: T, n: nat)
    ensures Copies(p, n) + [p] == Copies(p, n + 1)
  {
  }

  lemma RuntIgnored(s: P.Playout, size: nat, p: Packet, pcm: seq<bv8>)
    requires size <= P.RUNT
    ensures forall c: P.Setup :: P.Sized(c, s) ==> P.Take(c, s, P.Datagram(size, p, pcm)) == s
  {
    hide Receive, Accepts, Mean;
  }

  class Codec {
    // receiving
    var recvSsrc: uint32
    var recvTotalLost: uint32
    var recvIntervalLost: uint32
    var recvLo: uint16
    var recvHi: uint16
    var recvLast: uint16
    var recvStart: uint32
    var recvNtp: uint64
    var recvStartCount: uint32
    var recvGpio: bv32
    // playing
    const ring: RingBuffer
    const pll: MeterAverage
    var pllOffset: real
    var locked: bool
    var loopback: bool
    const channels: nat
    const setpoint: nat

    // sending
    var connected: bool
    const header: RtpHeader
    var streamRatio: nat
    var transGpio: bv32
    var transmitPackets: uint32
    var transmitOctets: uint32
    var cname: seq<bv8>
    // what was sent since the connection was made
    ghost var first: Header
    ghost var frames: seq<seq<bv8>>
    ghost var times: seq<nat>
    ghost var sent: seq<seq<bv8>>

    function RecvView(): Recv
      reads this`recvSsrc, this`recvTotalLost, this`recvIntervalLost, this`recvLo, this`recvHi, this`recvLast,
            this`recvStart, this`recvNtp, this`recvStartCount
    {
      Recv(recvSsrc, recvTotalLost, recvIntervalLost, recvLo, recvHi, recvLast, recvStart, recvNtp, recvStartCount)
    }

    ghost predicate Valid()
      reads this, ring, pll
    {
      ring.Valid() && pll.Valid() && pll.maxsize == P.PERIODS
    }

    /** The log holds every frame since the connection, each sent as often as the stream ratio then said. */
    ghost predicate Sending()
      reads this, header
    {
      && |times| == |frames| && |first.csrcs| <= MAX_CSRCS
      && header.View() == HeaderAfter(first, header.interval, |frames|)
      && header.ssrc == first.ssrc && header.csrcs == first.csrcs
      && sent == Redundant(SentOctets(first, header.interval, frames), times)
    }

    function Me(): Side
      reads this`transmitPackets, this`transmitOctets, this`cname, this`transGpio, header`ssrc
    {
      Side(header.ssrc, transmitPackets, transmitOctets, cname, transGpio)
    }

    ghost function Config(): P.Setup
      requires Valid()
      reads this, ring, pll
    {
      P.Setup(channels, setpoint, ring.size - 1)
    }

    ghost function View(): (s: P.Playout)
      requires Valid()
      reads this, ring, ring.buf, pll
      ensures P.Sized(Config(), s)
    {
      P.Playout(RecvView(), ring.Contents(), pll.values, pllOffset, locked)
    }

    /** Set up for a connection: the header's first number is random, as is its source. */
    constructor (channels: nat, payloadType: bv32, interval: uint32, random: uint16, ssrc: bv32, ratio: nat,
                 setpoint: nat := 8)
      ensures Valid() && fresh(ring) && fresh(ring.buf) && fresh(pll) && fresh(header)
      ensures this.channels == channels && this.setpoint == setpoint && ring.size >= 1048576
      ensures View() == P.Playout(FRESH, [], [], 0.0, false) && !loopback
      ensures Sending() && sent == [] && frames == [] && streamRatio == ratio && connected
      ensures header.ssrc == ssrc && first.seqNo == random && header.interval == interval
    {
      recvSsrc, recvTotalLost, recvIntervalLost := 0, 0, 0;
      recvLo, recvHi, recvLast, recvStart := 0, 0, 0, 0;
      recvNtp, recvStartCount := 0, 0;
      recvGpio, transGpio := 0, 0;
      ring := new RingBuffer(RING_SIZE);
      pll := new MeterAverage(P.PERIODS);
      pllOffset := 0.0;
      locked, loopback := false, false;
      this.channels := channels;
      this.setpoint := setpoint;
      var h := new RtpHeader(payloadType, interval, random);
      h.ssrc := ssrc;
      header := h;
      streamRatio := ratio;
      transmitPackets, transmitOctets := 0, 0;
      cname := [];
      first := h.View();
      frames, times, sent := [], [], [];
      connected := true;
    }

    method ClearCounts()
      modifies this`recvSsrc, this`recvTotalLost, this`recvIntervalLost, this`recvLo, this`recvHi, this`recvLast,
               this`recvStart, this`recvNtp, this`recvStartCount
      ensures RecvView() == FRESH
    {
      recvSsrc, recvTotalLost, recvIntervalLost := 0, 0, 0;
      recvLo, recvHi, recvLast, recvStart := 0, 0, 0, 0;
      recvNtp, recvStartCount := 0, 0;
    }

    /** What InitAudioInterface clears before the streams start. */
    method ClearReceiver()
      requires Valid()
      modifies this`recvSsrc, this`recvTotalLost, this`recvIntervalLost, this`recvLo, this`recvHi, this`recvLast,
               this`recvStart, this`recvNtp, this`recvStartCount, this`pllOffset, ring`readPtr, ring`writePtr, pll
      ensures Valid()
      ensures View() == P.Playout(FRESH, [], Level(P.PERIODS, 0.0), 0.0, locked)
    {
      hide Sum, Level, Window;
      ClearCounts();
      ring.Reset();
      pllOffset := 0.0;
      pll.Preset(0.0);
    }

    // -------------------------------------------------------------- datagrams

    /** The order of a packet and the receiver's counts; the frame of one that is not accepted is dropped. */
    method ReceivePacket(p: Packet) returns (accepted: bool)
      modifies this`recvSsrc, this`recvTotalLost, this`recvIntervalLost, this`recvLo, this`recvHi, this`recvLast,
               this`recvStart, this`recvNtp, this`recvStartCount
      ensures RecvView() == Receive(old(RecvView()), p) && accepted == Accepts(old(RecvView()), p)
    {
      hide Wrap16, Wrap32;
      if p.ssrc == recvSsrc {
        accepted := p.seqNo == recvLo + 1;
        if !accepted && p.seqNo != recvLo {
          recvTotalLost := Wrap32(recvTotalLost + 1);
          recvIntervalLost := Wrap32(recvIntervalLost + 1);
        }
        if p.seqNo > recvLo {
          recvLo := p.seqNo;
        } else if recvLo > 0xff00 && p.seqNo < recvLo - 0xff00 {
          recvLo := p.seqNo;
          recvHi := Wrap16(recvHi + 1);
          recvLast := 0;
        } else {
          accepted := false;
        }
      } else {
        recvSsrc := p.ssrc;
        recvTotalLost, recvIntervalLost := 0, 0;
        recvLo, recvLast, recvStart := p.seqNo, p.seqNo, p.seqNo;
        recvNtp, recvStartCount := 0, 0;
        accepted := true;
      }
    }

    method ReceiveDatagram(d: P.Datagram)
      requires Valid()
      modifies this`recvSsrc, this`recvTotalLost, this`recvIntervalLost, this`recvLo, this`recvHi, this`recvLast,
               this`recvStart, this`recvNtp, this`recvStartCount, this`pllOffset, ring`writePtr, ring.buf
      ensures Valid() && View() == P.Take(Config(), old(View()), d)
    {
      hide Receive, Accepts, Mean, Window, Distance;
      if d.size > P.RUNT {
        var accepted := ReceivePacket(d.packet);
        if accepted && d.packet.frame != [] {
          pllOffset := pll.Average();
          var _ := ring.Write(d.pcm);
        }
      }
    }

    /** One datagram from the socket's buffer, of which the first `size` octets were received. */
    method ReceiveOctets(buf: array<bv32>, size: nat, pcm: seq<bv8>)
      requires Valid() && Readable(Arrival(buf[..], size))
      modifies this`recvSsrc, this`recvTotalLost, this`recvIntervalLost, this`recvLo, this`recvHi, this`recvLast,
               this`recvStart, this`recvNtp, this`recvStartCount, this`pllOffset, ring`writePtr, ring.buf
      ensures Valid()
      ensures View() == P.Take(Config(), old(View()), P.Datagram(size, PacketOf(Arrival(buf[..], size)), pcm))
    {
      hide P.Take, Octets, WordValue, Window, Distance, ParseHeader, HeaderSize, Fits;
      if size > P.RUNT {
        var hdr := new RtpHeader(0, 0, 0);
        var l := hdr.ReadBlock(buf, size / 4);
        HeaderWithin(buf[..], size / 4);
        var frame := SD.SourceDescription.ReadText(buf, 4 * l, size - 4 * l);
        ReceiveDatagram(P.Datagram(size, Packet(WordValue(hdr.ssrc), hdr.seqNo, frame), pcm));
      } else {
        RuntIgnored(View(), size, PacketOf(Arrival(buf[..], size)), pcm);
      }
    }

    /** Every datagram that is waiting. */
    method FillRing(ds: seq<P.Datagram>)
      requires Valid()
      modifies this`recvSsrc, this`recvTotalLost, this`recvIntervalLost, this`recvLo, this`recvHi, this`recvLast,
               this`recvStart, this`recvNtp, this`recvStartCount, this`pllOffset, ring`writePtr, ring.buf
      ensures Valid() && View() == P.TakeAll(Config(), old(View()), ds)
    {
      hide P.Take, Window, Distance;
      var i := 0;
      while i < |ds|
        invariant 0 <= i <= |ds| && Valid()
        invariant P.TakeAll(Config(), View(), ds[i..]) == P.TakeAll(Config(), old(View()), ds)
      {
        assert ds[i..][0] == ds[i] && ds[i..][1..] == ds[i + 1..];
        ReceiveDatagram(ds[i]);
        i := i + 1;
      }
    }

    // -------------------------------------------------------------- sound

    /** Two octets a sample. */
    method Silence(buf: array<bv8>, frames: nat, chans: nat)
      requires buf.Length == 2 * frames * chans
      modifies this`locked, buf
      ensures !locked && buf[..] == Zeros(buf.Length)
    {
      var i := 0;
      while i < frames * chans
        invariant 0 <= i <= frames * chans
        invariant forall k :: 0 <= k < 2 * i ==> buf[k] == 0
      {
        buf[2 * i] := 0;
        buf[2 * i + 1] := 0;
        i := i + 1;
      }
      locked := false;
    }

    /** What comes out of the buffer once the datagrams are in. */
    method Play(frames: nat, outbuf: array<bv8>, ghost call: P.Call) returns (ghost sound: P.Sound)
      requires Valid() && call.frames == frames && outbuf.Length == 2 * frames * channels && outbuf != ring.buf
      modifies this`locked, ring`readPtr, pll, outbuf
      ensures Valid()
      ensures (View(), sound) == P.Emit(Config(), old(View()), call) && !sound.Untouched?
      ensures outbuf[..] == if sound.Played? then sound.bytes else Zeros(outbuf.Length)
    {
      hide Window, Distance, LastOf, Sum, Zeros;
      var block := 2 * frames * channels;
      if ring.ReadSpace() < block * setpoint && !locked {
        Clear(outbuf);
        return P.Muted;
      }
      if ring.ReadSpace() < block * setpoint {
        pll.AddValue(P.STEP);
      } else {
        pll.AddValue(-P.STEP);
      }
      if ring.ReadSpace() >= block {
        sound := P.Played(ring.Contents()[..block]);
        var _ := ring.Read(outbuf, block);
        locked := true;
      } else {
        Silence(outbuf, frames, channels);
        sound := P.Muted;
      }
    }

    static method Clear(buf: array<bv8>)
      modifies buf
      ensures buf[..] == Zeros(buf.Length)
    {
      forall k | 0 <= k < buf.Length {
        buf[k] := 0;
      }
    }

    /** The sound card asks for `frames` frames; in loopback the datagrams go straight back. */
    method AudioOutputCallback(frames: nat, hasOutput: bool, ds: seq<P.Datagram>, outbuf: array<bv8>)
      returns (echoed: seq<P.Datagram>, ghost sound: P.Sound)
      requires Valid() && outbuf.Length == 2 * frames * channels && outbuf != ring.buf
      modifies this`recvSsrc, this`recvTotalLost, this`recvIntervalLost, this`recvLo, this`recvHi, this`recvLast,
               this`recvStart, this`recvNtp, this`recvStartCount, this`pllOffset, this`locked,
               ring`readPtr, ring`writePtr, ring.buf, pll, outbuf
      ensures Valid()
      ensures (View(), sound) == P.Callback(Config(), old(View()), P.Call(frames, old(loopback), hasOutput, ds))
      ensures echoed == if old(loopback) then ds else []
      ensures match sound
              case Untouched => outbuf[..] == old(outbuf[..])
              case Muted => outbuf[..] == Zeros(outbuf.Length)
              case Played(bytes) => outbuf[..] == bytes
    {
      hide Window, Distance, P.Emit, P.TakeAll;
      echoed := [];
      if loopback {
        sound := P.Untouched;
        var i := 0;
        while i < |ds|
          invariant 0 <= i <= |ds| && echoed == ds[..i] && Valid()
          invariant View() == if i == 0 then old(View()) else old(View()).(locked := false)
          invariant sound == if i == 0 then P.Untouched else P.Muted
          invariant outbuf[..] == if i == 0 then old(outbuf[..]) else Zeros(outbuf.Length)
          invariant ring.buf == old(ring.buf)
        {
          echoed := echoed + [ds[i]];
          Silence(outbuf, frames, channels);
          sound := P.Muted;
          i := i + 1;
        }
        return;
      }
      if !hasOutput {
        return echoed, P.Untouched;
      }
      FillRing(ds);
      sound := Play(frames, outbuf, P.Call(frames, false, true, ds));
    }

    // -------------------------------------------------------------- sending

    /** The encoder's frame behind a header, which moves on; its octets are the header's and its own. */
    method EncodeFrame(frame: seq<bv8>, out: array<bv32>) returns (n: nat)
      requires Sending() && out.Length == BUFFER && 4 * (MIN_WORDS + |header.csrcs|) + |frame| <= 4 * BUFFER
      modifies out, this`transmitPackets, this`transmitOctets, header`seqNo, header`timestamp
      ensures header.View() == HeaderAfter(first, header.interval, |frames| + 1)
      ensures header.ssrc == first.ssrc && header.csrcs == first.csrcs
      ensures n == 4 * (MIN_WORDS + |header.csrcs|) + |frame|
      ensures Octets(out[..])[..n] == PacketOctets(old(header.View()), frame)
      ensures transmitPackets == Wrap32(old(transmitPackets) + 1)
      ensures transmitOctets == Wrap32(old(transmitOctets) + n)
    {
      hide Wrap16, Wrap32, Redundant, HeaderWords, Octets, Stored, Overwritten, SentOctets;
      ghost var was, ws := out[..], HeaderWords(header.View());
      var l := header.WriteBlock(out, BUFFER);
      PutOctets(out, 4 * l, frame);
      WrittenPacket(was, ws, frame, out[..]);
      header.Advance();
      n := 4 * l + |frame|;
      transmitPackets := Wrap32(transmitPackets + 1);
      transmitOctets := Wrap32(transmitOctets + n);
    }

    /** The stream ratio says how often a packet goes out. */
    method SendCopies(out: array<bv32>, n: nat)
      requires n <= 4 * out.Length
      modifies this`sent
      ensures sent == old(sent) + Copies(Octets(out[..])[..n], streamRatio)
    {
      hide Copies, Octets;
      ghost var octets := Octets(out[..])[..n];
      CopiesHead(octets, 0);
      var i := 0;
      while i < streamRatio
        invariant 0 <= i <= streamRatio
        invariant sent == old(sent) + Copies(octets, i)
      {
        sent := sent + [octets];
        CopiesNext(octets, i);
        i := i + 1;
      }
    }

    /** The sound card has input; `produced` says whether the encoder made a frame of it. */
    method AudioInputCallback(hasInput: bool, frame: seq<bv8>, produced: bool)
      requires Sending() && (produced ==> 4 * (MIN_WORDS + |header.csrcs|) + |frame| <= 4 * BUFFER)
      modifies this`transmitPackets, this`transmitOctets, header`seqNo, header`timestamp,
               this`frames, this`times, this`sent
      ensures Sending()
      ensures frames == if hasInput && !loopback && produced then old(frames) + [frame] else old(frames)
      ensures times == if hasInput && !loopback && produced then old(times) + [streamRatio] else old(times)
      ensures transmitPackets ==
              if hasInput && !loopback && produced then Wrap32(old(transmitPackets) + 1) else old(transmitPackets)
      ensures transmitOctets ==
              if hasInput && !loopback && produced
              then Wrap32(old(transmitOctets) + 12 + 4 * |old(header.csrcs)| + |frame|) else old(transmitOctets)
    {
      hide Wrap16, Wrap32, Redundant, HeaderAfter, SentOctets, PacketOctets, Copies, Octets;
      if hasInput && !loopback && produced {
        ghost var h := header.View();
        var out := new bv32[BUFFER];
        var n := EncodeFrame(frame, out);
        SendCopies(out, n);
        SentAppend(first, header.interval, frames, frame);
        RedundantAppend(SentOctets(first, header.interval, frames), times, PacketOctets(h, frame), streamRatio);
        frames := frames + [frame];
        times := times + [streamRatio];
      }
    }

    // -------------------------------------------------------------- control lines

    /** Sets a line that is not in that state already. */
    method SendGpio(line: nat, state: bool)
      requires line < G.LINES
      modifies this`transGpio
      ensures G.Lines(transGpio) == old(G.Lines(transGpio))[line := state]
    {
      hide G.SetLine, G.LineMask;
      if state {
        if !G.Line(transGpio, line) {
          G.SetLineOnly(transGpio, line, true);
          transGpio := G.SetLine(transGpio, line, true);
        }
      } else {
        if G.Line(transGpio, line) {
          G.SetLineOnly(transGpio, line, false);
          transGpio := G.SetLine(transGpio, line, false);
        }
      }
    }

    /** Takes over the lines of a private chunk that holds them, and tells each change. */
    method ReadPrivateSourceChunk(data: seq<bv8>) returns (changes: seq<G.Change>)
      modifies this`recvGpio
      ensures recvGpio == G.Heed(old(recvGpio), data)
      ensures changes == G.Emitted(old(recvGpio), data)
    {
      hide G.Differs, G.Line, PackWord, G.LineMask;
      changes := [];
      if |data| != 9 || data[0] != 4 {
        return;
      }
      if data[1] != 0x47 || data[2] != 0x50 || data[3] != 0x49 || data[4] != 0x4f {
        return;
      }
      var gpio := G.ReadMask(data);
      var i := 0;
      while i < G.LINES
        invariant 0 <= i <= G.LINES && changes == G.Changes(recvGpio, gpio, i)
      {
        if G.Differs(recvGpio, gpio, i) {
          changes := changes + [G.Change(i, G.Line(gpio, i))];
        }
        i := i + 1;
      }
      recvGpio := gpio;
    }

    // -------------------------------------------------------------- reports

    method BuildBlock() returns (block: RB.ReceptionBlock)
      requires HasReport(RecvView())
      ensures fresh(block) && block.View() == BlockOf(header.ssrc, RecvView())
    {
      hide WordOf, Wrap32;
      block := new RB.ReceptionBlock(header.ssrc);
      block.fraction := (recvIntervalLost as real) / ((recvLo - recvLast) as real);
      block.lost := WordOf(recvTotalLost);
      block.highest := WordOf(0x1_0000 * recvHi + recvLo);
      block.lastReport := WordOf(Wrap32(recvNtp / 0x1_0000));
    }

    method BuildTotals(ntp: bv64) returns (report: SR.SenderReport)
      ensures fresh(report) && report.blocks == []
      ensures report.View() == ReportFrom(Me(), RecvView(), ntp).(blocks := [])
    {
      hide WordOf, Wrap32, BlockOf;
      report := new SR.SenderReport(header.ssrc);
      report.ntp := ntp;
      report.rtp := WordOf(Wrap32(90000 * transmitPackets));
      report.packets := WordOf(transmitPackets);
      report.octets := WordOf(transmitOctets);
    }

    method BuildReport(ntp: bv64) returns (report: SR.SenderReport)
      ensures fresh(report) && fresh(report.blocks)
      ensures report.View() == ReportFrom(Me(), RecvView(), ntp)
    {
      hide WordOf, Wrap32, BlockOf, RB.Convertible;
      report := BuildTotals(ntp);
      if recvLo > recvLast {
        var block := BuildBlock();
        var _ := report.AddReceptionBlock(block);
      }
    }

    /** A report that tells of an interval ends it. */
    method EndInterval()
      modifies this`recvIntervalLost, this`recvLast
      ensures RecvView() == AfterReport(old(RecvView()))
    {
      if recvLo > recvLast {
        recvIntervalLost := 0;
        recvLast := recvLo;
      }
    }

    method BuildDescription() returns (sdes: SD.SourceDescription)
      ensures fresh(sdes) && sdes.Valid() && sdes.View() == DescriptionOf(Me())
    {
      hide G.MaskChunk;
      sdes := new SD.SourceDescription();
      var _ := sdes.AddChunk(SD.CNAME, header.ssrc, cname);
      var _ := sdes.AddChunk(SD.PRIV, header.ssrc, G.MaskChunk(transGpio));
    }

    method WriteReport(packet: array<bv32>, len: nat, ntp: bv64) returns (n: nat)
      requires 146 <= len <= packet.Length && SR.Writable(ReportFrom(Me(), RecvView(), ntp))
      modifies packet, this`recvIntervalLost, this`recvLast
      ensures RecvView() == AfterReport(old(RecvView()))
      ensures n == |SR.ReportWords(ReportFrom(Me(), old(RecvView()), ntp))| == 13
      ensures packet[..] == Stored(old(packet[..]), 0, SR.ReportWords(ReportFrom(Me(), old(RecvView()), ntp)))
    {
      hide ReportFrom, SR.ReportWords, SR.Writable, AfterReport, Stored;
      PartsWords(Me(), RecvView(), ntp);
      ghost var r := ReportFrom(Me(), RecvView(), ntp);
      var report := BuildReport(ntp);
      assert report.View() == r;
      n := report.WriteBlock(packet, 0, len);
      EndInterval();
    }

    method WriteDescription(packet: array<bv32>, at: nat, len: nat) returns (n: nat)
      requires at + len <= packet.Length && 133 <= len && SD.Writable(DescriptionOf(Me()))
      modifies packet
      ensures n == |SD.SdesWords(DescriptionOf(Me()))| <= 133
      ensures packet[..] == Stored(old(packet[..]), at, SD.SdesWords(DescriptionOf(Me())) + ZeroWords(len - n))
    {
      hide DescriptionOf, SD.SdesWords, SD.Writable, ZeroWords, SD.TotalSize;
      DescriptionSize(Me());
      var sdes := BuildDescription();
      n := sdes.WriteBlock(packet, at, len);
    }

    lemma Fields()
      ensures Me() == Side(header.ssrc, transmitPackets, transmitOctets, cname, transGpio)
      ensures RecvView() == Recv(recvSsrc, recvTotalLost, recvIntervalLost, recvLo, recvHi, recvLast, recvStart,
                                 recvNtp, recvStartCount)
    {
    }

    /** A compound packet of a report and a description; returns how many words. */
    method GenerateRtcpPacket(packet: array<bv32>, len: nat, ntp: bv64) returns (n: nat)
      requires 146 <= len <= packet.Length
      modifies packet, this`recvIntervalLost, this`recvLast
      ensures RecvView() == AfterReport(old(RecvView()))
      ensures n <= 146 && packet[..n] == WordsOf(Me(), old(RecvView()), ntp)
      ensures CH.Walkable(packet[..], n, 0, CH.NOTHING)
      ensures PR.Tells(CH.Walk(packet[..], n, 0, CH.NOTHING),
                       Side(header.ssrc, transmitPackets, transmitOctets, cname, transGpio),
                       Recv(recvSsrc, recvTotalLost, old(recvIntervalLost), recvLo, recvHi, old(recvLast), recvStart,
                            recvNtp, recvStartCount), ntp)
    {
      hide ReportFrom, DescriptionOf, SR.ReportWords, SD.SdesWords, SR.Writable, SD.Writable, ZeroWords, AfterReport,
           WordsOf, LastWordsOf, RecvView, Me, PR.Tells, CH.Walk, CH.Walkable;
      Fields();
      WordsSplit(Me(), RecvView(), ntp);
      n := WriteReport(packet, len, ntp);
      var m := WriteDescription(packet, n, len - n);
      n := n + m;
      PR.PeerReads(Me(), old(RecvView()), ntp, false, packet[..], n);
    }

    method WriteBye(packet: array<bv32>, at: nat, len: nat) returns (n: nat)
      requires at + len <= packet.Length && 2 <= len
      modifies packet
      ensures n == 2
      ensures packet[..] == Stored(old(packet[..]), at, BY.ByeWords(BY.Bye(2, false, [header.ssrc])))
    {
      hide BY.ByeWords;
      var bye := new BY.RtpBye();
      var _ := bye.AddSsrc(header.ssrc);
      assert bye.View() == BY.Bye(2, false, [header.ssrc]);
      n := bye.WriteBlock(packet, at, len);
    }

    /** The last report, with a BYE. */
    method GenerateLastPacket(packet: array<bv32>, len: nat, ntp: bv64) returns (n: nat)
      requires 148 <= len <= packet.Length
      modifies packet, this`recvIntervalLost, this`recvLast
      ensures RecvView() == AfterReport(old(RecvView()))
      ensures n <= 148 && packet[..n] == LastWordsOf(Me(), old(RecvView()), ntp)
    {
      hide SR.ReportWords, SD.SdesWords, SR.Writable, SD.Writable, BY.ByeWords, WordsOf, LastWordsOf, AfterReport,
           RecvView;
      WordsSplit(Me(), RecvView(), ntp);
      n := GenerateRtcpPacket(packet, len, ntp);
      var m := WriteBye(packet, n, len - n);
      n := n + m;
    }

    /** Ends the connection, if there is one: a last report with a BYE, and the state that goes with it. */
    method Disconnect(packet: array<bv32>, len: nat, ntp: bv64) returns (n: nat)
      requires 148 <= len <= packet.Length
      modifies packet, this`recvIntervalLost, this`recvLast, this`recvHi, this`locked, this`streamRatio, this`connected
      ensures !connected && n <= 148
      ensures packet[..n] == if old(connected) then LastWordsOf(Me(), old(RecvView()), ntp) else []
      ensures RecvView() == if old(connected) then AfterReport(old(RecvView())).(hi := 0) else old(RecvView())
      ensures if old(connected) then !locked && streamRatio == 1
              else locked == old(locked) && streamRatio == old(streamRatio) && packet[..] == old(packet[..])
    {
      hide LastWordsOf;
      if !connected {
        return 0;
      }
      n := GenerateLastPacket(packet, len, ntp);
      locked := false;
      recvHi := 0;
      streamRatio := 1;
      connected := false;
    }

    method ReadChunk(sdes: SD.SourceDescription, i: nat) returns (changes: seq<G.Change>)
      requires sdes.Valid() && i < |sdes.types|
      modifies this`recvGpio
      ensures recvGpio == G.HeedAll(old(recvGpio), PrivatePart(sdes.Chunks()[i]))
      ensures changes == G.AllEmitted(old(recvGpio), PrivatePart(sdes.Chunks()[i]))
    {
      hide G.Heed, G.Emitted, G.HeedAll, G.AllEmitted;
      changes := [];
      G.HeedNone(recvGpio);
      if sdes.types[i] == SD.PRIV {
        var data := sdes.ChunkData(i, 256);
        if |data| > 0 {
          G.HeedOne(recvGpio, data);
          changes := ReadPrivateSourceChunk(data);
        }
      }
    }

    /** Each private chunk that is not empty, in order. */
    method ReadChunks(sdes: SD.SourceDescription) returns (changes: seq<G.Change>)
      requires sdes.Valid()
      modifies this`recvGpio
      ensures recvGpio == G.HeedAll(old(recvGpio), PrivateData(sdes.Chunks()))
      ensures changes == G.AllEmitted(old(recvGpio), PrivateData(sdes.Chunks()))
    {
      hide G.HeedAll, G.AllEmitted, PrivateData, PrivatePart, SD.ChunksOf;
      changes := [];
      ghost var was, chunks := recvGpio, sdes.Chunks();
      G.HeedNone(recvGpio);
      PrivateNone(chunks);
      var i := 0;
      while i < |sdes.types|
        invariant 0 <= i <= |chunks| == |sdes.types|
        invariant recvGpio == G.HeedAll(was, PrivateData(chunks[..i]))
        invariant changes == G.AllEmitted(was, PrivateData(chunks[..i]))
      {
        PrivateNext(chunks, i);
        G.HeedJoin(was, PrivateData(chunks[..i]), PrivatePart(chunks[i]));
        var more := ReadChunk(sdes, i);
        changes := changes + more;
        i := i + 1;
      }
      assert chunks[..i] == chunks;
    }

    /** The private chunks of a description, if the packet has one. */
    method HearSource(source: SD.SourceDescription?, ghost reports: CH.Reports) returns (changes: seq<G.Change>)
      requires source == null <==> reports.source.None?
      requires source != null ==> source.Valid() && source.Chunks() == reports.source.value.chunks
      modifies this`recvGpio
      ensures recvGpio == G.HeedAll(old(recvGpio), PrivateOf(reports))
      ensures changes == G.AllEmitted(old(recvGpio), PrivateOf(reports))
    {
      hide G.HeedAll, G.AllEmitted, PrivateData, SD.ChunksOf;
      changes := [];
      G.HeedNone(recvGpio);
      if source != null {
        changes := ReadChunks(source);
      }
    }

    /** The sender's packet count and time, if the packet has them. */
    method HearSenderPart(sender: SR.SenderReport?, ghost reports: CH.Reports)
      requires sender == null <==> reports.sender.None?
      requires sender != null ==> sender.View() == reports.sender.value
      modifies this`recvStartCount, this`recvNtp
      ensures RecvView() == HearFirst(old(RecvView()), reports)
    {
      hide WordValue, NtpValue;
      if sender != null {
        if recvStartCount == 0 {
          recvStartCount := WordValue(sender.packets);
        }
        recvNtp := NtpValue(sender.ntp);
      }
    }

    /** What a BYE leaves, after the disconnection it brings about. */
    method HearBye(out: array<bv32>, ntp: bv64) returns (n: nat)
      requires 148 <= out.Length
      modifies out, this`recvSsrc, this`recvTotalLost, this`recvIntervalLost, this`recvLo, this`recvHi, this`recvLast,
               this`recvStart, this`recvNtp, this`locked, this`streamRatio, this`connected
      ensures !connected && n <= 148
      ensures out[..n] == if old(connected) then LastWordsOf(Me(), old(RecvView()), ntp) else []
      ensures RecvView() == FRESH.(startCount := old(recvStartCount), hi := if old(connected) then 0 else old(recvHi))
      ensures old(connected) ==> !locked && streamRatio == 1
    {
      hide LastWordsOf, WordsOf;
      n := Disconnect(out, out.Length, ntp);
      ForgetSource();
    }

    method ForgetSource()
      modifies this`recvSsrc, this`recvTotalLost, this`recvIntervalLost, this`recvLo, this`recvLast, this`recvStart,
               this`recvNtp
      ensures RecvView() == FRESH.(startCount := recvStartCount, hi := recvHi)
    {
      recvTotalLost, recvIntervalLost := 0, 0;
      recvLo, recvLast, recvStart := 0, 0, 0;
      recvSsrc := 0;
      recvNtp := 0;
    }

    /** All parts of a packet, in the program's order. */
    method HearParts(source: SD.SourceDescription?, sender: SR.SenderReport?, bye: bool, ghost reports: CH.Reports,
                     out: array<bv32>, ntp: bv64)
      returns (changes: seq<G.Change>, n: nat)
      requires source == null <==> reports.source.None?
      requires source != null ==> source.Valid() && source.Chunks() == reports.source.value.chunks
      requires sender == null <==> reports.sender.None?
      requires sender != null ==> sender.View() == reports.sender.value
      requires bye == reports.bye.Some? && 148 <= out.Length
      modifies out, this`recvSsrc, this`recvTotalLost, this`recvIntervalLost, this`recvLo, this`recvHi, this`recvLast,
               this`recvStart, this`recvNtp, this`recvStartCount, this`recvGpio, this`locked, this`streamRatio,
               this`connected
      ensures recvGpio == G.HeedAll(old(recvGpio), PrivateOf(reports))
      ensures changes == G.AllEmitted(old(recvGpio), PrivateOf(reports))
      ensures RecvView() == Hear(old(RecvView()), reports, old(connected))
      ensures n <= out.Length && out[..n] == Answer(Me(), old(RecvView()), reports, old(connected), ntp)
      ensures connected == (old(connected) && reports.bye.None?)
    {
      hide G.HeedAll, G.AllEmitted, PrivateOf, HearFirst, LastWordsOf, SD.ChunksOf;
      changes := HearSource(source, reports);
      HearSenderPart(sender, reports);
      n := 0;
      if bye {
        n := HearBye(out, ntp);
      }
    }

    /** One RTCP datagram of `len` octets. A BYE is answered with the `n` words left in `out`. */
    method RtcpReceiveData(packet: array<bv32>, len: nat, out: array<bv32>, ntp: bv64)
      returns (changes: seq<G.Change>, n: nat)
      requires CH.Walkable(packet[..], len / 4, 0, CH.NOTHING) && packet != out && 148 <= out.Length
      modifies out, this`recvSsrc, this`recvTotalLost, this`recvIntervalLost, this`recvLo, this`recvHi, this`recvLast,
               this`recvStart, this`recvNtp, this`recvStartCount, this`recvGpio, this`locked, this`streamRatio,
               this`connected
      ensures var reports := CH.Walk(packet[..], len / 4, 0, CH.NOTHING);
              && recvGpio == G.HeedAll(old(recvGpio), PrivateOf(reports))
              && changes == G.AllEmitted(old(recvGpio), PrivateOf(reports))
              && RecvView() == Hear(old(RecvView()), reports, old(connected))
              && n <= out.Length && out[..n] == Answer(Me(), old(RecvView()), reports, old(connected), ntp)
              && connected == (old(connected) && reports.bye.None?)
    {
      hide CH.Walk, CH.Walkable, G.HeedAll, G.AllEmitted, PrivateOf, Hear, Answer, SD.ChunksOf, RecvView, Me;
      var hdr := new CH.ControlHeader();
      hdr.ReadBlock(packet, len);
      changes, n := HearParts(hdr.sourceDescription, hdr.senderReport, hdr.byePacket != null, hdr.View(), out, ntp);
    }
  }
}
