/**
 * lib/codec.cpp, GenerateRtcpPacket and rtcpReceiveData on values: what one side reports, and what the
 * other side makes of it.
 */
module Rtcp {
  import opened Words
  import opened Options
  import opened Wire
  import opened Receiver
  import G = Gpio
  import RB = ReceptionBlocks
  import SR = SenderReports
  import SD = SourceDescriptions
  import BY = Byes
  import CH = ControlHeaders

  /** What a side says of itself. */
  datatype Side = Side(ssrc: bv32, packets: uint32, octets: uint32, cname: seq<bv8>, gpio: bv32)

  function BlockOf(ssrc: bv32, r: Recv): (b: RB.Block)
    requires HasReport(r)
    ensures RB.Convertible(b)
  {
    var report := ReportOf(r);
    RB.Block(ssrc, (report.interval as real) / (report.expected as real), WordOf(report.total), WordOf(report.highest),
             0, WordOf(Wrap32(r.ntp / 0x1_0000)), 0)
  }

  function ReportFrom(me: Side, r: Recv, ntp: bv64): SR.Report {
    SR.Report(2, false, me.ssrc, ntp, WordOf(Wrap32(90000 * me.packets)), WordOf(me.packets), WordOf(me.octets),
              if HasReport(r) then [BlockOf(me.ssrc, r)] else [])
  }

  /** A name is kept to 255 octets. */
  function Kept(cname: seq<bv8>): (s: seq<bv8>)
    ensures |s| <= 255
  {
    if |cname| > 255 then cname[..255] else cname
  }

  function DescriptionOf(me: Side): SD.Sdes {
    SD.Sdes(2, false, [SD.Chunk(SD.CNAME, Kept(me.cname)), SD.Chunk(SD.PRIV, G.MaskChunk(me.gpio))], [me.ssrc, me.ssrc])
  }

  /** The compound packet of a report. */
  function Parts(me: Side, r: Recv, ntp: bv64): seq<CH.Part> {
    [CH.SenderPart(ReportFrom(me, r, ntp)), CH.SourcePart(DescriptionOf(me))]
  }

  function LastParts(me: Side, r: Recv, ntp: bv64): seq<CH.Part> {
    Parts(me, r, ntp) + [CH.ByePart(BY.Bye(2, false, [me.ssrc]))]
  }

  lemma PartsSendable(me: Side, r: Recv, ntp: bv64)
    ensures CH.AllSendable(Parts(me, r, ntp)) && CH.AllSendable(LastParts(me, r, ntp))
  {
    hide WordOf, G.MaskChunk;
  }

  /** The words of a report, and of one that ends in a BYE. */
  function WordsOf(me: Side, r: Recv, ntp: bv64): seq<bv32> {
    PartsSendable(me, r, ntp);
    CH.CompoundWords(Parts(me, r, ntp))
  }

  function LastWordsOf(me: Side, r: Recv, ntp: bv64): seq<bv32> {
    PartsSendable(me, r, ntp);
    CH.CompoundWords(LastParts(me, r, ntp))
  }

  /** The words of a report and its description fit any of the program's buffers. */
  lemma DescriptionSize(me: Side)
    ensures SD.Writable(DescriptionOf(me)) && 1 <= SD.TotalSize(DescriptionOf(me).chunks) <= 133
  {
    hide G.MaskChunk;
    SD.SizeCoversItems(DescriptionOf(me).chunks);
  }

  /** The words of a report, and of the last one, which ends with a BYE. */
  lemma PartsWords(me: Side, r: Recv, ntp: bv64)
    ensures CH.AllSendable(Parts(me, r, ntp)) && CH.AllSendable(LastParts(me, r, ntp))
    ensures SR.Writable(ReportFrom(me, r, ntp)) && SD.Writable(DescriptionOf(me))
    ensures CH.CompoundWords(Parts(me, r, ntp)) == SR.ReportWords(ReportFrom(me, r, ntp))
        + SD.SdesWords(DescriptionOf(me))
    ensures CH.CompoundWords(LastParts(me, r, ntp)) ==
            CH.CompoundWords(Parts(me, r, ntp)) + BY.ByeWords(BY.Bye(2, false, [me.ssrc]))
    ensures |SR.ReportWords(ReportFrom(me, r, ntp))| == 13 && |SD.SdesWords(DescriptionOf(me))| <= 133
  {
    hide SR.ReportWords, SD.SdesWords, BY.ByeWords, BlockOf, DescriptionOf, WordOf, CH.CompoundWords;
    PartsSendable(me, r, ntp);
    DescriptionSize(me);
    var sr, sd := CH.SenderPart(ReportFrom(me, r, ntp)), CH.SourcePart(DescriptionOf(me));
    var bye := CH.ByePart(BY.Bye(2, false, [me.ssrc]));
    assert Parts(me, r, ntp)[0] == sr && Parts(me, r, ntp)[1] == sd && LastParts(me, r, ntp)[2] == bye;
    CompoundThree(sr, sd, bye);
    assert Parts(me, r, ntp) == [sr] + [sd] && LastParts(me, r, ntp) == [sr] + [sd] + [bye];
  }

  lemma WordsSplit(me: Side, r: Recv, ntp: bv64)
    ensures SR.Writable(ReportFrom(me, r, ntp)) && SD.Writable(DescriptionOf(me))
    ensures WordsOf(me, r, ntp) == SR.ReportWords(ReportFrom(me, r, ntp)) + SD.SdesWords(DescriptionOf(me))
    ensures LastWordsOf(me, r, ntp) == WordsOf(me, r, ntp) + BY.ByeWords(BY.Bye(2, false, [me.ssrc]))
    ensures |WordsOf(me, r, ntp)| <= 146 && |LastWordsOf(me, r, ntp)| == |WordsOf(me, r, ntp)| + 2
  {
    hide Parts, LastParts, CH.CompoundWords, CH.AllSendable, SR.ReportWords, SD.SdesWords, SR.Writable, SD.Writable,
         ReportFrom, DescriptionOf;
    PartsWords(me, r, ntp);
  }

  lemma CompoundThree(a: CH.Part, b: CH.Part, c: CH.Part)
    requires CH.Sendable(a) && CH.Sendable(b) && CH.Sendable(c)
    ensures CH.AllSendable([a] + [b]) && CH.AllSendable([a] + [b] + [c])
    ensures CH.CompoundWords([a] + [b]) == CH.PartWords(a) + CH.PartWords(b)
    ensures CH.CompoundWords([a] + [b] + [c]) == CH.CompoundWords([a] + [b]) + CH.PartWords(c)
  {
    hide CH.PartWords, CH.Sendable, CH.CompoundWords;
    CompoundNone();
    CompoundFirst(a, [b]);
    CompoundFirst(b, []);
    CompoundFirst(a, [b] + [c]);
    CompoundFirst(b, [c]);
    CompoundFirst(c, []);
    assert [a] + [b] + [c] == [a] + ([b] + [c]) && [b] + [] == [b] && [c] + [] == [c];
    assert CH.PartWords(a) + (CH.PartWords(b) + CH.PartWords(c)) == CH.PartWords(a) + CH.PartWords(b) + CH.PartWords(c);
  }

  lemma CompoundNone()
    ensures CH.CompoundWords([]) == []
  {
  }

  lemma CompoundFirst(p: CH.Part, rest: seq<CH.Part>)
    requires CH.Sendable(p) && CH.AllSendable(rest)
    ensures CH.AllSendable([p] + rest) && CH.CompoundWords([p] + rest) == CH.PartWords(p) + CH.CompoundWords(rest)
  {
    hide CH.Sendable, CH.PartWords;
    assert ([p] + rest)[1..] == rest;
  }

  // ---------------------------------------------------------------- the other side

  function NtpValue(t: bv64): uint64 {
    0x1_0000_0000 * WordValue(SR.NtpHigh(t)) + WordValue(SR.NtpLow(t))
  }

  function PrivatePart(chunk: SD.Chunk): seq<seq<bv8>> {
    if chunk.ctype == SD.PRIV && chunk.data != [] then [chunk.data] else []
  }

  /** The octets of the private chunks that are not empty. */
  function PrivateData(chunks: seq<SD.Chunk>): seq<seq<bv8>>
    decreases |chunks|
  {
    if chunks == [] then [] else PrivateData(chunks[..|chunks| - 1]) + PrivatePart(chunks[|chunks| - 1])
  }

  lemma PrivateNone(chunks: seq<SD.Chunk>)
    ensures PrivateData(chunks[..0]) == []
  {
  }

  lemma PrivateNext(chunks: seq<SD.Chunk>, i: nat)
    requires i < |chunks|
    ensures PrivateData(chunks[..i + 1]) == PrivateData(chunks[..i]) + PrivatePart(chunks[i])
  {
    assert chunks[..i + 1][..i] == chunks[..i];
  }

  function PrivateOf(reports: CH.Reports): seq<seq<bv8>> {
    if reports.source.Some? then PrivateData(reports.source.value.chunks) else []
  }

  function HearSender(r: Recv, report: SR.Report): Recv {
    (if r.startCount == 0 then r.(startCount := WordValue(report.packets)) else r).(ntp := NtpValue(report.ntp))
  }

  function HearFirst(r: Recv, reports: CH.Reports): Recv {
    if reports.sender.Some? then HearSender(r, reports.sender.value) else r
  }

  /** The receiver's counts after a compound packet. A BYE clears all of them but the first packet count; the
      rollovers go with the connection that it ends. */
  function Hear(r: Recv, reports: CH.Reports, connected: bool): Recv {
    var r1 := HearFirst(r, reports);
    if reports.bye.Some? then FRESH.(startCount := r1.startCount, hi := if connected then 0 else r1.hi) else r1
  }

  /** A BYE is answered by ending the connection, if there is one. */
  function Answer(me: Side, r: Recv, reports: CH.Reports, connected: bool, ntp: bv64): seq<bv32> {
    if reports.bye.Some? && connected then LastWordsOf(me, HearFirst(r, reports), ntp) else []
  }

  /** What a written report reads as: its losses narrowed to their bits. */
  function ReportRead(me: Side, r: Recv, ntp: bv64): SR.Report {
    ReportFrom(me, r, ntp).(blocks := if HasReport(r) then [RB.Narrowed(BlockOf(me.ssrc, r))] else [])
  }

  lemma NarrowedOne(me: Side, r: Recv, ntp: bv64)
    ensures SR.Writable(ReportFrom(me, r, ntp))
    ensures CH.Received(CH.SenderPart(ReportFrom(me, r, ntp))) == CH.SenderPart(ReportRead(me, r, ntp))
  {
    hide WordOf, BlockOf, RB.Narrowed, SR.ReportWords;
    if HasReport(r) {
      assert SR.AllNarrowed([BlockOf(me.ssrc, r)]) == [RB.Narrowed(BlockOf(me.ssrc, r))];
    } else {
      assert SR.AllNarrowed([]) == [];
    }
  }

  lemma MaskOnly(me: Side)
    ensures PrivateData(DescriptionOf(me).chunks) == [G.MaskChunk(me.gpio)]
  {
    hide G.MaskChunk;
    var a, b := SD.Chunk(SD.CNAME, Kept(me.cname)), SD.Chunk(SD.PRIV, G.MaskChunk(me.gpio));
    assert [a, b][..1] == [a] && [a][..0] == [];
    assert PrivateData([a]) == [];
  }

  /** A report, found at the start of any buffer, reaches the other side: the sender's part and every
      chunk read back, and its lines are the other side's received lines, whatever those were. */
  lemma ReportReachesPeer(me: Side, r: Recv, ntp: bv64, last: bool, ws: seq<bv32>, n: nat, gpio: bv32)
    requires CH.AllSendable(if last then LastParts(me, r, ntp) else Parts(me, r, ntp))
    requires var parts := if last then LastParts(me, r, ntp) else Parts(me, r, ntp);
             Holds(ws, 0, CH.CompoundWords(parts)) && n == |CH.CompoundWords(parts)|
    ensures CH.Walkable(ws, n, 0, CH.NOTHING)
    ensures var reports := CH.Walk(ws, n, 0, CH.NOTHING);
            && reports.sender == Some(ReportRead(me, r, ntp))
            && reports.source.Some? && reports.source.value.chunks == DescriptionOf(me).chunks
            && reports.bye == (if last then Some(BY.Bye(2, false, [me.ssrc])) else None)
            && G.HeedAll(gpio, PrivateOf(reports)) == me.gpio
  {
    hide CH.CompoundWords, CH.Walk, CH.Walkable, CH.Received, ReportRead, ReportFrom, DescriptionOf, PrivateData,
         G.Heed, Holds;
    var parts := if last then LastParts(me, r, ntp) else Parts(me, r, ntp);
    CH.CompoundRoundTrip(parts, ws, n, 0, CH.NOTHING);
    KeptParts(me, r, ntp, last);
    MaskOnly(me);
    G.MaskRoundTrip(me.gpio, []);
    HeedMask(gpio, me.gpio);
  }

  lemma HeedMask(gpio: bv32, mask: bv32)
    ensures G.HeedAll(gpio, [G.MaskChunk(mask)]) == mask
  {
    hide G.MaskChunk, G.ReadMask, G.IsMaskChunk, G.HeedAll;
    G.MaskRoundTrip(mask, []);
    G.HeedOne(gpio, G.MaskChunk(mask));
  }

  lemma KeptParts(me: Side, r: Recv, ntp: bv64, last: bool)
    requires CH.AllSendable(if last then LastParts(me, r, ntp) else Parts(me, r, ntp))
    ensures var reports := CH.KeepAll(CH.NOTHING, if last then LastParts(me, r, ntp) else Parts(me, r, ntp));
            && reports.sender == Some(ReportRead(me, r, ntp))
            && reports.source.Some? && reports.source.value.chunks == DescriptionOf(me).chunks
            && reports.bye == if last then Some(BY.Bye(2, false, [me.ssrc])) else None
  {
    hide ReportRead, ReportFrom, DescriptionOf, CH.KeepAll, CH.Received, CH.Sendable;
    var sr, sd := CH.SenderPart(ReportFrom(me, r, ntp)), CH.SourcePart(DescriptionOf(me));
    var bye := CH.ByePart(BY.Bye(2, false, [me.ssrc]));
    NarrowedOne(me, r, ntp);
    PartsSendable(me, r, ntp);
    assert Parts(me, r, ntp) == [sr] + [sd] && LastParts(me, r, ntp) == [sr] + [sd] + [bye];
    assert CH.Sendable(Parts(me, r, ntp)[0]) && CH.Sendable(Parts(me, r, ntp)[1])
        && CH.Sendable(LastParts(me, r, ntp)[2]);
    OtherPartsRead(me);
    KeepThree(sr, sd, bye);
  }

  lemma OtherPartsRead(me: Side)
    requires CH.Sendable(CH.SourcePart(DescriptionOf(me))) && CH.Sendable(CH.ByePart(BY.Bye(2, false, [me.ssrc])))
    ensures CH.Received(CH.SourcePart(DescriptionOf(me))).SourcePart?
    ensures CH.Received(CH.SourcePart(DescriptionOf(me))).sdes.chunks == DescriptionOf(me).chunks
    ensures CH.Received(CH.ByePart(BY.Bye(2, false, [me.ssrc]))) == CH.ByePart(BY.Bye(2, false, [me.ssrc]))
  {
    hide DescriptionOf, SD.SdesWords;
  }

  lemma KeepThree(a: CH.Part, b: CH.Part, c: CH.Part)
    requires CH.Sendable(a) && CH.Sendable(b) && CH.Sendable(c)
    ensures CH.AllSendable([a] + [b]) && CH.AllSendable([a] + [b] + [c])
    ensures var acc := CH.Keep(CH.Keep(CH.NOTHING, CH.Received(a)), CH.Received(b));
            && CH.KeepAll(CH.NOTHING, [a] + [b]) == acc
            && CH.KeepAll(CH.NOTHING, [a] + [b] + [c]) == CH.Keep(acc, CH.Received(c))
  {
    hide CH.Sendable, CH.Received, CH.Keep, CH.KeepAll;
    var one := CH.Keep(CH.NOTHING, CH.Received(a));
    var two := CH.Keep(one, CH.Received(b));
    KeepFirst(CH.NOTHING, a, [b]);
    KeepFirst(one, b, []);
    KeepNone(two);
    KeepFirst(CH.NOTHING, a, [b] + [c]);
    KeepFirst(one, b, [c]);
    KeepFirst(two, c, []);
    KeepNone(CH.Keep(two, CH.Received(c)));
    assert [a] + [b] + [c] == [a] + ([b] + [c]) && [b] + [] == [b] && [c] + [] == [c];
  }

  lemma KeepNone(acc: CH.Reports)
    ensures CH.KeepAll(acc, []) == acc
  {
  }

  lemma KeepFirst(acc: CH.Reports, p: CH.Part, rest: seq<CH.Part>)
    requires CH.Sendable(p) && CH.AllSendable(rest)
    ensures CH.AllSendable([p] + rest) && CH.KeepAll(acc, [p] + rest) == CH.KeepAll(CH.Keep(acc, CH.Received(p)), rest)
  {
    hide CH.Sendable, CH.Received, CH.Keep;
    assert ([p] + rest)[1..] == rest;
  }
}
