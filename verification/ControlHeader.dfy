/** lib/rtpcontrolheader.cpp: walking a compound RTCP packet, section 6.1 of RFC 3550. */
module ControlHeaders {
  import opened Options
  import opened Wire
  import SR = SenderReports
  import SD = SourceDescriptions
  import BY = Byes

  /** The first packet of each kind. */
  datatype Reports = Reports(sender: Option<SR.Report>, source: Option<SD.Sdes>, bye: Option<BY.Bye>)

  const NOTHING: Reports := Reports(None, None, None)

  const VERSION: bv32 := 2

  /** A receiver report is looked for by comparing 16 bits, version and all, so it is never recognised. */
  lemma ReceiverReportNeverRecognised(head: bv32)
    requires VersionOf(head) == VERSION
    ensures 0xffff & (head >> 16) != 201
  {
  }

  /** Reading the packet at `at` stays within the buffer. */
  predicate FitsAt(ws: seq<bv32>, at: nat, acc: Reports)
    requires at < |ws|
  {
    && (TypeOf(ws[at]) == SR.PT && acc.sender.None? ==> SR.Fits(ws, at))
    && (TypeOf(ws[at]) == SD.PT && acc.source.None? ==> SD.Fits(ws, at))
    && (TypeOf(ws[at]) == BY.PT && acc.bye.None? ==> BY.Fits(ws, at))
  }

  function TakeAt(ws: seq<bv32>, at: nat, acc: Reports): Reports
    requires at < |ws| && FitsAt(ws, at, acc)
  {
    if TypeOf(ws[at]) == SR.PT && acc.sender.None? then acc.(sender := Some(SR.ParseReport(ws, at)))
    else if TypeOf(ws[at]) == SD.PT && acc.source.None? then acc.(source := Some(SD.ParseSdes(ws, at)))
    else if TypeOf(ws[at]) == BY.PT && acc.bye.None? then acc.(bye := Some(BY.ParseBye(ws, at)))
    else acc
  }

  function PacketSize(ws: seq<bv32>, at: nat): (n: nat)
    requires at < |ws|
    ensures n >= 1
  {
    HalfValue(LengthOf(ws[at])) + 1
  }

  /** Every packet that the walk of `n` words visits stays within the buffer. */
  predicate Walkable(ws: seq<bv32>, n: nat, at: nat, acc: Reports)
    decreases n - at
  {
    at < n ==>
      && at < |ws|
      && (VersionOf(ws[at]) == VERSION ==>
        FitsAt(ws, at, acc) && Walkable(ws, n, at + PacketSize(ws, at), TakeAt(ws, at, acc)))
  }

  /** From packet to packet by their length fields, as long as the version is right. */
  function Walk(ws: seq<bv32>, n: nat, at: nat, acc: Reports): Reports
    requires Walkable(ws, n, at, acc)
    decreases n - at
  {
    if at < n && VersionOf(ws[at]) == VERSION then
      Walk(ws, n, at + PacketSize(ws, at), TakeAt(ws, at, acc))
    else acc
  }

  /** Words after the received ones that reading any packet may reach. */
  const SLACK := 1994

  lemma {:induction false} ItemsFitWithRoom(oct: seq<bv8>, pos: nat, n: nat)
    requires pos + 257 * n <= |oct|
    ensures SD.ItemsFit(oct, pos, n) && SD.ItemsEnd(oct, pos, n) <= pos + 257 * n
  {
    hide OctetValue;
    if n > 0 {
      ItemsFitWithRoom(oct, pos, n - 1);
    }
  }

  /** Whatever words arrive, the walk ends; with enough buffer behind them it stays inside it. */
  lemma {:induction false} AnyWordsWalkable(ws: seq<bv32>, n: nat, at: nat, acc: Reports)
    requires n + SLACK <= |ws|
    ensures Walkable(ws, n, at, acc)
    decreases n - at
  {
    hide SR.ParseReport, SD.ParseSdes, BY.ParseBye, CountOf, CountValue, TypeOf, VersionOf, HalfValue, LengthOf, Octets;
    if at < n && VersionOf(ws[at]) == VERSION {
      ItemsFitWithRoom(Octets(ws), 4 * (at + 2), CountValue(CountOf(ws[at])));
      AnyWordsWalkable(ws, n, at + PacketSize(ws, at), TakeAt(ws, at, acc));
    }
  }

  /** The walk ends at a packet of another version, and passes over one of another type by its length. */
  lemma OthersArePassed(ws: seq<bv32>, n: nat, at: nat, acc: Reports)
    requires Walkable(ws, n, at, acc) && at < n
    ensures at < |ws|
    ensures VersionOf(ws[at]) != 2 ==> Walk(ws, n, at, acc) == acc
    ensures var next := at + HalfValue(LengthOf(ws[at])) + 1;
            VersionOf(ws[at]) == 2 && TypeOf(ws[at]) !in {200, 202, 203} ==>
              Walkable(ws, n, next, acc) && Walk(ws, n, at, acc) == Walk(ws, n, next, acc)
  {
    hide VersionOf, TypeOf, HalfValue, LengthOf, SR.Fits, SD.Fits, BY.Fits;
  }

  // ---------------------------------------------------------------- compound round trip

  datatype Part = SenderPart(report: SR.Report) | SourcePart(sdes: SD.Sdes) | ByePart(bye: BY.Bye)

  ghost predicate Sendable(p: Part) {
    match p
    case SenderPart(r) => SR.Writable(r) && !r.padding && r.version == VERSION
    case SourcePart(d) => SD.Writable(d) && d.version == VERSION
    case ByePart(b) => BY.Writable(b) && !b.padding && b.version == VERSION
  }

  function PartWords(p: Part): (ws: seq<bv32>)
    requires Sendable(p)
    ensures |ws| >= 1
  {
    match p
    case SenderPart(r) => SR.ReportWords(r)
    case SourcePart(d) => SD.SdesWords(d)
    case ByePart(b) => BY.ByeWords(b)
  }

  ghost predicate AllSendable(parts: seq<Part>) {
    forall i :: 0 <= i < |parts| ==> Sendable(parts[i])
  }

  function CompoundWords(parts: seq<Part>): seq<bv32>
    requires AllSendable(parts)
  {
    if parts == [] then [] else PartWords(parts[0]) + CompoundWords(parts[1..])
  }

  /** How a receiver reads a part: losses narrowed, the padding bit mixed with the count, and for a
      description not its source but the octets that follow. */
  function Received(p: Part): Part
    requires Sendable(p)
  {
    match p
    case SenderPart(r) => SenderPart(r.(padding := |r.blocks| >= 16, blocks := SR.AllNarrowed(r.blocks)))
    case SourcePart(d) =>
      SD.SizeCoversItems(d.chunks);
      SourcePart(SD.Sdes(d.version, |d.chunks| >= 16, d.chunks, Repeated(SD.SdesWords(d)[2], |d.chunks| + 1)))
    case ByePart(b) => ByePart(b.(padding := |b.ssrcs| >= 16))
  }

  /** Keeps a part unless one of its kind was kept before. */
  function Keep(acc: Reports, p: Part): Reports {
    match p
    case SenderPart(r) => if acc.sender.None? then acc.(sender := Some(r)) else acc
    case SourcePart(d) => if acc.source.None? then acc.(source := Some(d)) else acc
    case ByePart(b) => if acc.bye.None? then acc.(bye := Some(b)) else acc
  }

  function KeepAll(acc: Reports, parts: seq<Part>): Reports
    requires AllSendable(parts)
    decreases |parts|
  {
    if parts == [] then acc else KeepAll(Keep(acc, Received(parts[0])), parts[1..])
  }

  /** A part found anywhere in the buffer is read back, and its length field covers it exactly. */
  lemma PartRoundTrip(p: Part, ws: seq<bv32>, at: nat, acc: Reports)
    requires Sendable(p) && Holds(ws, at, PartWords(p))
    ensures at < |ws| && VersionOf(ws[at]) == VERSION && PacketSize(ws, at) == |PartWords(p)|
    ensures FitsAt(ws, at, acc) && TakeAt(ws, at, acc) == Keep(acc, Received(p))
  {
    HoldsAt(ws, at, PartWords(p), 0);
    match p
    case SenderPart(r) => SenderRoundTrip(r, ws, at, acc);
    case SourcePart(d) => SourceRoundTrip(d, ws, at, acc);
    case ByePart(b) => ByePartRoundTrip(b, ws, at, acc);
  }

  lemma SenderRoundTrip(r: SR.Report, ws: seq<bv32>, at: nat, acc: Reports)
    requires Sendable(SenderPart(r)) && Holds(ws, at, SR.ReportWords(r)) && ws[at] == SR.ReportWords(r)[0]
    ensures VersionOf(ws[at]) == VERSION && PacketSize(ws, at) == |SR.ReportWords(r)|
    ensures FitsAt(ws, at, acc) && TakeAt(ws, at, acc) == Keep(acc, Received(SenderPart(r)))
  {
    hide VersionOf, TypeOf, LengthOf, HalfValue, SR.ParseReport, SR.ReportWords, SR.AllNarrowed, SR.Fits, SD.Fits,
         BY.Fits;
    SR.HeadRoundTrip(r);
    SR.ReportRoundTrip(r, ws, at);
  }

  lemma SourceRoundTrip(d: SD.Sdes, ws: seq<bv32>, at: nat, acc: Reports)
    requires Sendable(SourcePart(d)) && Holds(ws, at, SD.SdesWords(d))
    ensures at < |ws| && VersionOf(ws[at]) == VERSION && PacketSize(ws, at) == |SD.SdesWords(d)|
    ensures FitsAt(ws, at, acc) && TakeAt(ws, at, acc) == Keep(acc, Received(SourcePart(d)))
  {
    hide VersionOf, TypeOf, LengthOf, HalfValue, SD.ParseSdes, SD.SdesWords, SR.Fits, SD.Fits, BY.Fits,
         SD.TotalSize, SD.Items;
    SD.SdesRoundTrip(d, ws, at);
  }

  lemma ByePartRoundTrip(b: BY.Bye, ws: seq<bv32>, at: nat, acc: Reports)
    requires Sendable(ByePart(b)) && Holds(ws, at, BY.ByeWords(b)) && ws[at] == BY.ByeWords(b)[0]
    ensures VersionOf(ws[at]) == VERSION && PacketSize(ws, at) == |BY.ByeWords(b)|
    ensures FitsAt(ws, at, acc) && TakeAt(ws, at, acc) == Keep(acc, Received(ByePart(b)))
  {
    hide VersionOf, TypeOf, LengthOf, HalfValue, BY.ParseBye, BY.ByeWords, SR.Fits, SD.Fits, BY.Fits;
    BY.HeadRoundTrip(b);
    BY.ByeRoundTrip(b, ws, at);
  }

  /** Walking any list of packets, in any order, recovers the first of each kind. */
  lemma {:induction false} CompoundRoundTrip(parts: seq<Part>, ws: seq<bv32>, n: nat, at: nat, acc: Reports)
    requires AllSendable(parts) && Holds(ws, at, CompoundWords(parts)) && n == at + |CompoundWords(parts)|
    ensures Walkable(ws, n, at, acc) && Walk(ws, n, at, acc) == KeepAll(acc, parts)
    decreases |parts|
  {
    hide PartWords, Received, FitsAt, TakeAt, PacketSize, VersionOf;
    if parts != [] {
      HoldsSplit(ws, at, PartWords(parts[0]), CompoundWords(parts[1..]));
      PartRoundTrip(parts[0], ws, at, acc);
      CompoundRoundTrip(parts[1..], ws, n, at + |PartWords(parts[0])|, Keep(acc, Received(parts[0])));
    }
  }

  // ---------------------------------------------------------------- the program's object

  class ControlHeader {
    var senderReport: SR.SenderReport?
    var sourceDescription: SD.SourceDescription?
    var byePacket: BY.RtpBye?

    ghost function Footprint(): set<object>
      reads this, senderReport
    {
      {this}
      + (if senderReport == null then {} else {senderReport} + (set b: object | b in senderReport.blocks))
      + (if sourceDescription == null then {} else {sourceDescription})
      + (if byePacket == null then {} else {byePacket})
    }

    ghost predicate Valid()
      reads this, sourceDescription
    {
      sourceDescription != null ==> sourceDescription.Valid()
    }

    ghost function View(): Reports
      requires Valid()
      reads this, senderReport, sourceDescription, Footprint()
    {
      Reports(if senderReport == null then None else Some(senderReport.View()),
              if sourceDescription == null then None else Some(sourceDescription.View()),
              if byePacket == null then None else Some(byePacket.View()))
    }

    constructor ()
      ensures Valid() && View() == NOTHING && Footprint() == {this}
    {
      senderReport, sourceDescription, byePacket := null, null, null;
    }

    method TakeSender(data: array<bv32>, at: nat)
      requires Valid() && senderReport == null && at < data.Length && SR.Fits(data[..], at) && TypeOf(data[at]) == SR.PT
      modifies this
      ensures Valid() && View() == old(View()).(sender := Some(SR.ParseReport(data[..], at)))
      ensures fresh(Footprint() - old(Footprint()))
    {
      hide SR.ParseReport, TypeOf, SR.Fits;
      var report := new SR.SenderReport(0);
      var _ := report.ReadBlock(data, at);
      senderReport := report;
    }

    method TakeSource(data: array<bv32>, at: nat)
      requires Valid() && sourceDescription == null && at < data.Length && SD.Fits(data[..], at)
          && TypeOf(data[at]) == SD.PT
      modifies this
      ensures Valid() && View() == old(View()).(source := Some(SD.ParseSdes(data[..], at)))
      ensures fresh(Footprint() - old(Footprint()))
    {
      hide SD.ParseSdes, TypeOf, SD.Fits;
      var sdes := new SD.SourceDescription();
      var _ := sdes.ReadBlock(data, at);
      sourceDescription := sdes;
    }

    method TakeBye(data: array<bv32>, at: nat)
      requires Valid() && byePacket == null && at < data.Length && BY.Fits(data[..], at) && TypeOf(data[at]) == BY.PT
      modifies this
      ensures Valid() && View() == old(View()).(bye := Some(BY.ParseBye(data[..], at)))
      ensures fresh(Footprint() - old(Footprint()))
    {
      hide BY.ParseBye, TypeOf, BY.Fits;
      var bye := new BY.RtpBye();
      var _ := bye.ReadBlock(data, at);
      byePacket := bye;
    }

    /** Reads the packet at `at` unless one of its kind is held already. */
    method TakePacket(data: array<bv32>, at: nat)
      requires Valid() && at < data.Length && FitsAt(data[..], at, View())
      modifies this
      ensures Valid() && View() == TakeAt(data[..], at, old(View()))
      ensures fresh(Footprint() - old(Footprint()))
    {
      hide SR.ParseReport, SD.ParseSdes, BY.ParseBye, TypeOf, SR.Fits, SD.Fits, BY.Fits;
      if TypeOf(data[at]) == SR.PT {
        if senderReport == null {
          TakeSender(data, at);
        }
      } else if TypeOf(data[at]) == SD.PT {
        if sourceDescription == null {
          TakeSource(data, at);
        }
      } else if TypeOf(data[at]) == BY.PT {
        if byePacket == null {
          TakeBye(data, at);
        }
      }
    }

    /** `len` counts octets. */
    method ReadBlock(data: array<bv32>, len: nat)
      requires Valid() && Walkable(data[..], len / 4, 0, View())
      modifies this
      ensures Valid() && View() == Walk(data[..], len / 4, 0, old(View()))
      ensures fresh(Footprint() - old(Footprint()))
    {
      hide FitsAt, TakeAt, VersionOf, PacketSize;
      var at := 0;
      while at < len / 4 && VersionOf(data[at]) == VERSION
        invariant Valid() && Walkable(data[..], len / 4, at, View())
        invariant Walk(data[..], len / 4, at, View()) == Walk(data[..], len / 4, 0, old(View()))
        invariant fresh(Footprint() - old(Footprint()))
        decreases len / 4 - at
      {
        var size := PacketSize(data[..], at);
        TakePacket(data, at);
        at := at + size;
      }
    }
  }
}
