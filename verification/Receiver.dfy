/**
 * lib/codec.cpp, the receive path: packet order, rollover, loss counters, and the sender reports
 * that read and clear them. Sequence numbers are 16 bits wide but compared as ints.
 */
module Receiver {
  import opened Words
  import opened Runs

  /** What the receiver looks at in an RTP packet. */
  datatype Packet = Packet(ssrc: uint32, seqNo: uint16, frame: seq<bv8>)

  /** The `codec_recv_*` fields. */
  datatype Recv = Recv(
    ssrc: uint32, totalLost: uint32, intervalLost: uint32,
    lo: uint16, hi: uint16, last: uint16, start: uint32,
    ntp: uint64, startCount: uint32)

  const FRESH: Recv := Recv(0, 0, 0, 0, 0, 0, 0, 0, 0)

  /** The receiver after a packet, as the body of the receive loop leaves it. */
  function Receive(r: Recv, p: Packet): Recv {
    if p.ssrc == r.ssrc then
      var lossSeen := p.seqNo != r.lo + 1 && p.seqNo != r.lo;
      var r1 := if lossSeen
                then r.(totalLost := Wrap32(r.totalLost + 1), intervalLost := Wrap32(r.intervalLost + 1))
                else r;
      if p.seqNo > r1.lo then r1.(lo := p.seqNo)
      else if r1.lo > 0xff00 && p.seqNo < r1.lo - 0xff00 then
        r1.(lo := p.seqNo, hi := Wrap16(r1.hi + 1), last := 0)
      else r1
    else
      r.(ssrc := p.ssrc, totalLost := 0, intervalLost := 0, lo := p.seqNo, last := p.seqNo,
         start := p.seqNo, ntp := 0, startCount := 0)
  }

  /** Whether the packet's frame goes on to the decoder. */
  predicate Accepts(r: Recv, p: Packet) {
    p.ssrc == r.ssrc ==> p.seqNo == r.lo + 1
  }

  /** What a sender report says of the source, and the receiver after it. */
  datatype LossReport = LossReport(interval: uint32, expected: uint16, total: uint32, highest: uint32)

  predicate HasReport(r: Recv) {
    r.lo > r.last
  }

  function ReportOf(r: Recv): LossReport
    requires HasReport(r)
  {
    LossReport(r.intervalLost, r.lo - r.last, r.totalLost, 0x1_0000 * r.hi + r.lo)
  }

  function AfterReport(r: Recv): Recv {
    if HasReport(r) then r.(intervalLost := 0, last := r.lo) else r
  }

  // ---------------------------------------------------------------- what a packet is

  datatype Kind = NewSource | InOrder | Duplicate | Ahead | Rollover | Late

  function Classify(r: Recv, p: Packet): Kind {
    if p.ssrc != r.ssrc then NewSource
    else if p.seqNo == r.lo then Duplicate
    else if p.seqNo == r.lo + 1 then InOrder
    else if p.seqNo > r.lo then Ahead
    else if r.lo - p.seqNo > 0xff00 then Rollover
    else Late
  }

  function Lose(r: Recv): Recv {
    r.(totalLost := Wrap32(r.totalLost + 1), intervalLost := Wrap32(r.intervalLost + 1))
  }

  /** Each kind of packet has one effect; at 65535 no packet is in order, and a jump back by more than
      0xff00 is taken for a rollover: counted as a loss, dropped, and used to resynchronise. */
  lemma ReceiveByKind(r: Recv, p: Packet)
    ensures Accepts(r, p) <==> Classify(r, p) in {NewSource, InOrder}
    ensures match Classify(r, p)
            case NewSource => Receive(r, p) == FRESH.(ssrc := p.ssrc, lo := p.seqNo, hi := r.hi, last := p.seqNo,
                start := p.seqNo)
            case InOrder => Receive(r, p) == r.(lo := p.seqNo)
            case Duplicate => Receive(r, p) == r
            case Ahead => Receive(r, p) == Lose(r).(lo := p.seqNo)
            case Rollover => Receive(r, p) == Lose(r).(lo := p.seqNo, hi := Wrap16(r.hi + 1), last := 0)
            case Late => Receive(r, p) == Lose(r)
  {
  }

  // ---------------------------------------------------------------- HyperStream: sending packets several times

  function ReceiveAll(r: Recv, packets: seq<Packet>): Recv {
    Fold(Receive, r, packets)
  }

  /** The frames handed to the decoder, in order. */
  function Frames(r: Recv, packets: seq<Packet>): seq<seq<bv8>>
    decreases |packets|
  {
    if packets == [] then []
    else (if Accepts(r, packets[0]) then [packets[0].frame] else []) + Frames(Receive(r, packets[0]), packets[1..])
  }

  lemma {:induction false} FramesJoin(r: Recv, a: seq<Packet>, b: seq<Packet>)
    ensures Frames(r, a + b) == Frames(r, a) + Frames(ReceiveAll(r, a), b)
    decreases |a|
  {
    hide Receive, Accepts;
    if a == [] {
      assert a + b == b;
    } else {
      FramesJoin(Receive(r, a[0]), a[1..], b);
      assert (a + b)[0] == a[0] && (a + b)[1..] == a[1..] + b;
    }
  }

  function Copies<T>(p: T, n: nat): seq<T> {
    seq(n, _ => p)
  }

  /** Every packet sent `times[i]` times in a row. */
  function Redundant<T>(packets: seq<T>, times: seq<nat>): seq<T>
    requires |times| == |packets|
  {
    if packets == [] then [] else Copies(packets[0], times[0]) + Redundant(packets[1..], times[1..])
  }

  ghost predicate AtLeastOnce(times: seq<nat>) {
    forall i :: 0 <= i < |times| ==> times[i] >= 1
  }

  ghost predicate SameButLosses(a: Recv, b: Recv) {
    a == b.(totalLost := a.totalLost, intervalLost := a.intervalLost)
  }

  /** No packet of the stream comes behind one that was already taken. */
  ghost predicate NoneLate(r: Recv, packets: seq<Packet>)
    decreases |packets|
  {
    packets == [] || (Classify(r, packets[0]) != Late && NoneLate(Receive(r, packets[0]), packets[1..]))
  }

  lemma CopiesHead<T>(p: T, n: nat)
    ensures |Copies(p, n)| == n
    ensures n > 0 ==> Copies(p, n)[0] == p && Copies(p, n)[1..] == Copies(p, n - 1)
  {
  }

  /** Copies of a packet that changes nothing. */
  lemma {:induction false} IdleCopies(r: Recv, p: Packet, n: nat)
    requires Receive(r, p) == r && !Accepts(r, p)
    ensures Frames(r, Copies(p, n)) == [] && ReceiveAll(r, Copies(p, n)) == r
  {
    if n > 0 {
      CopiesHead(p, n);
      IdleCopies(r, p, n - 1);
    }
  }

  function LoseMany(r: Recv, n: nat): Recv {
    r.(totalLost := Wrap32(r.totalLost + n), intervalLost := Wrap32(r.intervalLost + n))
  }

  lemma CountOn(a: uint32, n: nat)
    ensures Wrap32(a + 0) == a
    ensures n > 0 ==> Wrap32(Wrap32(a + 1) + n - 1) == Wrap32(a + n)
    ensures Wrap32(a + n) == a <==> Wrap32(n) == 0
  {
  }

  /** Each copy of a late packet counts a loss. */
  lemma {:induction false} LateCopies(r: Recv, p: Packet, n: nat)
    requires Classify(r, p) == Late
    ensures Frames(r, Copies(p, n)) == [] && ReceiveAll(r, Copies(p, n)) == LoseMany(r, n)
    decreases n
  {
    hide Wrap32, Wrap16, Copies, Receive;
    CopiesHead(p, n);
    CountOn(r.totalLost, 0);
    CountOn(r.intervalLost, 0);
    if n > 0 {
      ReceiveByKind(r, p);
      LateCopies(Lose(r), p, n - 1);
      CountOn(r.totalLost, n);
      CountOn(r.intervalLost, n);
    }
  }

  lemma RepeatFrames(r: Recv, p: Packet, n: nat)
    requires n >= 1
    ensures Copies(p, n) != []
    ensures ReceiveAll(r, Copies(p, n)) == ReceiveAll(Receive(r, p), Copies(p, n - 1))
    ensures Frames(r, Copies(p, n)) ==
            (if Accepts(r, p) then [p.frame] else []) + Frames(Receive(r, p), Copies(p, n - 1))
  {
    CopiesHead(p, n);
  }

  /** Repeating one packet leaves the receiver as one copy does exactly when the packet was not late
      (or the loss counters have gone a whole number of times round). */
  lemma RepeatOneExact(r: Recv, p: Packet, n: nat)
    requires n >= 1
    ensures ReceiveAll(r, Copies(p, n)) == Receive(r, p) <==> Classify(r, p) != Late || Wrap32(n - 1) == 0
    ensures Frames(r, Copies(p, n)) == if Accepts(r, p) then [p.frame] else []
    ensures SameButLosses(ReceiveAll(r, Copies(p, n)), Receive(r, p))
  {
    hide Wrap32, Wrap16, Accepts, Fold, Frames, Copies;
    var r1 := Receive(r, p);
    RepeatFrames(r, p, n);
    ReceiveByKind(r, p);
    ReceiveByKind(r1, p);
    if Classify(r, p) == Late {
      LateCopies(r1, p, n - 1);
      CountOn(r1.totalLost, n - 1);
      CountOn(r1.intervalLost, n - 1);
    } else {
      IdleCopies(r1, p, n - 1);
    }
  }

  lemma ReceiveSameButLosses(a: Recv, b: Recv, p: Packet)
    requires SameButLosses(a, b)
    ensures SameButLosses(Receive(a, p), Receive(b, p))
    ensures Accepts(a, p) == Accepts(b, p)
  {
    hide Wrap32, Wrap16;
  }

  lemma {:induction false} RunSameButLosses(a: Recv, b: Recv, packets: seq<Packet>)
    requires SameButLosses(a, b)
    ensures Frames(a, packets) == Frames(b, packets)
    ensures SameButLosses(ReceiveAll(a, packets), ReceiveAll(b, packets))
    decreases |packets|
  {
    if packets != [] {
      ReceiveSameButLosses(a, b, packets[0]);
      RunSameButLosses(Receive(a, packets[0]), Receive(b, packets[0]), packets[1..]);
    }
  }

  /** Sending each packet any number of times in a row changes neither the frames delivered nor
      anything of the receiver but its loss counters; and not those either when no packet is late. */
  lemma {:induction false} RedundancyIsTransparent(r: Recv, packets: seq<Packet>, times: seq<nat>)
    requires |times| == |packets| && AtLeastOnce(times)
    ensures Frames(r, Redundant(packets, times)) == Frames(r, packets)
    ensures SameButLosses(ReceiveAll(r, Redundant(packets, times)), ReceiveAll(r, packets))
    ensures NoneLate(r, packets) ==> ReceiveAll(r, Redundant(packets, times)) == ReceiveAll(r, packets)
    decreases |packets|
  {
    if packets != [] {
      var p, rest := packets[0], Redundant(packets[1..], times[1..]);
      var copies := Copies(p, times[0]);
      var once, often := Receive(r, p), ReceiveAll(r, copies);
      RepeatOneExact(r, p, times[0]);
      FramesJoin(r, copies, rest);
      FoldJoin(Receive, r, copies, rest);
      RunSameButLosses(often, once, rest);
      RedundancyIsTransparent(once, packets[1..], times[1..]);
    }
  }

  // ---------------------------------------------------------------- whole runs, with reports between

  datatype Event = Arrive(packet: Packet) | Report

  function Step(r: Recv, e: Event): Recv {
    match e
    case Arrive(p) => Receive(r, p)
    case Report => AfterReport(r)
  }

  /** The frames delivered over a run with reports in it. */
  function EventFrames(r: Recv, run: seq<Event>): seq<seq<bv8>>
    decreases |run|
  {
    if run == [] then []
    else
      (if run[0].Arrive? && Accepts(r, run[0].packet) then [run[0].packet.frame] else [])
      + EventFrames(Step(r, run[0]), run[1..])
  }

  function PacketsOf(run: seq<Event>): seq<Packet> {
    if run == [] then [] else (if run[0].Arrive? then [run[0].packet] else []) + PacketsOf(run[1..])
  }

  ghost predicate SameOrder(a: Recv, b: Recv) {
    a.ssrc == b.ssrc && a.lo == b.lo && a.hi == b.hi && a.totalLost == b.totalLost
  }

  /** Sending reports, whenever, changes neither the frames delivered nor the numbers taken nor the losses. */
  lemma {:induction false} ReportsDoNotDisturb(a: Recv, b: Recv, run: seq<Event>)
    requires SameOrder(a, b)
    ensures EventFrames(a, run) == Frames(b, PacketsOf(run))
    ensures SameOrder(Fold(Step, a, run), ReceiveAll(b, PacketsOf(run)))
    decreases |run|
  {
    hide Wrap16, Wrap32;
    if run != [] {
      var e, rest := run[0], PacketsOf(run[1..]);
      if e.Arrive? {
        assert PacketsOf(run) == [e.packet] + rest && ([e.packet] + rest)[1..] == rest;
        ReportsDoNotDisturb(Step(a, e), Receive(b, e.packet), run[1..]);
      } else {
        assert PacketsOf(run) == rest;
        ReportsDoNotDisturb(Step(a, e), b, run[1..]);
      }
    }
  }

  /** The receiver with a record of what happened since its source began: packets of each sort,
      rollovers, losses already reported, and the extended numbers of the delivered frames. */
  datatype Observed = Observed(
    recv: Recv, hiAtStart: uint16, wraps: nat,
    received: nat, accepted: nat, duplicates: nat, lost: nat, reported: nat,
    delivered: seq<nat>)
  {
    /** The highest number taken so far, rollovers included. */
    function Highest(): nat { 0x1_0000 * wraps + recv.lo }
  }

  function Begin(r: Recv): Observed {
    Observed(r, r.hi, 0, 0, 0, 0, 0, 0, [])
  }

  function Observe(o: Observed, e: Event): Observed {
    var next := Step(o.recv, e);
    match e
    case Report =>
      o.(recv := next, reported := o.reported + if HasReport(o.recv) then o.recv.intervalLost else 0)
    case Arrive(p) =>
      var o1 := o.(recv := next, received := o.received + 1);
      match Classify(o.recv, p)
      case NewSource => Begin(next).(received := 1, accepted := 1, delivered := [p.seqNo])
      case InOrder => o1.(accepted := o.accepted + 1, delivered := o.delivered + [0x1_0000 * o.wraps + p.seqNo])
      case Duplicate => o1.(duplicates := o.duplicates + 1)
      case Ahead => o1.(lost := o.lost + 1)
      case Rollover => o1.(lost := o.lost + 1, wraps := o.wraps + 1)
      case Late => o1.(lost := o.lost + 1)
  }

  function ObserveAll(o: Observed, run: seq<Event>): Observed {
    Fold(Observe, o, run)
  }

  ghost predicate Increasing(s: seq<nat>) {
    forall i, j :: 0 <= i < j < |s| ==> s[i] < s[j]
  }

  /** Numbers only go up, no frame is delivered twice or out of order, the last reported number is
      never ahead of the highest, and every packet and every loss is accounted for. */
  ghost predicate Consistent(o: Observed) {
    && Increasing(o.delivered)
    && (forall i :: 0 <= i < |o.delivered| ==> o.delivered[i] <= o.Highest())
    && |o.delivered| == o.accepted
    && o.recv.last <= o.recv.lo
    && o.recv.hi == Wrap16(o.hiAtStart + o.wraps)
    && o.received == o.accepted + o.duplicates + o.lost
    && o.recv.totalLost == Wrap32(o.lost)
    && Wrap32(o.reported + o.recv.intervalLost) == Wrap32(o.lost)
  }

  lemma AddOneMod(a: nat, b: nat)
    requires Wrap32(a) == Wrap32(b)
    ensures Wrap32(a + 1) == Wrap32(b + 1) && Wrap32(Wrap32(a) + 1) == Wrap32(a + 1)
  {
  }

  lemma AddInside(a: nat, b: nat)
    ensures Wrap32(a + Wrap32(b + 1)) == Wrap32(a + b + 1)
  {
  }

  lemma NoneLost()
    ensures Wrap32(0) == 0
  {
  }

  lemma WrapsInside(hi: uint16, wraps: nat)
    ensures Wrap16(hi) == hi && Wrap16(Wrap16(hi + wraps) + 1) == Wrap16(hi + (wraps + 1))
  {
  }

  lemma CountsStayConsistent(o: Observed, e: Event)
    requires Consistent(o)
    ensures var n := Observe(o, e);
            && n.recv.last <= n.recv.lo
            && n.recv.hi == Wrap16(n.hiAtStart + n.wraps)
            && n.received == n.accepted + n.duplicates + n.lost
            && n.recv.totalLost == Wrap32(n.lost)
            && Wrap32(n.reported + n.recv.intervalLost) == Wrap32(n.lost)
  {
    hide Receive, Accepts, Wrap32, Wrap16, Increasing;
    WrapsInside(o.hiAtStart, o.wraps);
    WrapsInside(o.recv.hi, 0);
    AddOneMod(o.lost, o.lost);
    AddOneMod(o.reported + o.recv.intervalLost, o.lost);
    AddInside(o.reported, o.recv.intervalLost);
    NoneLost();
    if e.Arrive? {
      ReceiveByKind(o.recv, e.packet);
    }
  }

  lemma ObserveKeepsConsistent(o: Observed, e: Event)
    requires Consistent(o)
    ensures Consistent(Observe(o, e))
    ensures e.Report? || Classify(o.recv, e.packet) != NewSource ==> Observe(o, e).Highest() >= o.Highest()
  {
    CountsStayConsistent(o, e);
    if e.Arrive? {
      ReceiveByKind(o.recv, e.packet);
    }
  }

  /** Over every arrival order and any reports between, from a receiver that has just been set up. */
  lemma {:induction false} RunConsistent(o: Observed, run: seq<Event>)
    requires Consistent(o)
    ensures Consistent(ObserveAll(o, run))
    decreases |run|
  {
    if run != [] {
      ObserveKeepsConsistent(o, run[0]);
      RunConsistent(Observe(o, run[0]), run[1..]);
    }
  }

  lemma FreshIsConsistent()
    ensures Consistent(Begin(FRESH))
  {
  }

  /** The 32-bit extended number goes down in a step exactly when its upper half overflows. */
  lemma ExtendedNumberExact(r: Recv, p: Packet)
    requires p.ssrc == r.ssrc
    ensures var r1 := Receive(r, p);
            0x1_0000 * r1.hi + r1.lo < 0x1_0000 * r.hi + r.lo <==> Classify(r, p) == Rollover && r.hi == 0xffff
  {
    ReceiveByKind(r, p);
  }

  // ---------------------------------------------------------------- the reported loss fraction

  /** The losses since the last report are at most half of the packets expected since then. */
  ghost predicate AtMostHalfLost(r: Recv) {
    r.last <= r.lo && 2 * r.intervalLost <= r.lo - r.last
  }

  /** What a report says of it, when there is one. */
  lemma ReportedHalf(r: Recv)
    requires HasReport(r)
    ensures AtMostHalfLost(r) <==> 2 * ReportOf(r).interval <= ReportOf(r).expected
  {
  }

  /** What the state before an event must leave room for: a late packet for one more loss, a rollover,
      which starts the count of expected packets afresh, for all losses so far and its own. */
  predicate Affordable(r: Recv, e: Event) {
    match e
    case Report => true
    case Arrive(p) =>
      match Classify(r, p)
      case Late => 2 * (r.intervalLost + 1) <= r.lo - r.last
      case Rollover => 2 * (r.intervalLost + 1) <= p.seqNo
      case _ => true
  }

  /** An event keeps the bound exactly when it is affordable; only late packets and rollovers may not be. */
  lemma AffordableExact(r: Recv, e: Event)
    requires AtMostHalfLost(r)
    ensures AtMostHalfLost(Step(r, e)) <==> Affordable(r, e)
  {
    if e.Arrive? {
      ReceiveByKind(r, e.packet);
    }
  }

  /** The bound holds from here on, after every event of the run. */
  ghost predicate AlwaysAtMostHalf(r: Recv, run: seq<Event>)
    decreases |run|
  {
    AtMostHalfLost(r) && (run == [] || AlwaysAtMostHalf(Step(r, run[0]), run[1..]))
  }

  predicate AllAffordable(r: Recv, run: seq<Event>)
    decreases |run|
  {
    run == [] || (Affordable(r, run[0]) && AllAffordable(Step(r, run[0]), run[1..]))
  }

  /** Over any run, in any order and with any reports: at no time are more than half of the packets
      expected lost, and so reported lost, exactly when every event was affordable as it came. */
  lemma {:induction false} HalfLostExactly(r: Recv, run: seq<Event>)
    requires AtMostHalfLost(r)
    ensures AlwaysAtMostHalf(r, run) <==> AllAffordable(r, run)
    decreases |run|
  {
    hide Affordable, Step, AtMostHalfLost;
    if run != [] {
      AffordableExact(r, run[0]);
      if Affordable(r, run[0]) {
        HalfLostExactly(Step(r, run[0]), run[1..]);
      }
    }
  }

  /** No packet of the run is late and none rolls over. */
  ghost predicate Forward(r: Recv, run: seq<Event>)
    decreases |run|
  {
    run == [] || (
      && (run[0].Arrive? ==> Classify(r, run[0].packet) != Late && Classify(r, run[0].packet) != Rollover)
      && Forward(Step(r, run[0]), run[1..]))
  }

  /** In particular the bound holds over every run without late packets and rollovers. */
  lemma {:induction false} ForwardRunLosesAtMostHalf(r: Recv, run: seq<Event>)
    requires AtMostHalfLost(r) && Forward(r, run)
    ensures AllAffordable(r, run) && AlwaysAtMostHalf(r, run)
    decreases |run|
  {
    hide Step, AtMostHalfLost, Classify;
    HalfLostExactly(r, run);
    if run != [] {
      AffordableExact(r, run[0]);
      ForwardRunLosesAtMostHalf(Step(r, run[0]), run[1..]);
    }
  }

  lemma FoldThree(r: Recv, a: Event, b: Event, c: Event)
    ensures Fold(Step, r, [a] + [b] + [c]) == Step(Step(Step(r, a), b), c)
  {
    FoldJoin(Step, r, [a], [b]);
    FoldJoin(Step, r, [a] + [b], [c]);
    FoldOne(Step, r, a);
    FoldOne(Step, Step(r, a), b);
    FoldOne(Step, Step(Step(r, a), b), c);
  }

  /** A late packet breaks the bound: one loss of one packet expected. */
  lemma LatePacketReportsAllLost()
    ensures exists run ::
      var r := Fold(Step, FRESH, run);
      HasReport(r) && ReportOf(r).interval == ReportOf(r).expected == 1
  {
    var a, b, c := Arrive(Packet(7, 10, [])), Arrive(Packet(7, 11, [])), Arrive(Packet(7, 5, []));
    FoldThree(FRESH, a, b, c);
    assert Fold(Step, FRESH, [a] + [b] + [c]) == FRESH.(ssrc := 7, totalLost := 1, intervalLost := 1, lo := 11,
        last := 10, start := 10);
  }

  /** So does a rollover, though the three packets are consecutive and none was lost. */
  lemma RolloverReportsAllLost()
    ensures exists run ::
      var r := Fold(Step, FRESH, run);
      HasReport(r) && ReportOf(r).interval == ReportOf(r).expected == 1
      && run == [Arrive(Packet(7, 65535, [])), Arrive(Packet(7, 0, [])), Arrive(Packet(7, 1, []))]
  {
    var a, b, c := Arrive(Packet(7, 65535, [])), Arrive(Packet(7, 0, [])), Arrive(Packet(7, 1, []));
    FoldThree(FRESH, a, b, c);
    assert [a] + [b] + [c] == [a, b, c];
    assert Fold(Step, FRESH, [a, b, c]) == FRESH.(ssrc := 7, totalLost := 1, intervalLost := 1, lo := 1, hi := 1,
        start := 65535);
  }
}
