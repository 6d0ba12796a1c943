/**
 * What the reports of lib/codec.cpp tell, as the other side reads them from the words, field by field, and what the
 * reports of a whole run come to.
 */
module PeerReports {
  import opened Words
  import opened Options
  import opened Wire
  import opened Runs
  import opened Receiver
  import opened Rtcp
  import G = Gpio
  import RB = ReceptionBlocks
  import SR = SenderReports
  import BY = Byes
  import CH = ControlHeaders

  // ---------------------------------------------------------------- eleven bits

  lemma LowThree(l: bv4)
    ensures (l & 7) as nat == (l as nat) % 8
  {
  }

  lemma EightBits(h: bv4, l: bv4)
    ensures var b := ((h as bv8) << 4) | (l as bv8);
            ((b & 7) >> 4) & 0xf == 0 && ((b & 7) & 0xf) as bv4 == l & 7
  {
  }

  lemma OctetLow(n: nat)
    requires n < 256
    ensures OctetValue(OctetOf(n) & 7) == n % 8
  {
    Digit(n % 16);
    EightBits((n / 16) as bv4, (n % 16) as bv4);
    LowThree((n % 16) as bv4);
  }

  function TwoOctets(a: bv8, b: bv8): bv32 {
    ((a as bv32) << 8) | (b as bv32)
  }

  lemma ElevenBits(h: bv32, a: bv8, b: bv8)
    requires h <= 0xffff
    ensures var w := RB.LowEleven(JoinHalves(h, TwoOctets(a, b)));
            UpperHalf(w) == 0 && LowerHalf(w) == TwoOctets(a & 7, b)
  {
  }

  lemma TwoOctetsValue(a: bv8, b: bv8)
    ensures HalfValue(TwoOctets(a, b)) == 256 * OctetValue(a) + OctetValue(b) && HalfValue(0) == 0
  {
    HalfOctets(a, b);
  }

  /** The low eleven bits of a number. */
  lemma ElevenBitsValue(n: uint32)
    ensures WordValue(RB.LowEleven(WordOf(n))) == n % 2048
  {
    hide OctetOf, OctetValue, RB.LowEleven, JoinHalves, UpperHalf, LowerHalf, HalfValue, TwoOctets;
    var l := n % 0x1_0000;
    var a, b := OctetOf(l / 256), OctetOf(l % 256);
    HalfRoundTrip(n / 0x1_0000);
    HalfIsTwo(l);
    ElevenBits(HalfWord(n / 0x1_0000), a, b);
    TwoOctetsValue(a & 7, b);
    OctetLow(l / 256);
    OctetRoundTrip(l % 256);
  }

  lemma HalfIsTwo(n: uint16)
    ensures HalfWord(n) == TwoOctets(OctetOf(n / 256), OctetOf(n % 256))
  {
  }

  // ---------------------------------------------------------------- what the other side reads

  /** The reception block, field by field: the fraction of the interval in 256ths, narrowed to four bits, all losses
      narrowed to eleven, the extended highest number, and when the last report came. */
  ghost predicate BlockTells(b: RB.Block, ssrc: bv32, r: Recv)
    requires r.lo > r.last
  {
    var fraction := (r.intervalLost as real) / ((r.lo - r.last) as real);
    && b.ssrc == ssrc
    && b.fraction == ((256.0 * fraction).Floor % 16) as real / 256.0
    && WordValue(b.lost) == r.totalLost % 2048
    && WordValue(b.highest) == 0x1_0000 * r.hi + r.lo
    && b.jitter == 0 && b.delay == 0
    && WordValue(b.lastReport) == (r.ntp / 0x1_0000) % 0x1_0000_0000
  }

  /** A report tells of its sender, and, exactly when there are numbers since the last one, of what it received. */
  ghost predicate Tells(reports: CH.Reports, me: Side, r: Recv, ntp: bv64) {
    && reports.sender.Some?
    && var s := reports.sender.value;
    && s.ssrc == me.ssrc && s.ntp == ntp
    && WordValue(s.packets) == me.packets && WordValue(s.octets) == me.octets
    && WordValue(s.rtp) == (90000 * me.packets) % 0x1_0000_0000
    && (r.lo <= r.last ==> s.blocks == [])
    && (r.lo > r.last ==> |s.blocks| == 1 && BlockTells(s.blocks[0], me.ssrc, r))
  }

  /** Its description names the sender, up to 255 octets, and holds its lines, most significant first. */
  ghost predicate Describes(reports: CH.Reports, me: Side) {
    && reports.source.Some? && |reports.source.value.chunks| == 2
    && var cs := reports.source.value.chunks;
    && cs[0].ctype == 1 && cs[0].data <= me.cname && (|cs[0].data| == 255 || cs[0].data == me.cname)
    && |cs[0].data| <= 255
    && cs[1].ctype == 8 && cs[1].data == [4, 0x47, 0x50, 0x49, 0x4f] + Octets([me.gpio])
  }

  lemma BlockSent(ssrc: bv32, r: Recv)
    requires r.lo > r.last
    ensures HasReport(r) && BlockTells(RB.Narrowed(BlockOf(ssrc, r)), ssrc, r)
  {
    hide WordOf, WordValue, RB.LowEleven;
    ElevenBitsValue(r.totalLost);
    WordRoundTrip(0x1_0000 * r.hi + r.lo);
    WordRoundTrip(Wrap32(r.ntp / 0x1_0000));
  }

  lemma ReadTells(me: Side, r: Recv, ntp: bv64, reports: CH.Reports)
    requires reports.sender == Some(ReportRead(me, r, ntp))
    ensures Tells(reports, me, r, ntp)
  {
    hide WordOf, WordValue, BlockOf, RB.Narrowed, BlockTells;
    WordRoundTrip(me.packets);
    WordRoundTrip(me.octets);
    WordRoundTrip(Wrap32(90000 * me.packets));
    if r.lo > r.last {
      BlockSent(me.ssrc, r);
    }
  }

  lemma DescriptionDescribes(me: Side, reports: CH.Reports)
    requires reports.source.Some? && reports.source.value.chunks == DescriptionOf(me).chunks
    ensures Describes(reports, me)
  {
    hide Octet;
    assert Octets([me.gpio]) == [Octet(me.gpio, 0), Octet(me.gpio, 1), Octet(me.gpio, 2), Octet(me.gpio, 3)];
  }

  /** From the words of a report, or of the last one, found at the start of any buffer, the other side reads all this,
      and a BYE of the sender's source exactly in the last. */
  lemma PeerReads(me: Side, r: Recv, ntp: bv64, last: bool, ws: seq<bv32>, n: nat)
    requires var sent := if last then LastWordsOf(me, r, ntp) else WordsOf(me, r, ntp);
             Holds(ws, 0, sent) && n == |sent|
    ensures CH.Walkable(ws, n, 0, CH.NOTHING)
    ensures var reports := CH.Walk(ws, n, 0, CH.NOTHING);
            && Tells(reports, me, r, ntp) && Describes(reports, me)
            && reports.bye == (if last then Some(BY.Bye(2, false, [me.ssrc])) else None)
            && forall gpio :: G.HeedAll(gpio, PrivateOf(reports)) == me.gpio
  {
    hide CH.CompoundWords, CH.Walk, CH.Walkable, ReportRead, DescriptionOf, Parts, LastParts, Tells, Describes,
         PrivateOf, G.HeedAll, CH.AllSendable, Holds;
    PartsSendable(me, r, ntp);
    ReportReachesPeer(me, r, ntp, last, ws, n, 0);
    var reports := CH.Walk(ws, n, 0, CH.NOTHING);
    ReadTells(me, r, ntp, reports);
    DescriptionDescribes(me, reports);
    forall gpio
      ensures G.HeedAll(gpio, PrivateOf(reports)) == me.gpio
    {
      ReportReachesPeer(me, r, ntp, last, ws, n, gpio);
    }
  }

  /** What hearing a report changes: the sender's packets are counted from the first report on, its time is kept; and
      after a BYE nothing is left of the source but that count. */
  lemma ReportHeard(me: Side, r: Recv, ntp: bv64, last: bool, ws: seq<bv32>, n: nat, mine: Recv, connected: bool)
    requires var sent := if last then LastWordsOf(me, r, ntp) else WordsOf(me, r, ntp);
             Holds(ws, 0, sent) && n == |sent|
    ensures CH.Walkable(ws, n, 0, CH.NOTHING)
    ensures var h := Hear(mine, CH.Walk(ws, n, 0, CH.NOTHING), connected);
            && h.startCount == (if mine.startCount == 0 then me.packets else mine.startCount)
            && (!last ==> h.ntp == 0x1_0000_0000 * WordValue(SR.NtpHigh(ntp)) + WordValue(SR.NtpLow(ntp)))
            && (!last ==> h == mine.(startCount := h.startCount, ntp := h.ntp))
            && (last ==> h == Recv(0, 0, 0, 0, if connected then 0 else mine.hi, 0, 0, 0, h.startCount))
  {
    hide CH.Walk, CH.Walkable, WordsOf, LastWordsOf, WordValue, Holds, Describes, PrivateOf, G.HeedAll, BlockTells;
    PeerReads(me, r, ntp, last, ws, n);
  }

  // ---------------------------------------------------------------- one report after another

  /** A report ends the interval it told of, and nothing else changes; one that had no block changes nothing. */
  lemma ReportEndsInterval(r: Recv)
    ensures Step(r, Report) == if r.lo > r.last then r.(intervalLost := 0, last := r.lo) else r
  {
  }

  /** So with no packet between, the next report has no block. */
  lemma NothingNewNoBlock(me: Side, r: Recv, ntp: bv64, ws: seq<bv32>, n: nat)
    requires Holds(ws, 0, WordsOf(me, Step(r, Report), ntp)) && n == |WordsOf(me, Step(r, Report), ntp)|
    ensures CH.Walkable(ws, n, 0, CH.NOTHING)
    ensures var reports := CH.Walk(ws, n, 0, CH.NOTHING); reports.sender.Some? && reports.sender.value.blocks == []
  {
    hide CH.Walk, CH.Walkable, WordsOf, WordValue, Holds, Describes, PrivateOf, G.HeedAll, BlockTells;
    PeerReads(me, Step(r, Report), ntp, false, ws, n);
    ReportEndsInterval(r);
  }

  /** How many packets the reports of a run say were expected, all told. */
  function ToldExpected(r: Recv, run: seq<Event>): int
    decreases |run|
  {
    if run == [] then 0
    else (if run[0].Report? && r.lo > r.last then r.lo - r.last else 0) + ToldExpected(Step(r, run[0]), run[1..])
  }

  /** How many losses they tell. */
  function ToldLost(r: Recv, run: seq<Event>): nat
    decreases |run|
  {
    if run == [] then 0
    else (if run[0].Report? && r.lo > r.last then r.intervalLost else 0) + ToldLost(Step(r, run[0]), run[1..])
  }

  /** By how much the highest number goes up, from zero again at a rollover. */
  function Advance(r: Recv, run: seq<Event>): int
    decreases |run|
  {
    if run == [] then 0
    else
      (if run[0].Report? then 0
       else match Classify(r, run[0].packet)
            case Rollover => run[0].packet.seqNo
            case InOrder => 1
            case Ahead => run[0].packet.seqNo - r.lo
            case _ => 0)
      + Advance(Step(r, run[0]), run[1..])
  }

  /** What a rollover or a new source makes the reports forget: the numbers expected since the last one. */
  function Forgotten(r: Recv, run: seq<Event>): int
    decreases |run|
  {
    if run == [] then 0
    else
      (if run[0].Arrive? && Classify(r, run[0].packet) in {Rollover, NewSource} then r.lo - r.last else 0)
      + Forgotten(Step(r, run[0]), run[1..])
  }

  lemma OneEvent(r: Recv, e: Event)
    ensures var n := Step(r, e);
            (if e.Report? && r.lo > r.last then r.lo - r.last else 0)
            + (if e.Arrive? && Classify(r, e.packet) in {Rollover, NewSource} then r.lo - r.last else 0)
            + (n.lo - n.last)
            == (r.lo - r.last)
               + (if e.Report? then 0
                  else match Classify(r, e.packet)
                       case Rollover => e.packet.seqNo
                       case InOrder => 1
                       case Ahead => e.packet.seqNo - r.lo
                       case _ => 0)
  {
    ReportEndsInterval(r);
    if e.Arrive? {
      ReceiveByKind(r, e.packet);
    }
  }

  /** Over any run: all numbers that the reports say were expected, with those since the last one, are the numbers gone
      up by, but for those that rollovers and new sources make them forget. */
  lemma {:induction false} ReportsCover(r: Recv, run: seq<Event>)
    ensures var e := Fold(Step, r, run);
            ToldExpected(r, run) + Forgotten(r, run) + (e.lo - e.last) == (r.lo - r.last) + Advance(r, run)
    decreases |run|
  {
    hide Step, Classify;
    if run != [] {
      OneEvent(r, run[0]);
      ReportsCover(Step(r, run[0]), run[1..]);
    }
  }

  /** One source, and no rollover. */
  predicate Plain(r: Recv, run: seq<Event>)
    decreases |run|
  {
    run == [] || (
      && (run[0].Arrive? ==> Classify(r, run[0].packet) !in {Rollover, NewSource})
      && Plain(Step(r, run[0]), run[1..]))
  }

  lemma {:induction false} PlainRun(r: Recv, run: seq<Event>)
    requires Plain(r, run)
    ensures Forgotten(r, run) == 0 && Fold(Step, r, run).lo == r.lo + Advance(r, run)
    ensures Fold(Step, r, run).start == r.start && Fold(Step, r, run).ssrc == r.ssrc
    decreases |run|
  {
    hide Wrap16, Wrap32;
    if run != [] {
      if run[0].Arrive? {
        ReceiveByKind(r, run[0].packet);
      }
      PlainRun(Step(r, run[0]), run[1..]);
    }
  }

  /** In one source without rollovers, from its first packet on: what the reports say was expected, with what is to
      report, is how far the number has come since that packet. */
  lemma ReportsCoverSource(r: Recv, p: Packet, run: seq<Event>)
    requires p.ssrc != r.ssrc && Plain(Receive(r, p), run)
    ensures var first := Receive(r, p);
            var e := Fold(Step, first, run);
            ToldExpected(first, run) + (e.lo - e.last) == e.lo - e.start && e.start == p.seqNo
  {
    var first := Receive(r, p);
    ReceiveByKind(r, p);
    PlainRun(first, run);
    ReportsCover(first, run);
  }

  lemma SumModulo(a: int, b: int, c: int, d: int, x: int)
    requires Wrap32(a) == Wrap32(b) && Wrap32(c) == Wrap32(d)
    ensures Wrap32(a + c - x) == Wrap32(b + d - x)
  {
  }

  /** And what they tell of losses, with what is to report, is the change of all losses, counted in 32 bits. */
  lemma {:induction false} ReportsTellLosses(r: Recv, run: seq<Event>)
    requires Plain(r, run)
    ensures var e := Fold(Step, r, run);
            Wrap32(ToldLost(r, run) + e.intervalLost + r.totalLost) == Wrap32(r.intervalLost + e.totalLost)
    decreases |run|
  {
    hide Classify, Step, Wrap32;
    if run != [] {
      var n, e := Step(r, run[0]), Fold(Step, r, run);
      var told := if run[0].Report? && r.lo > r.last then r.intervalLost else 0;
      OneLoss(r, run[0]);
      ReportsTellLosses(n, run[1..]);
      SumModulo(ToldLost(n, run[1..]) + e.intervalLost + n.totalLost, n.intervalLost + e.totalLost,
                told + n.intervalLost + r.totalLost, r.intervalLost + n.totalLost, n.intervalLost + n.totalLost);
    }
  }

  lemma OneLoss(r: Recv, e: Event)
    requires e.Arrive? ==> Classify(r, e.packet) != NewSource
    ensures var n := Step(r, e);
            Wrap32((if e.Report? && r.lo > r.last then r.intervalLost else 0) + n.intervalLost + r.totalLost) ==
            Wrap32(r.intervalLost + n.totalLost)
  {
    ReportEndsInterval(r);
    if e.Arrive? {
      ReceiveByKind(r, e.packet);
    }
  }

  // ---------------------------------------------------------------- the fraction in the block

  /** The fractions put into the blocks of a run's reports, before they are narrowed. */
  function Fractions(me: Side, ntp: bv64, r: Recv, run: seq<Event>): seq<real>
    decreases |run|
  {
    if run == [] then []
    else
      var blocks := if run[0].Report? then ReportFrom(me, r, ntp).blocks else [];
      (if blocks != [] then [blocks[0].fraction] else []) + Fractions(me, ntp, Step(r, run[0]), run[1..])
  }

  /** The fraction in a block is the losses of the interval over the packets expected in it, so it is at most one half
      exactly when the receiver's counts say so. */
  lemma FractionInBlock(me: Side, r: Recv, ntp: bv64)
    ensures ReportFrom(me, r, ntp).blocks == [] <==> r.lo <= r.last
    ensures r.lo > r.last ==>
              var f := ReportFrom(me, r, ntp).blocks[0].fraction;
              && f == (r.intervalLost as real) / ((r.lo - r.last) as real)
              && (f <= 0.5 <==> AtMostHalfLost(r))
  {
    hide WordOf, Wrap32;
    if r.lo > r.last {
      HalfQuotient(r.intervalLost as real, (r.lo - r.last) as real);
    }
  }

  lemma HalfQuotient(a: real, b: real)
    requires b > 0.0
    ensures a / b <= 0.5 <==> 2.0 * a <= b
  {
    var q := a / b;
    assert q * b == a;
    assert (0.5 - q) * b == 0.5 * b - a;
    assert 0.5 - q >= 0.0 ==> (0.5 - q) * b >= 0.0;
    assert 0.5 - q < 0.0 ==> (0.5 - q) * b < 0.0;
  }

  /** As long as every event is affordable, no block of any report tells more than one half. */
  lemma {:induction false} BlocksTellAtMostHalf(me: Side, ntp: bv64, r: Recv, run: seq<Event>)
    requires AtMostHalfLost(r) && AllAffordable(r, run)
    ensures forall i :: 0 <= i < |Fractions(me, ntp, r, run)| ==> Fractions(me, ntp, r, run)[i] <= 0.5
    decreases |run|
  {
    hide Step, Affordable, ReportFrom, AtMostHalfLost;
    if run != [] {
      FractionInBlock(me, r, ntp);
      AffordableExact(r, run[0]);
      BlocksTellAtMostHalf(me, ntp, Step(r, run[0]), run[1..]);
    }
  }

  /** And once one is not, a report that has a block then tells more. */
  lemma UnaffordableTellsMore(me: Side, ntp: bv64, r: Recv, e: Event)
    requires AtMostHalfLost(r) && !Affordable(r, e)
    ensures var n := Step(r, e);
            n.lo > n.last ==> ReportFrom(me, n, ntp).blocks != [] && ReportFrom(me, n, ntp).blocks[0].fraction > 0.5
  {
    hide Step, Affordable, ReportFrom, AtMostHalfLost;
    AffordableExact(r, e);
    FractionInBlock(me, Step(r, e), ntp);
  }
}
