/**
 * One sender's packets at a receiver: operator++ of lib/rtpheader.cpp against the receive path of
 * lib/codec.cpp, for a stream of any length from any first number.
 */
module Streams {
  import opened Words
  import opened Runs
  import opened Wire
  import opened RtpHeaders
  import opened Receiver

  /** operator++ on a header. */
  function Next(h: Header, interval: uint32): Header {
    h.(seqNo := Wrap16(h.seqNo + 1), timestamp := Wrap32(h.timestamp + interval))
  }

  /** The header after `n` packets. */
  function HeaderAfter(h: Header, interval: uint32, n: nat): Header {
    if n == 0 then h else Next(HeaderAfter(h, interval, n - 1), interval)
  }

  lemma {:induction false} HeaderAfterNext(h: Header, interval: uint32, n: nat)
    ensures HeaderAfter(Next(h, interval), interval, n) == HeaderAfter(h, interval, n + 1)
  {
    hide Next;
    if n > 0 {
      HeaderAfterNext(h, interval, n - 1);
    }
  }

  /** The packets a sender makes of its frames: each carries the header as it stands, which then moves on. */
  function Sent(h: Header, interval: uint32, frames: seq<seq<bv8>>): seq<Packet>
    decreases |frames|
  {
    if frames == [] then []
    else [Packet(WordValue(h.ssrc), h.seqNo, frames[0])] + Sent(Next(h, interval), interval, frames[1..])
  }

  /** The frames but those that fall on a multiple of 65536, the first of them being number `first`. */
  function ButWraps(first: nat, frames: seq<seq<bv8>>): seq<seq<bv8>>
    decreases |frames|
  {
    if frames == [] then []
    else (if first % 0x1_0000 != 0 then [frames[0]] else []) + ButWraps(first + 1, frames[1..])
  }

  /** How many times the number wraps on the way from `lo` to the n-th packet after it. */
  function Wraps(lo: uint16, n: nat): nat {
    (lo + n) / 0x1_0000
  }

  /** The receiver after the n packets that follow the one it has, none of them lost. */
  function After(r: Recv, n: nat): Recv {
    var wraps := Wraps(r.lo, n);
    r.(lo := Wrap16(r.lo + n), hi := Wrap16(r.hi + wraps),
       totalLost := Wrap32(r.totalLost + wraps), intervalLost := Wrap32(r.intervalLost + wraps),
       last := if wraps > 0 then 0 else r.last)
  }

  lemma AfterNone(r: Recv)
    ensures After(r, 0) == r
  {
  }

  lemma WrapParts(lo: uint16, n: nat)
    requires n > 0
    ensures lo < 0xffff ==> Wraps(lo + 1, n - 1) == Wraps(lo, n) && Wrap16(lo + 1) == lo + 1
    ensures lo == 0xffff ==> Wraps(lo, n) == 1 + Wraps(0, n - 1)
    ensures lo == 0xffff ==> Wrap16(lo + n) == Wrap16(0 + (n - 1)) && Wrap16(lo + 1) == 0
  {
  }

  lemma Carry32(c: nat, k: nat)
    ensures Wrap32(Wrap32(c + 1) + k) == Wrap32(c + (1 + k))
  {
  }

  lemma Carry16(c: nat, k: nat)
    ensures Wrap16(Wrap16(c + 1) + k) == Wrap16(c + (1 + k))
  {
  }

  /** The packet numbered one more, 16 bits wide, is in order but at a wrap, where it rolls over. */
  lemma NextKind(r: Recv, p: Packet)
    requires p.ssrc == r.ssrc && p.seqNo == Wrap16(r.lo + 1)
    ensures Classify(r, p) == if r.lo == 0xffff then Rollover else InOrder
    ensures Accepts(r, p) <==> p.seqNo % 0x1_0000 != 0
  {
  }

  /** One packet on, across a wrap or not. */
  lemma AfterStep(r: Recv, p: Packet, n: nat)
    requires n > 0 && p.ssrc == r.ssrc && p.seqNo == Wrap16(r.lo + 1)
    ensures After(Receive(r, p), n - 1) == After(r, n)
  {
    hide Receive, Wrap32, Wrap16, Wraps, Accepts, Classify;
    NextKind(r, p);
    ReceiveByKind(r, p);
    WrapParts(r.lo, n);
    if r.lo == 0xffff {
      var k := Wraps(0, n - 1);
      Carry32(r.totalLost, k);
      Carry32(r.intervalLost, k);
      Carry16(r.hi, k);
    }
  }

  lemma {:induction false} ButWrapsModulo(a: nat, b: nat, frames: seq<seq<bv8>>)
    requires a % 0x1_0000 == b % 0x1_0000
    ensures ButWraps(a, frames) == ButWraps(b, frames)
    decreases |frames|
  {
    if frames != [] {
      ButWrapsModulo(a + 1, b + 1, frames[1..]);
    }
  }

  /** Exactly as many frames are left out as the numbers wrap. */
  lemma {:induction false} ButWrapsCount(lo: nat, frames: seq<seq<bv8>>)
    ensures |ButWraps(lo + 1, frames)| == |frames| - (lo + |frames|) / 0x1_0000 + lo / 0x1_0000
    decreases |frames|
  {
    if frames != [] {
      ButWrapsCount(lo + 1, frames[1..]);
    }
  }

  lemma {:induction false} FollowsOn(r: Recv, h: Header, interval: uint32, frames: seq<seq<bv8>>)
    requires WordValue(h.ssrc) == r.ssrc && h.seqNo == Wrap16(r.lo + 1)
    ensures ReceiveAll(r, Sent(h, interval, frames)) == After(r, |frames|)
    ensures Frames(r, Sent(h, interval, frames)) == ButWraps(r.lo + 1, frames)
    ensures NoneLate(r, Sent(h, interval, frames))
    decreases |frames|
  {
    hide WordValue, Receive, Wrap32, Wrap16, Wraps, Accepts, Classify, After;
    AfterNone(r);
    if frames != [] {
      var p := Packet(WordValue(h.ssrc), h.seqNo, frames[0]);
      SentHead(h, interval, frames);
      FollowsStep(r, p);
      AfterStep(r, p, |frames|);
      FollowsOn(Receive(r, p), Next(h, interval), interval, frames[1..]);
      ButWrapsModulo(Receive(r, p).lo + 1, r.lo + 2, frames[1..]);
    }
  }

  lemma SentHead(h: Header, interval: uint32, frames: seq<seq<bv8>>)
    requires frames != []
    ensures var ps := Sent(h, interval, frames);
            && ps != [] && ps[0] == Packet(WordValue(h.ssrc), h.seqNo, frames[0])
            && ps[1..] == Sent(Next(h, interval), interval, frames[1..])
  {
    hide WordValue, Wrap16, Wrap32;
  }

  lemma FollowsStep(r: Recv, p: Packet)
    requires p.ssrc == r.ssrc && p.seqNo == Wrap16(r.lo + 1)
    ensures Accepts(r, p) <==> (r.lo + 1) % 0x1_0000 != 0
    ensures Classify(r, p) != Late
    ensures Receive(r, p).ssrc == r.ssrc && Receive(r, p).lo == p.seqNo
    ensures (Receive(r, p).lo + 1) % 0x1_0000 == (r.lo + 2) % 0x1_0000
  {
    NextKind(r, p);
  }

  /** A stream of a new source that arrives whole and in order: every frame is delivered but the one at
      each wrap, each wrap counts one loss, and the extended number is the last one sent. */
  lemma WholeStream(r: Recv, h: Header, interval: uint32, frames: seq<seq<bv8>>)
    requires WordValue(h.ssrc) != r.ssrc && frames != []
    ensures var packets, wraps := Sent(h, interval, frames), (h.seqNo + |frames| - 1) / 0x1_0000;
            && Frames(r, packets) == [frames[0]] + ButWraps(h.seqNo + 1, frames[1..])
            && |Frames(r, packets)| == |frames| - wraps
            && ReceiveAll(r, packets) == FRESH.(
                 ssrc := WordValue(h.ssrc), start := h.seqNo,
                 lo := Wrap16(h.seqNo + |frames| - 1), hi := Wrap16(r.hi + wraps),
                 last := if wraps > 0 then 0 else h.seqNo,
                 totalLost := Wrap32(wraps), intervalLost := Wrap32(wraps))
            && NoneLate(r, packets)
  {
    hide WordValue, Wrap32, Wrap16, Accepts, Classify, Receive, Fold, Frames, ButWraps, Sent, NoneLate;
    var p := Packet(WordValue(h.ssrc), h.seqNo, frames[0]);
    var r1 := Receive(r, p);
    SentHead(h, interval, frames);
    FirstPacket(r, Sent(h, interval, frames));
    ReceiveByKind(r, p);
    NewSourceKind(r, p);
    FollowsOn(r1, Next(h, interval), interval, frames[1..]);
    ButWrapsCount(h.seqNo, frames[1..]);
  }

  lemma FirstPacket(r: Recv, packets: seq<Packet>)
    requires packets != []
    ensures var r1, rest := Receive(r, packets[0]), packets[1..];
            && ReceiveAll(r, packets) == ReceiveAll(r1, rest)
            && Frames(r, packets) == (if Accepts(r, packets[0]) then [packets[0].frame] else []) + Frames(r1, rest)
            && (NoneLate(r, packets) <==> Classify(r, packets[0]) != Late && NoneLate(r1, rest))
  {
    hide Receive, Accepts, Classify;
  }

  lemma NewSourceKind(r: Recv, p: Packet)
    requires p.ssrc != r.ssrc
    ensures Classify(r, p) == NewSource
  {
  }

  /** A receiver that has heard nothing takes source zero for the one it knows, so of a stream from there
      the first frame is lost too, unless it is number one. */
  lemma SourceZero(h: Header, interval: uint32, frames: seq<seq<bv8>>)
    requires WordValue(h.ssrc) == 0 && frames != []
    ensures Frames(FRESH, Sent(h, interval, frames)) ==
            (if h.seqNo == 1 then [frames[0]] else []) + ButWraps(h.seqNo + 1, frames[1..])
    ensures ReceiveAll(FRESH, Sent(h, interval, frames)).lo == Wrap16(h.seqNo + |frames| - 1)
  {
    hide WordValue, Wrap32, Wrap16, Fold, Frames, ButWraps, Sent, NoneLate;
    var p := Packet(0, h.seqNo, frames[0]);
    SentHead(h, interval, frames);
    FirstPacket(FRESH, Sent(h, interval, frames));
    assert Receive(FRESH, p).lo == h.seqNo && Receive(FRESH, p).ssrc == 0;
    FollowsOn(Receive(FRESH, p), Next(h, interval), interval, frames[1..]);
  }

  /** The 32-bit number ends at the last one sent, modulo 2^32, counted on from the rollovers that the
      receiver already had; so it is exactly that number when it had none and there is no overflow. */
  lemma ExtendedNumberOfStream(r: Recv, h: Header, interval: uint32, frames: seq<seq<bv8>>)
    requires WordValue(h.ssrc) != r.ssrc && frames != []
    ensures var e := ReceiveAll(r, Sent(h, interval, frames));
            && 0x1_0000 * e.hi + e.lo == Wrap32(0x1_0000 * r.hi + h.seqNo + |frames| - 1)
            && (h.seqNo + |frames| - 1 < 0x1_0000_0000 ==>
                  (0x1_0000 * e.hi + e.lo == h.seqNo + |frames| - 1 <==> r.hi == 0))
  {
    hide WordValue;
    WholeStream(r, h, interval, frames);
    JoinWraps(r.hi, h.seqNo + |frames| - 1);
  }

  lemma JoinWraps(hi: uint16, n: nat)
    ensures 0x1_0000 * Wrap16(hi + n / 0x1_0000) + Wrap16(n) == Wrap32(0x1_0000 * hi + n)
    ensures n < 0x1_0000_0000 ==> (Wrap32(0x1_0000 * hi + n) == n <==> hi == 0)
  {
  }

  /** With each packet sent several times over, as the stream ratio asks, nothing of that changes. */
  lemma RedundantStream(r: Recv, h: Header, interval: uint32, frames: seq<seq<bv8>>, times: seq<nat>)
    requires WordValue(h.ssrc) != r.ssrc && frames != []
    requires |times| == |Sent(h, interval, frames)| && AtLeastOnce(times)
    ensures Frames(r, Redundant(Sent(h, interval, frames), times)) == [frames[0]] + ButWraps(h.seqNo + 1, frames[1..])
    ensures ReceiveAll(r, Redundant(Sent(h, interval, frames), times)) == ReceiveAll(r, Sent(h, interval, frames))
  {
    WholeStream(r, h, interval, frames);
    RedundancyIsTransparent(r, Sent(h, interval, frames), times);
  }
}
