/**
 * Datagrams of sound on their way: the octets that the send path of lib/codec.cpp puts behind a header, and
 * the packet that its receive path takes from a buffer of them.
 */
module Datagrams {
  import opened Words
  import opened Wire
  import opened RtpHeaders
  import opened Receiver
  import opened Streams

  const BUFFER := 375  // words of the largest packet, 1500 octets

  // ---------------------------------------------------------------- sending

  function PacketOctets(h: Header, frame: seq<bv8>): (s: seq<bv8>)
    requires |h.csrcs| <= MAX_CSRCS
    ensures |s| == 4 * (MIN_WORDS + |h.csrcs|) + |frame|
  {
    Octets(HeaderWords(h)) + frame
  }

  /** The datagrams a sender makes of its frames. */
  function SentOctets(h: Header, interval: uint32, frames: seq<seq<bv8>>): (ps: seq<seq<bv8>>)
    requires |h.csrcs| <= MAX_CSRCS
    ensures |ps| == |frames|
    decreases |frames|
  {
    if frames == [] then [] else [PacketOctets(h, frames[0])] + SentOctets(Next(h, interval), interval, frames[1..])
  }

  lemma {:induction false} HeaderAfterKeeps(h: Header, interval: uint32, n: nat)
    ensures HeaderAfter(h, interval, n).csrcs == h.csrcs && HeaderAfter(h, interval, n).ssrc == h.ssrc
  {
    if n > 0 {
      HeaderAfterKeeps(h, interval, n - 1);
    }
  }

  /** One more frame sent. */
  lemma {:induction false} SentAppend(h: Header, interval: uint32, frames: seq<seq<bv8>>, frame: seq<bv8>)
    requires |h.csrcs| <= MAX_CSRCS
    ensures |HeaderAfter(h, interval, |frames|).csrcs| <= MAX_CSRCS
    ensures SentOctets(h, interval, frames + [frame]) ==
            SentOctets(h, interval, frames) + [PacketOctets(HeaderAfter(h, interval, |frames|), frame)]
    decreases |frames|
  {
    hide PacketOctets;
    HeaderAfterKeeps(h, interval, |frames|);
    if frames == [] {
      assert (frames + [frame])[1..] == [];
    } else {
      assert (frames + [frame])[0] == frames[0] && (frames + [frame])[1..] == frames[1..] + [frame];
      SentAppend(Next(h, interval), interval, frames[1..], frame);
      HeaderAfterNext(h, interval, |frames| - 1);
    }
  }

  /** One more packet, sent `n` times. */
  lemma {:induction false} RedundantAppend<T>(packets: seq<T>, times: seq<nat>, p: T, n: nat)
    requires |packets| == |times|
    ensures Redundant(packets + [p], times + [n]) == Redundant(packets, times) + Copies(p, n)
    decreases |packets|
  {
    hide Copies;
    if packets == [] {
      assert (packets + [p])[1..] == [] && (times + [n])[1..] == [];
    } else {
      assert (packets + [p])[1..] == packets[1..] + [p] && (times + [n])[1..] == times[1..] + [n];
      RedundantAppend(packets[1..], times[1..], p, n);
    }
  }

  /** A frame stored behind its header. */
  lemma WrittenPacket(was: seq<bv32>, ws: seq<bv32>, frame: seq<bv8>, end: seq<bv32>)
    requires |ws| <= |was| && 4 * |ws| + |frame| <= 4 * |was|
    requires Octets(end) == Overwritten(Octets(Stored(was, 0, ws)), 4 * |ws|, frame)
    ensures |end| == |was| && Octets(end)[..4 * |ws| + |frame|] == Octets(ws) + frame
  {
    hide Octets;
    var rest := was[|ws|..];
    assert Stored(was, 0, ws) == ws + rest;
    OctetsJoin(ws, rest);
  }

  // ---------------------------------------------------------------- receiving

  /** A buffer of words, of which the first `size` octets were received; the rest is what was there. */
  datatype Arrival = Arrival(buf: seq<bv32>, size: nat)

  predicate Readable(a: Arrival) {
    Fits(a.buf) && a.size <= 4 * |a.buf|
  }

  /** The packet that the receive loop sees; a header that claims more than was received counts for nothing. */
  function PacketOf(a: Arrival): Packet
    requires Readable(a)
  {
    var h := ParseHeader(a.buf);
    Packet(WordValue(h.ssrc), h.seqNo, Octets(a.buf)[4 * HeaderSize(a.buf, a.size / 4)..a.size])
  }

  /** The frame is what was received behind the sources, and behind as many more words as the second word after them
      says, if the extension bit reads set; but where fewer words than that were received, all of them are the frame. */
  lemma FrameOfArrival(a: Arrival)
    requires Readable(a)
    ensures var n := CsrcCount(a.buf[0]);
            && (ExtensionOf(a.buf[0]) ==> 4 + n < |a.buf|)
            && var words := 3 + n + if ExtensionOf(a.buf[0]) then HalfValue(LowerHalf(a.buf[4 + n])) else 0;
            && (words <= a.size / 4 ==> PacketOf(a).frame == Octets(a.buf)[4 * words..a.size])
            && (words > a.size / 4 ==> PacketOf(a).frame == Octets(a.buf)[..a.size])
  {
    hide Octets, CsrcCount, ExtensionOf, WordValue, HalfValue, LowerHalf;
  }

  ghost predicate Carries(a: Arrival, octets: seq<bv8>) {
    a.size == |octets| && HoldsOctets(Octets(a.buf), 0, octets)
  }

  lemma WordsHeld(buf: seq<bv32>, ws: seq<bv32>, frame: seq<bv8>)
    requires HoldsOctets(Octets(buf), 0, Octets(ws) + frame)
    ensures |ws| <= |buf| && buf[..|ws|] == ws
    ensures Octets(buf)[4 * |ws|..4 * |ws| + |frame|] == frame
  {
    hide Octets;
    HoldsOctetsSplit(Octets(buf), 0, Octets(ws), frame);
    OctetsSlice(buf, 0, |ws|);
    assert buf[0..|ws|] == buf[..|ws|];
    SameOctets(buf[..|ws|], ws);
  }

  /** A datagram sent with fewer than eight sources in its header, in whatever buffer it arrives, is the packet
      of that source, number and frame. */
  lemma DatagramRoundTrip(h: Header, frame: seq<bv8>, a: Arrival)
    requires Writable(h) && |h.csrcs| < 8 && Carries(a, PacketOctets(h, frame))
    ensures Readable(a) && PacketOf(a) == Packet(WordValue(h.ssrc), h.seqNo, frame)
  {
    hide Octets, HeaderWords, ParseHeader, HeaderSize, WordValue, Fits;
    var ws := HeaderWords(h);
    WordsHeld(a.buf, ws, frame);
    assert a.buf == ws + a.buf[|ws|..];
    HeaderRoundTrip(h, a.buf[|ws|..]);
    assert a.size / 4 >= |ws|;
  }

  ghost predicate AllCarry(xs: seq<Arrival>, datagrams: seq<seq<bv8>>) {
    |xs| == |datagrams| && forall i :: 0 <= i < |xs| ==> Carries(xs[i], datagrams[i])
  }

  ghost predicate AllReadable(xs: seq<Arrival>) {
    forall i :: 0 <= i < |xs| ==> Readable(xs[i])
  }

  function Unpacked(xs: seq<Arrival>): (ps: seq<Packet>)
    requires AllReadable(xs)
    ensures |ps| == |xs| && forall i :: 0 <= i < |xs| ==> ps[i] == PacketOf(xs[i])
  {
    seq(|xs|, i requires 0 <= i < |xs| => PacketOf(xs[i]))
  }

  lemma CopiesUnpacked(h: Header, frame: seq<bv8>, n: nat, xs: seq<Arrival>)
    requires Writable(h) && |h.csrcs| < 8 && AllCarry(xs, Copies(PacketOctets(h, frame), n))
    ensures AllReadable(xs) && Unpacked(xs) == Copies(Packet(WordValue(h.ssrc), h.seqNo, frame), n)
  {
    hide PacketOctets, Readable, PacketOf, Carries, WordValue;
    forall i | 0 <= i < |xs|
      ensures Readable(xs[i]) && PacketOf(xs[i]) == Packet(WordValue(h.ssrc), h.seqNo, frame)
    {
      DatagramRoundTrip(h, frame, xs[i]);
    }
  }

  lemma UnpackedJoin(xs: seq<Arrival>, n: nat)
    requires n <= |xs| && AllReadable(xs[..n]) && AllReadable(xs[n..])
    ensures AllReadable(xs) && Unpacked(xs) == Unpacked(xs[..n]) + Unpacked(xs[n..])
  {
    hide Readable, PacketOf;
    assert xs == xs[..n] + xs[n..];
  }

  lemma RedundantHead<T>(packets: seq<T>, times: seq<nat>)
    requires |packets| == |times| && packets != []
    ensures Redundant(packets, times) == Copies(packets[0], times[0]) + Redundant(packets[1..], times[1..])
    ensures |Copies(packets[0], times[0])| == times[0]
  {
  }

  /** The datagrams of a stream, each sent any number of times, arrive as its packets, as often. */
  lemma {:induction false} StreamUnpacked(h: Header, interval: uint32, frames: seq<seq<bv8>>, times: seq<nat>,
                                          xs: seq<Arrival>)
    requires Writable(h) && |h.csrcs| < 8 && |times| == |frames|
    requires AllCarry(xs, Redundant(SentOctets(h, interval, frames), times))
    ensures |Sent(h, interval, frames)| == |frames| && AllReadable(xs)
    ensures Unpacked(xs) == Redundant(Sent(h, interval, frames), times)
    decreases |frames|
  {
    hide PacketOctets, WordValue, Copies, AllReadable, Unpacked, AllCarry;
    if frames == [] {
      NoneUnpacked(xs);
    } else {
      hide Redundant, Sent, SentOctets;
      var n, rest := times[0], Redundant(SentOctets(Next(h, interval), interval, frames[1..]), times[1..]);
      SentHead(h, interval, frames);
      SentOctetsHead(h, interval, frames);
      RedundantHead(SentOctets(h, interval, frames), times);
      SplitCarried(xs, Copies(PacketOctets(h, frames[0]), n), rest);
      CopiesUnpacked(h, frames[0], n, xs[..n]);
      StreamUnpacked(Next(h, interval), interval, frames[1..], times[1..], xs[n..]);
      UnpackedJoin(xs, n);
      RedundantHead(Sent(h, interval, frames), times);
    }
  }

  lemma NoneUnpacked(xs: seq<Arrival>)
    requires AllCarry(xs, [])
    ensures xs == [] && AllReadable(xs) && Unpacked(xs) == []
  {
  }

  lemma SentOctetsHead(h: Header, interval: uint32, frames: seq<seq<bv8>>)
    requires frames != [] && |h.csrcs| <= MAX_CSRCS
    ensures SentOctets(h, interval, frames)[0] == PacketOctets(h, frames[0])
    ensures SentOctets(h, interval, frames)[1..] == SentOctets(Next(h, interval), interval, frames[1..])
  {
    hide PacketOctets;
  }

  lemma SplitCarried(xs: seq<Arrival>, a: seq<seq<bv8>>, b: seq<seq<bv8>>)
    requires AllCarry(xs, a + b)
    ensures |a| <= |xs| && AllCarry(xs[..|a|], a) && AllCarry(xs[|a|..], b)
  {
    hide Carries;
    forall i | 0 <= i < |b|
      ensures Carries(xs[|a|..][i], b[i])
    {
      assert (a + b)[|a| + i] == b[i] && xs[|a|..][i] == xs[|a| + i];
    }
    forall i | 0 <= i < |a|
      ensures Carries(xs[..|a|][i], a[i])
    {
      assert (a + b)[i] == a[i];
    }
  }
}
