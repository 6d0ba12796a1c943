/** From one codec's send log to another's sound card: the send and receive paths of lib/codec.cpp together. */
module Deliveries {
  import opened Words
  import opened Wire
  import opened Runs
  import opened RtpHeaders
  import opened Receiver
  import opened Streams
  import opened Datagrams
  import opened Playouts

  /** The datagrams that a run of callbacks reads. */
  function Waiting(calls: seq<Call>): seq<Datagram> {
    if calls == [] then [] else (if Plays(calls[0]) then calls[0].datagrams else []) + Waiting(calls[1..])
  }

  lemma {:induction false} ArrivedJoin(a: seq<Datagram>, b: seq<Datagram>)
    ensures Arrived(a + b) == Arrived(a) + Arrived(b)
  {
    hide PacketIn;
    if a == [] {
      assert a + b == b;
    } else {
      ArrivedJoin(a[1..], b);
      assert (a + b)[0] == a[0] && (a + b)[1..] == a[1..] + b;
      Regroup(PacketIn(a[0]), Arrived(a[1..]), Arrived(b));
    }
  }

  lemma {:induction false} AllArrivedWaiting(calls: seq<Call>)
    ensures AllArrived(calls) == Arrived(Waiting(calls))
  {
    hide Arrived;
    NoneArrived();
    if calls != [] {
      AllArrivedWaiting(calls[1..]);
      ArrivedJoin(if Plays(calls[0]) then calls[0].datagrams else [], Waiting(calls[1..]));
    }
  }

  lemma NoneArrived()
    ensures Arrived([]) == []
  {
  }

  /** Each datagram is what the receive loop makes of a buffer. */
  ghost predicate FromBuffers(ds: seq<Datagram>, xs: seq<Arrival>) {
    && |ds| == |xs| && AllReadable(xs)
    && forall i :: 0 <= i < |ds| ==> ds[i].size == xs[i].size && ds[i].packet == PacketOf(xs[i])
  }

  lemma {:induction false} ArrivedUnpacked(ds: seq<Datagram>, xs: seq<Arrival>)
    requires FromBuffers(ds, xs) && forall i :: 0 <= i < |xs| ==> xs[i].size > RUNT
    ensures Arrived(ds) == Unpacked(xs)
    decreases |ds|
  {
    hide Readable, PacketOf;
    if ds != [] {
      ArrivedUnpacked(ds[1..], xs[1..]);
      assert Unpacked(xs) == [PacketOf(xs[0])] + Unpacked(xs[1..]);
    }
  }

  /** No sent datagram is short enough to be ignored. */
  lemma {:induction false} CarriedSizes(h: Header, interval: uint32, frames: seq<seq<bv8>>, times: seq<nat>)
    requires |h.csrcs| <= MAX_CSRCS && |times| == |frames|
    ensures forall i :: 0 <= i < |Redundant(SentOctets(h, interval, frames), times)| ==>
              |Redundant(SentOctets(h, interval, frames), times)[i]| > RUNT
    decreases |frames|
  {
    hide PacketOctets;
    if frames != [] {
      CarriedSizes(Next(h, interval), interval, frames[1..], times[1..]);
      SentOctetsHead(h, interval, frames);
    }
  }

  /** The octets that one codec logged as sent, each datagram arriving whole and in order in any buffer of the
      other, are heard: for any decoder, whatever was in the ring and then of the sound of every frame sent, but
      those at wraps of the number, what the ring had room for. */
  lemma OctetsAreHeard<D>(decode: (D, Input) -> (D, seq<bv8>), d: D, c: Setup, s: Playout, calls: seq<Call>,
                          h: Header, interval: uint32, frames: seq<seq<bv8>>, times: seq<nat>, xs: seq<Arrival>)
    requires Sized(c, s) && PllBounded(s) && RunDecodedBy(decode, d, c, s, calls)
    requires Writable(h) && |h.csrcs| < 8 && WordValue(h.ssrc) != s.recv.ssrc && frames != []
    requires |times| == |frames| && AtLeastOnce(times)
    requires AllCarry(xs, Redundant(SentOctets(h, interval, frames), times)) && FromBuffers(Waiting(calls), xs)
    ensures var ins, pieces := AllInputs(c, s, calls), AllPieces(c, s, calls);
            && AllHeard(c, s, calls) + CallAll(c, s, calls).ring == s.ring + Concat(pieces)
            && Beginnings(pieces, Sounds(decode, d, ins))
            && (pieces == Sounds(decode, d, ins) <==> RoomyRun(c, s, calls))
            && FramesOf(ins) == NonEmpty([frames[0]] + ButWraps(h.seqNo + 1, frames[1..]))
            && OffsetsBounded(ins)
  {
    hide WordValue, Octets, PacketOf, Readable, Frames, AllHeard, CallAll, RunDecodedBy, RoomyRun, Concat, AllInputs,
         AllPieces, Beginnings, OffsetsBounded, FramesOf, Sounds, Redundant, PllBounded, Sent, SentOctets, Arrived,
         AllArrived, Waiting, NonEmpty, ButWraps, HoldsOctets;
    StreamUnpacked(h, interval, frames, times, xs);
    CarriedSizes(h, interval, frames, times);
    assert forall i :: 0 <= i < |xs| ==> Carries(xs[i], Redundant(SentOctets(h, interval, frames), times)[i]);
    AllArrivedWaiting(calls);
    ArrivedUnpacked(Waiting(calls), xs);
    SentIsHeard(decode, d, c, s, calls, h, interval, frames, times);
  }
}
