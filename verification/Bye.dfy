/** lib/rtpbye.cpp: section 6.6 of RFC 3550. */
module Byes {
  import opened Wire

  const BASE_SIZE := 1
  const MAX_SSRCS := 31
  const PT: bv32 := 203

  datatype Bye = Bye(version: bv32, padding: bool, ssrcs: seq<bv32>)

  ghost predicate Writable(b: Bye) {
    b.version <= 3 && |b.ssrcs| <= MAX_SSRCS
  }

  function ByeWords(b: Bye): (ws: seq<bv32>)
    requires |b.ssrcs| <= MAX_SSRCS
    ensures |ws| == BASE_SIZE + |b.ssrcs|
  {
    [PacketHead(b.version, Bit(b.padding) << 28, CountWord(|b.ssrcs|), PT, HalfWord(BASE_SIZE + |b.ssrcs| - 1))]
        + b.ssrcs
  }

  /** The words that a packet with this head is read from. */
  predicate Fits(ws: seq<bv32>, at: nat) {
    at < |ws| && at + BASE_SIZE + CountValue(CountOf(ws[at])) <= |ws|
  }

  function ParseBye(ws: seq<bv32>, at: nat): Bye
    requires Fits(ws, at)
  {
    Bye(VersionOf(ws[at]), PaddingOf(ws[at]), ws[at + 1..at + 1 + CountValue(CountOf(ws[at]))])
  }

  /** The head of a written packet: the count comes back unless padding is set below 16, and the
      padding comes back unless it is clear from 16 up. */
  lemma HeadRoundTrip(b: Bye)
    requires Writable(b)
    ensures var head := ByeWords(b)[0];
            && VersionOf(head) == b.version && TypeOf(head) == PT
            && HalfValue(LengthOf(head)) == |b.ssrcs|
            && (CountValue(CountOf(head)) == |b.ssrcs| <==> !b.padding || |b.ssrcs| >= 16)
            && (PaddingOf(head) == b.padding <==> b.padding || |b.ssrcs| < 16)
  {
    PaddingBit(b.padding);
    PacketHeadRoundTrip(b.version, Bit(b.padding) << 28, |b.ssrcs|, PT, |b.ssrcs|);
  }

  /** A BYE without padding, written anywhere, is read back; its padding bit reads set from 16 sources up. */
  lemma ByeRoundTrip(b: Bye, ws: seq<bv32>, at: nat)
    requires Writable(b) && !b.padding && Holds(ws, at, ByeWords(b))
    ensures Fits(ws, at) && TypeOf(ws[at]) == PT
    ensures ParseBye(ws, at) == b.(padding := |b.ssrcs| >= 16)
  {
    hide PacketHead, CountWord, HalfWord, HalfValue, CountValue, CountOf, PaddingOf, TypeOf, VersionOf, LengthOf;
    HeadRoundTrip(b);
    HoldsAt(ws, at, ByeWords(b), 0);
    HoldsSplit(ws, at, ByeWords(b)[..1], b.ssrcs);
  }

  class RtpBye {
    var version: bv32
    var padding: bool
    var ssrcs: seq<bv32>

    function View(): Bye
      reads this
    {
      Bye(version, padding, ssrcs)
    }

    constructor (version: bv32 := 2)
      ensures View() == Bye(version, false, [])
    {
      this.version := version;
      padding := false;
      ssrcs := [];
    }

    method AddSsrc(ssrc: bv32) returns (ok: bool)
      modifies this
      ensures ok == (|old(ssrcs)| != MAX_SSRCS)
      ensures View() == if ok then old(View()).(ssrcs := old(ssrcs) + [ssrc]) else old(View())
    {
      if |ssrcs| == MAX_SSRCS {
        return false;
      }
      ssrcs := ssrcs + [ssrc];
      ok := true;
    }

    method ReadBlock(data: array<bv32>, at: nat) returns (n: nat)
      requires Fits(data[..], at)
      modifies this
      ensures TypeOf(data[at]) != PT ==> n == 0 && View() == Bye(2, false, [])
      ensures TypeOf(data[at]) == PT ==> View() == ParseBye(data[..], at) && n == BASE_SIZE + |View().ssrcs|
    {
      version, padding, ssrcs := 2, false, [];
      if TypeOf(data[at]) != PT {
        return 0;
      }
      version := VersionOf(data[at]);
      padding := PaddingOf(data[at]);
      var count := CountValue(CountOf(data[at]));
      var i := 0;
      while i < count
        invariant 0 <= i <= count
        invariant ssrcs == data[at + 1..at + 1 + i]
        invariant version == VersionOf(data[at]) && padding == PaddingOf(data[at])
      {
        ssrcs := ssrcs + [data[at + 1 + i]];
        i := i + 1;
      }
      n := BASE_SIZE + |ssrcs|;
    }

    method WriteBlock(data: array<bv32>, at: nat, len: nat) returns (n: nat)
      requires at + len <= data.Length && |ssrcs| <= MAX_SSRCS
      modifies data
      ensures n == if len < BASE_SIZE + |ssrcs| then 0 else BASE_SIZE + |ssrcs|
      ensures data[..] == if n == 0 then old(data[..]) else Stored(old(data[..]), at, ByeWords(View()))
    {
      if len < BASE_SIZE + |ssrcs| {
        return 0;
      }
      hide PacketHead, CountWord, HalfWord, Bit;
      ghost var was := data[..];
      var head := PacketHead(version, Bit(padding) << 28, CountWord(|ssrcs|), PT, HalfWord(BASE_SIZE + |ssrcs| - 1));
      data[at] := head;
      assert data[..] == Stored(was, at, [head]);
      PutWords(data, at + 1, ssrcs);
      StoredTwice(was, at, [head], ssrcs);
      n := BASE_SIZE + |ssrcs|;
    }
  }
}
