/**
 * Where each field of a packet stands on the wire, octet by octet, in the order of sections 5.1 and 6.4 to 6.6 of
 * RFC 3550 but for the places of padding and counts, which are the program's own.
 */
module Layouts {
  import opened Words
  import opened Wire
  import opened RtpHeaders
  import opened Datagrams
  import RB = ReceptionBlocks
  import SR = SenderReports
  import SD = SourceDescriptions
  import BY = Byes

  // ---------------------------------------------------------------- numbers in octets

  /** A number of two octets, and of four, most significant first. */
  function Two(s: seq<bv8>, i: nat): nat
    requires i + 2 <= |s|
  {
    256 * OctetValue(s[i]) + OctetValue(s[i + 1])
  }

  function Four(s: seq<bv8>, i: nat): nat
    requires i + 4 <= |s|
  {
    0x1_0000 * Two(s, i) + Two(s, i + 2)
  }

  lemma HalfOctetsOf(w: bv32)
    ensures HalfValue(w) == 256 * OctetValue(Octet(w, 2)) + OctetValue(Octet(w, 3))
  {
    hide OctetValue;
  }

  lemma HalvesOctets(w: bv32)
    ensures Octet(UpperHalf(w), 2) == Octet(w, 0) && Octet(UpperHalf(w), 3) == Octet(w, 1)
    ensures Octet(LowerHalf(w), 2) == Octet(w, 2) && Octet(LowerHalf(w), 3) == Octet(w, 3)
  {
  }

  lemma WordInOctets(w: bv32)
    ensures Four(Octets([w]), 0) == WordValue(w)
    ensures Two(Octets([w]), 2) == HalfValue(LowerHalf(w))
  {
    hide OctetValue, Octet, UpperHalf, LowerHalf, HalfValue;
    HalvesOctets(w);
    HalfOctetsOf(UpperHalf(w));
    HalfOctetsOf(LowerHalf(w));
    assert Octets([w]) == [Octet(w, 0), Octet(w, 1), Octet(w, 2), Octet(w, 3)];
  }

  /** The octets of one word among others. */
  lemma WordAmong(ws: seq<bv32>, i: nat)
    requires i < |ws|
    ensures Octets(ws)[4 * i..4 * i + 4] == Octets([ws[i]])
  {
    OctetsSlice(ws, i, i + 1);
    assert ws[i..i + 1] == [ws[i]];
  }

  lemma Shifted(s: seq<bv8>, at: nat, part: seq<bv8>, k: nat)
    requires at + |part| <= |s| && s[at..at + |part|] == part
    ensures k + 2 <= |part| ==> Two(s, at + k) == Two(part, k)
    ensures k + 4 <= |part| ==> Four(s, at + k) == Four(part, k)
    ensures k < |part| ==> s[at + k] == part[k]
  {
    hide OctetValue;
    assert forall j :: 0 <= j < |part| ==> s[at + j] == part[j];
  }

  /** What the octets of a word among others are worth. */
  lemma WordInside(ws: seq<bv32>, i: nat)
    requires i < |ws|
    ensures Four(Octets(ws), 4 * i) == WordValue(ws[i])
    ensures Two(Octets(ws), 4 * i + 2) == HalfValue(LowerHalf(ws[i]))
    ensures Octets(ws)[4 * i] == Octet(ws[i], 0) && Octets(ws)[4 * i + 1] == Octet(ws[i], 1)
  {
    hide OctetValue, Octet, Octets, WordValue, HalfValue, LowerHalf, Two, Four;
    WordAmong(ws, i);
    WordInOctets(ws[i]);
    Shifted(Octets(ws), 4 * i, Octets([ws[i]]), 0);
    Shifted(Octets(ws), 4 * i, Octets([ws[i]]), 2);
    OctetsAt(ws, i, 0);
    OctetsAt(ws, i, 1);
  }

  function TopTwo(o: bv8): bv32 { (o >> 6) as bv32 }
  function Under(o: bv8, mask: bv8): bv8 { o & mask }
  function Wide(o: bv8): bv32 { o as bv32 }

  // ---------------------------------------------------------------- RTP

  lemma FixedOctets(version: bv32, padding: bv32, extension: bv32, count: bv32, marker: bv32, ptype: bv32, seqNo: bv32)
    requires version <= 3 && padding <= 1 && extension <= 1 && count <= 15 && marker <= 1 && ptype <= 0x7f
    requires seqNo <= 0xffff
    ensures var w := FixedWord(version, padding, extension, count, marker, ptype, seqNo);
            && TopTwo(Octet(w, 0)) == version && Under(Octet(w, 0), 0x20) == 0
            && (Under(Octet(w, 0), 0x10) != 0 <==> padding == 1) && Wide(Under(Octet(w, 0), 0x0f)) == count
            && (Under(Octet(w, 1), 0x80) != 0 <==> marker == 1) && Wide(Under(Octet(w, 1), 0x7f)) == ptype
            && LowerHalf(w) == seqNo
  {
  }

  lemma CountBits(n: nat, o: bv8)
    requires n < 16 && Wide(Under(o, 0x0f)) == CountWord(n)
    ensures OctetValue(Under(o, 0x0f)) == n
  {
    CountNibble((n as bv5), o);
  }

  lemma CountNibble(c: bv5, o: bv8)
    requires c < 16 && (o & 0x0f) as bv32 == c as bv32
    ensures ((o & 0x0f) >> 4) & 0xf == 0 && ((o & 0x0f) & 0xf) as bv4 == c as bv4 && (c as bv4) as nat == c as nat
  {
  }

  /** A datagram of sound: version, padding and the count of sources; marker and payload type; the number; the time; the
      source; the other sources; and the frame. The bit of extension is never set. */
  lemma DatagramLayout(h: Header, frame: seq<bv8>)
    requires RtpHeaders.Writable(h)
    ensures var s, n := PacketOctets(h, frame), |h.csrcs|;
            && |s| == 12 + 4 * n + |frame|
            && TopTwo(s[0]) == h.version && Under(s[0], 0x20) == 0 && (Under(s[0], 0x10) != 0 <==> h.padding)
            && OctetValue(Under(s[0], 0x0f)) == n
            && (Under(s[1], 0x80) != 0 <==> h.marker) && Wide(Under(s[1], 0x7f)) == h.payloadType
            && Two(s, 2) == h.seqNo && Four(s, 4) == h.timestamp && Four(s, 8) == WordValue(h.ssrc)
            && s[12..12 + 4 * n] == Octets(h.csrcs) && s[12 + 4 * n..] == frame
  {
    hide OctetValue, FixedWord, CountWord, HalfWord, Octet, Octets, WordOf, WordValue, Two, Four, Bit, HalfValue,
         LowerHalf, TopTwo, Under, Wide;
    var ws := HeaderWords(h);
    var s := PacketOctets(h, frame);
    var all := Octets(ws);
    assert s[..|all|] == all;
    assert s[0..0 + |all|] == all;
    FirstWordOctets(h);
    WordInside(ws, 0);
    WordInside(ws, 1);
    WordInside(ws, 2);
    WordRoundTrip(h.timestamp);
    Shifted(s, 0, all, 0);
    Shifted(s, 0, all, 1);
    Shifted(s, 0, all, 2);
    Shifted(s, 0, all, 4);
    Shifted(s, 0, all, 8);
    OctetsSlice(ws, 3, |ws|);
    assert ws[3..|ws|] == h.csrcs;
    assert s[12..12 + 4 * |h.csrcs|] == all[12..12 + 4 * |h.csrcs|];
  }

  lemma FirstWordOctets(h: Header)
    requires RtpHeaders.Writable(h)
    ensures var w := HeaderWords(h)[0];
            && TopTwo(Octet(w, 0)) == h.version && Under(Octet(w, 0), 0x20) == 0
            && (Under(Octet(w, 0), 0x10) != 0 <==> h.padding) && OctetValue(Under(Octet(w, 0), 0x0f)) == |h.csrcs|
            && (Under(Octet(w, 1), 0x80) != 0 <==> h.marker) && Wide(Under(Octet(w, 1), 0x7f)) == h.payloadType
            && HalfValue(LowerHalf(w)) == h.seqNo
  {
    hide OctetValue, FixedWord, CountWord, HalfWord, Octet, HalfValue, LowerHalf, WordOf, TopTwo, Under, Wide;
    SmallCount(|h.csrcs|);
    HalfRoundTrip(h.seqNo);
    FixedOctets(h.version, Bit(h.padding), Bit(h.extension), CountWord(|h.csrcs|), Bit(h.marker), h.payloadType,
                HalfWord(h.seqNo));
    CountBits(|h.csrcs|, Octet(HeaderWords(h)[0], 0));
  }

  // ---------------------------------------------------------------- RTCP

  lemma HeadOctets(version: bv32, pad: bv32, count: bv32, ptype: bv32, length: bv32)
    requires version <= 3 && count <= 0x1f && ptype <= 0xff && length <= 0xffff && pad & !0x30000000 == 0
    ensures var w := PacketHead(version, pad, count, ptype, length);
            && TopTwo(Octet(w, 0)) == version && Wide(Octet(w, 1)) == ptype && LowerHalf(w) == length
            && (pad == 0 ==> Under(Octet(w, 0), 0x20) == 0 && Wide(Under(Octet(w, 0), 0x1f)) == count)
            && (pad == 0x10000000 ==> Wide(Under(Octet(w, 0), 0x3f)) == count | 0x10)
            && (pad == 0x20000000 ==> Under(Octet(w, 0), 0x20) != 0 && Wide(Under(Octet(w, 0), 0x1f)) == count)
  {
  }

  lemma PadBits(p: bool)
    ensures Bit(p) << 28 == (if p then 0x10000000 else 0) && Bit(p) << 29 == (if p then 0x20000000 else 0)
    ensures (Bit(p) << 28) & !0x30000000 == 0 && (Bit(p) << 29) & !0x30000000 == 0
  {
  }

  /** The first four octets of a packet: version and count, type, and its words less one. A padding bit stands at 0x10,
      over the count, but in a description at 0x20. */
  ghost predicate HeadAt(s: seq<bv8>, version: bv32, padding: bool, at29: bool, n: nat, ptype: bv32, words: nat) {
    && |s| == 4 * words >= 4
    && TopTwo(s[0]) == version && Wide(s[1]) == ptype && Two(s, 2) == words - 1
    && (!padding ==> Under(s[0], 0x20) == 0 && Wide(Under(s[0], 0x1f)) == CountWord(n))
    && (padding && !at29 ==> Wide(Under(s[0], 0x3f)) == CountWord(n) | 0x10)
    && (padding && at29 ==> Under(s[0], 0x20) != 0 && Wide(Under(s[0], 0x1f)) == CountWord(n))
  }

  lemma HeadInOctets(ws: seq<bv32>, version: bv32, padding: bool, at29: bool, n: nat, ptype: bv32, length: uint16)
    requires version <= 3 && n < 32 && ptype <= 0xff && |ws| == length + 1
    requires ws[0] == PacketHead(version, if at29 then Bit(padding) << 29 else Bit(padding) << 28, CountWord(n), ptype,
                                 HalfWord(length))
    ensures HeadAt(Octets(ws), version, padding, at29, n, ptype, |ws|)
  {
    hide PacketHead, CountWord, HalfWord, HalfValue, LowerHalf, Octet, Octets, TopTwo, Under, Wide, Two, Bit, WordValue,
         Four;
    PadBits(padding);
    CountRoundTrip(n);
    HalfRoundTrip(length);
    HeadOctets(version, if at29 then Bit(padding) << 29 else Bit(padding) << 28, CountWord(n), ptype, HalfWord(length));
    WordInside(ws, 0);
  }

  /** A sender report: type 200, source, time, RTP time, packets, octets, and the blocks or six null words. */
  lemma ReportLayout(r: SR.Report)
    requires SR.Writable(r)
    ensures var ws := SR.ReportWords(r);
            var s := Octets(ws);
            && HeadAt(s, r.version, r.padding, false, |r.blocks|, 200, |ws|)
            && Four(s, 4) == WordValue(r.ssrc) && Four(s, 8) == WordValue(SR.NtpHigh(r.ntp))
            && Four(s, 12) == WordValue(SR.NtpLow(r.ntp)) && Four(s, 16) == WordValue(r.rtp)
            && Four(s, 20) == WordValue(r.packets) && Four(s, 24) == WordValue(r.octets)
            && (r.blocks == [] ==> |ws| == 13 && ws[7..] == [0, 0, 0, 0, 0, 0])
            && (r.blocks != [] ==> |ws| == 7 + 6 * |r.blocks|)
  {
    hide PacketHead, CountWord, HalfWord, Octets, WordValue, Two, Four, HeadAt, Bit, SR.BlocksWords, SR.NtpHigh,
         SR.NtpLow, LowerHalf, HalfValue, Octet;
    var ws := SR.ReportWords(r);
    HeadInOctets(ws, r.version, r.padding, false, |r.blocks|, 200, |ws| - 1);
    WordInside(ws, 1);
    WordInside(ws, 2);
    WordInside(ws, 3);
    WordInside(ws, 4);
    WordInside(ws, 5);
    WordInside(ws, 6);
  }

  lemma TimeOctets(t: bv64)
    ensures SR.NtpHigh(t) == (t >> 32) as bv32 && SR.NtpLow(t) == (t & 0xffff_ffff) as bv32
  {
  }

  lemma {:induction false} BlockStandsAt(bs: seq<RB.Block>, i: nat)
    requires i < |bs| && forall j :: 0 <= j < |bs| ==> RB.Convertible(bs[j])
    ensures 6 * i + 6 <= |SR.BlocksWords(bs)| && SR.BlocksWords(bs)[6 * i..6 * i + 6] == RB.BlockWords(bs[i])
  {
    hide RB.BlockWords;
    var n := |bs| - 1;
    var ws, less := SR.BlocksWords(bs), SR.BlocksWords(bs[..n]);
    if i < n {
      BlockStandsAt(bs[..n], i);
      assert ws[6 * i..6 * i + 6] == less[6 * i..6 * i + 6];
    }
  }

  lemma LossOctets(f: bv4, lost: bv32)
    ensures var w := ((0x0f & (f as bv32)) << 24) | (0x07ff & lost);
            Octet(w, 0) == f as bv8 && w & 0x00ff_ffff == lost & 0x7ff
  {
  }

  lemma NibbleValue(f: bv4)
    ensures OctetValue(f as bv8) == f as nat
  {
    NibbleBits(f);
  }

  lemma NibbleBits(f: bv4)
    ensures (((f as bv8) >> 4) & 0xf) as bv4 == 0 && ((f as bv8) & 0xf) as bv4 == f
  {
  }

  function Low24(w: bv32): bv32 { w & 0x00ff_ffff }

  lemma LossLayout(fraction: real, lost: bv32)
    requires fraction >= 0.0
    ensures var w := RB.LossWord(fraction, lost);
            OctetValue(Octet(w, 0)) == (256.0 * fraction).Floor % 16 && Low24(w) == RB.LowEleven(lost)
  {
    hide Octet, OctetValue;
    var n := (256.0 * fraction).Floor % 16;
    LossOctets(n as bv4, lost);
    NibbleValue(n as bv4);
    Digit(n);
  }

  /** A reception block: source, fraction in the first octet of the second word and losses in the others, highest
      number, jitter, last report, delay. */
  lemma BlockLayout(b: RB.Block)
    requires RB.Convertible(b)
    ensures var s := Octets(RB.BlockWords(b));
            && |s| == 24 && Four(s, 0) == WordValue(b.ssrc)
            && OctetValue(s[4]) == (256.0 * b.fraction).Floor % 16
            && Low24(RB.BlockWords(b)[1]) == RB.LowEleven(b.lost)
            && Four(s, 8) == WordValue(b.highest) && Four(s, 12) == WordValue(b.jitter)
            && Four(s, 16) == WordValue(b.lastReport) && Four(s, 20) == WordValue(b.delay)
  {
    hide Octets, Octet, WordValue, Two, Four, OctetValue, RB.LossWord, Low24, RB.LowEleven, LowerHalf, HalfValue;
    var ws := RB.BlockWords(b);
    WordInside(ws, 0);
    WordInside(ws, 1);
    WordInside(ws, 2);
    WordInside(ws, 3);
    WordInside(ws, 4);
    WordInside(ws, 5);
    LossLayout(b.fraction, b.lost);
  }

  /** A description: type 202, the first source, and the items, each its type, its length and its octets, then nulls. */
  lemma DescriptionLayout(d: SD.Sdes)
    requires SD.Writable(d)
    ensures var ws := SD.SdesWords(d);
            var s, items := Octets(ws), SD.Items(d.chunks);
            && HeadAt(s, d.version, d.padding, true, |d.chunks|, 202, |ws|)
            && Four(s, 4) == WordValue(d.ssrcs[0])
            && 8 + |items| < |s| && s[8..8 + |items|] == items
            && forall i :: 8 + |items| <= i < |s| ==> s[i] == 0
  {
    hide PacketHead, CountWord, HalfWord, Octets, Pack, WordValue, Two, Four, HeadAt, Bit, SD.Items, SD.TotalSize,
         SD.Fill;
    var ws, body := SD.SdesWords(d), SD.Body(d.chunks);
    SD.SizeCoversItems(d.chunks);
    SD.FillSize(d.chunks);
    SD.RoomForNull(d.chunks);
    HeadInOctets(ws, d.version, d.padding, true, |d.chunks|, 202, |ws| - 1);
    WordInside(ws, 1);
    OctetsJoin(SD.HeadWords(d), Pack(body));
    OctetsOfPack(body);
  }

  lemma ItemLayout(c: SD.Chunk)
    requires SD.OctetSized(c)
    ensures var s := SD.ItemOctets(c);
            OctetValue(s[0]) == c.ctype && OctetValue(s[1]) == |c.data| && s[2..] == c.data
  {
    hide OctetValue, OctetOf;
    OctetRoundTrip(c.ctype);
    OctetRoundTrip(|c.data|);
  }

  /** A BYE: type 203, and its sources. */
  lemma ByeLayout(b: BY.Bye)
    requires BY.Writable(b)
    ensures var ws := BY.ByeWords(b);
            && HeadAt(Octets(ws), b.version, b.padding, false, |b.ssrcs|, 203, |ws|)
            && Octets(ws)[4..] == Octets(b.ssrcs)
  {
    hide PacketHead, CountWord, HalfWord, Octets, HeadAt, Bit;
    var ws := BY.ByeWords(b);
    HeadInOctets(ws, b.version, b.padding, false, |b.ssrcs|, 203, |ws| - 1);
    OctetsSlice(ws, 1, |ws|);
    assert ws[1..|ws|] == b.ssrcs;
    assert Octets(ws)[4..4 * |ws|] == Octets(ws)[4..];
  }
}
