/** lib/rtpsenderreport.cpp: section 6.4.1 of RFC 3550. */
module SenderReports {
  import opened Wire
  import opened ReceptionBlocks

  const BASE_SIZE := 7
  const MAX_BLOCKS := 31
  const PT: bv32 := 200

  datatype Report = Report(
    version: bv32, padding: bool, ssrc: bv32, ntp: bv64, rtp: bv32, packets: bv32, octets: bv32, blocks: seq<Block>)

  const CLEAR: Report := Report(2, false, 0, 0, 0, 0, 0, [])

  ghost predicate Writable(r: Report) {
    && r.version <= 3 && |r.blocks| <= MAX_BLOCKS
    && forall i :: 0 <= i < |r.blocks| ==> Convertible(r.blocks[i])
  }

  function BlocksWords(bs: seq<Block>): (ws: seq<bv32>)
    requires forall i :: 0 <= i < |bs| ==> Convertible(bs[i])
    ensures |ws| == SIZE * |bs|
  {
    if bs == [] then [] else BlocksWords(bs[..|bs| - 1]) + BlockWords(bs[|bs| - 1])
  }

  lemma BlocksWordsOn(bs: seq<Block>, i: nat)
    requires i < |bs| && forall j :: 0 <= j < |bs| ==> Convertible(bs[j])
    ensures BlocksWords(bs[..i + 1]) == BlocksWords(bs[..i]) + BlockWords(bs[i])
  {
    assert bs[..i + 1][..i] == bs[..i];
  }

  /** A report without blocks is sent with one null block, which the count does not cover. */
  function BlockSlots(n: nat): nat {
    if n == 0 then 1 else n
  }

  function NtpHigh(t: bv64): bv32 { (0xffff_ffff & (t >> 32)) as bv32 }
  function NtpLow(t: bv64): bv32 { (0xffff_ffff & t) as bv32 }
  function NtpJoin(hi: bv32, lo: bv32): bv64 { ((hi as bv64) << 32) | (lo as bv64) }

  lemma NtpRoundTrip(t: bv64)
    ensures NtpJoin(NtpHigh(t), NtpLow(t)) == t
  {
  }

  function HeadWords(r: Report): (ws: seq<bv32>)
    requires |r.blocks| <= MAX_BLOCKS
    ensures |ws| == BASE_SIZE
  {
    [PacketHead(r.version, Bit(r.padding) << 28, CountWord(|r.blocks|), PT,
                HalfWord(BASE_SIZE + SIZE * BlockSlots(|r.blocks|) - 1)),
     r.ssrc, NtpHigh(r.ntp), NtpLow(r.ntp), r.rtp, r.packets, r.octets]
  }

  function ReportWords(r: Report): (ws: seq<bv32>)
    requires Writable(r)
    ensures |ws| == BASE_SIZE + SIZE * BlockSlots(|r.blocks|)
  {
    HeadWords(r) + if r.blocks == [] then [0, 0, 0, 0, 0, 0] else BlocksWords(r.blocks)
  }

  /** The words that a packet with this head is read from. */
  predicate Fits(ws: seq<bv32>, at: nat) {
    at < |ws| && at + BASE_SIZE + SIZE * CountValue(CountOf(ws[at])) <= |ws|
  }

  function ParseBlocks(ws: seq<bv32>, at: nat, n: nat): (bs: seq<Block>)
    requires at + SIZE * n <= |ws|
    ensures |bs| == n
  {
    if n == 0 then [] else ParseBlocks(ws, at, n - 1) + [ParseBlock(ws, at + SIZE * (n - 1))]
  }

  function ParseReport(ws: seq<bv32>, at: nat): Report
    requires Fits(ws, at)
  {
    Report(VersionOf(ws[at]), PaddingOf(ws[at]), ws[at + 1], NtpJoin(ws[at + 2], ws[at + 3]),
           ws[at + 4], ws[at + 5], ws[at + 6], ParseBlocks(ws, at + BASE_SIZE, CountValue(CountOf(ws[at]))))
  }

  function AllNarrowed(bs: seq<Block>): (ns: seq<Block>)
    requires forall i :: 0 <= i < |bs| ==> Convertible(bs[i])
    ensures |ns| == |bs|
  {
    seq(|bs|, i requires 0 <= i < |bs| => Narrowed(bs[i]))
  }

  lemma {:induction false} BlocksRoundTrip(bs: seq<Block>, ws: seq<bv32>, at: nat)
    requires forall i :: 0 <= i < |bs| ==> Convertible(bs[i])
    requires Holds(ws, at, BlocksWords(bs))
    ensures ParseBlocks(ws, at, |bs|) == AllNarrowed(bs)
  {
    hide BlockWords, ParseBlock, Narrowed;
    if bs != [] {
      var n := |bs| - 1;
      HoldsSplit(ws, at, BlocksWords(bs[..n]), BlockWords(bs[n]));
      BlocksRoundTrip(bs[..n], ws, at);
      BlockRoundTrip(bs[n], ws, at + SIZE * n);
      assert AllNarrowed(bs) == AllNarrowed(bs[..n]) + [Narrowed(bs[n])];
    }
  }

  /** The head of a written packet: the count comes back unless padding is set below 16 blocks. */
  lemma HeadRoundTrip(r: Report)
    requires Writable(r)
    ensures var head := ReportWords(r)[0];
            && VersionOf(head) == r.version && TypeOf(head) == PT
            && HalfValue(LengthOf(head)) + 1 == |ReportWords(r)|
            && (CountValue(CountOf(head)) == |r.blocks| <==> !r.padding || |r.blocks| >= 16)
            && (PaddingOf(head) <==> r.padding || |r.blocks| >= 16)
  {
    hide PacketHead, BlocksWords, BlockWords, CountWord, HalfWord, HalfValue, CountValue, CountOf, PaddingOf,
         TypeOf, VersionOf, LengthOf;
    PaddingBit(r.padding);
    PacketHeadRoundTrip(r.version, Bit(r.padding) << 28, |r.blocks|, PT, BASE_SIZE + SIZE * BlockSlots(|r.blocks|) - 1);
  }

  /** A report without padding, written anywhere, is read back with its blocks narrowed; its padding
      bit reads set from 16 blocks up. */
  lemma ReportRoundTrip(r: Report, ws: seq<bv32>, at: nat)
    requires Writable(r) && !r.padding && Holds(ws, at, ReportWords(r))
    ensures Fits(ws, at) && TypeOf(ws[at]) == PT
    ensures ParseReport(ws, at) == r.(padding := |r.blocks| >= 16, blocks := AllNarrowed(r.blocks))
  {
    HeadRoundTrip(r);
    var body := if r.blocks == [] then [0, 0, 0, 0, 0, 0] else BlocksWords(r.blocks);
    HoldsSplit(ws, at, HeadWords(r), body);
    ScalarsRoundTrip(r, ws, at);
    if r.blocks != [] {
      BlocksRoundTrip(r.blocks, ws, at + BASE_SIZE);
    }
  }

  lemma ScalarsRoundTrip(r: Report, ws: seq<bv32>, at: nat)
    requires |r.blocks| <= MAX_BLOCKS && Holds(ws, at, HeadWords(r))
    ensures ws[at] == HeadWords(r)[0] && ws[at + 1] == r.ssrc && NtpJoin(ws[at + 2], ws[at + 3]) == r.ntp
    ensures ws[at + 4] == r.rtp && ws[at + 5] == r.packets && ws[at + 6] == r.octets
  {
    NtpRoundTrip(r.ntp);
    HoldsAt(ws, at, HeadWords(r), 0);
    HoldsAt(ws, at, HeadWords(r), 1);
    HoldsAt(ws, at, HeadWords(r), 2);
    HoldsAt(ws, at, HeadWords(r), 3);
    HoldsAt(ws, at, HeadWords(r), 4);
    HoldsAt(ws, at, HeadWords(r), 5);
    HoldsAt(ws, at, HeadWords(r), 6);
  }

  class SenderReport {
    var version: bv32
    var padding: bool
    var ssrc: bv32
    var ntp: bv64
    var rtp: bv32
    var packets: bv32
    var octets: bv32
    var blocks: seq<ReceptionBlock>

    ghost function Views(bs: seq<ReceptionBlock>): (vs: seq<Block>)
      reads bs
      ensures |vs| == |bs| && forall i :: 0 <= i < |bs| ==> vs[i] == bs[i].View()
    {
      seq(|bs|, i requires 0 <= i < |bs| reads bs => bs[i].View())
    }

    ghost function View(): (r: Report)
      reads this, blocks
      ensures |r.blocks| == |blocks|
    {
      Report(version, padding, ssrc, ntp, rtp, packets, octets, Views(blocks))
    }

    constructor (ssrc: bv32, version: bv32 := 2)
      ensures View() == CLEAR.(ssrc := ssrc, version := version) && blocks == []
    {
      this.ssrc := ssrc;
      this.version := version;
      padding := false;
      ntp := 0;
      rtp, packets, octets := 0, 0, 0;
      blocks := [];
    }

    method AddReceptionBlock(block: ReceptionBlock) returns (ok: bool)
      modifies this
      ensures ok == (|old(blocks)| != MAX_BLOCKS)
      ensures blocks == if ok then old(blocks) + [block] else old(blocks)
      ensures View() == if ok then old(View()).(blocks := old(View()).blocks + [block.View()]) else old(View())
    {
      if |blocks| == MAX_BLOCKS {
        return false;
      }
      blocks := blocks + [block];
      ok := true;
    }

    method ReadBlock(data: array<bv32>, at: nat) returns (n: nat)
      requires Fits(data[..], at)
      modifies this
      ensures fresh(blocks)
      ensures TypeOf(data[at]) != PT ==> n == 0 && View() == CLEAR
      ensures TypeOf(data[at]) == PT ==> View() == ParseReport(data[..], at) && n == BASE_SIZE + SIZE * |blocks|
    {
      hide ParseBlock, VersionOf, PaddingOf, CountOf, TypeOf, CountValue, NtpJoin;
      version, padding, ssrc, ntp, rtp, packets, octets, blocks := 2, false, 0, 0, 0, 0, 0, [];
      if TypeOf(data[at]) != PT {
        return 0;
      }
      version := VersionOf(data[at]);
      padding := PaddingOf(data[at]);
      var count := CountValue(CountOf(data[at]));
      ssrc := data[at + 1];
      ntp := NtpJoin(data[at + 2], data[at + 3]);
      rtp := data[at + 4];
      packets := data[at + 5];
      octets := data[at + 6];
      blocks := ReadBlocks(data, at + BASE_SIZE, count);
      n := BASE_SIZE + SIZE * count;
    }

    static method ReadBlocks(data: array<bv32>, at: nat, count: nat) returns (bs: seq<ReceptionBlock>)
      requires at + SIZE * count <= data.Length
      ensures fresh(bs) && |bs| == count
      ensures forall i :: 0 <= i < count ==> bs[i].View() == ParseBlocks(data[..], at, count)[i]
    {
      bs := [];
      var i := 0;
      while i < count
        invariant 0 <= i <= count && |bs| == i && fresh(bs)
        invariant forall j :: 0 <= j < i ==> bs[j].View() == ParseBlocks(data[..], at, i)[j]
      {
        var block := new ReceptionBlock(0);
        var _ := block.ReadBlock(data, at + SIZE * i);
        bs := bs + [block];
        i := i + 1;
      }
    }

    method WriteBlock(data: array<bv32>, at: nat, len: nat) returns (n: nat)
      requires at + len <= data.Length && Writable(View())
      modifies data
      ensures n == if len < |ReportWords(View())| then 0 else |ReportWords(View())|
      ensures data[..] == if n == 0 then old(data[..]) else Stored(old(data[..]), at, ReportWords(View()))
    {
      var slots := if |blocks| == 0 then 1 else |blocks|;
      if len < BASE_SIZE + SIZE * slots {
        return 0;
      }
      WriteHead(data, at, slots);
      WriteBody(data, at, old(data[..]));
      n := BASE_SIZE + SIZE * slots;
    }

    method WriteBody(data: array<bv32>, at: nat, ghost was: seq<bv32>)
      requires Writable(View()) && at + |ReportWords(View())| <= data.Length == |was|
      requires data[..] == Stored(was, at, HeadWords(View()))
      modifies data
      ensures data[..] == Stored(was, at, ReportWords(View()))
    {
      hide BlocksWords, BlockWords, PacketHead, CountWord, HalfWord;
      ghost var r := View();
      if |blocks| == 0 {
        PutWords(data, at + BASE_SIZE, [0, 0, 0, 0, 0, 0]);
        StoredTwice(was, at, HeadWords(r), [0, 0, 0, 0, 0, 0]);
      } else {
        WriteBlocks(data, at + BASE_SIZE, blocks);
        StoredTwice(was, at, HeadWords(r), BlocksWords(r.blocks));
      }
      assert View() == r;
    }

    method WriteHead(data: array<bv32>, at: nat, slots: nat)
      requires at + BASE_SIZE <= data.Length && |blocks| <= MAX_BLOCKS && slots == BlockSlots(|blocks|)
      modifies data
      ensures data[..] == Stored(old(data[..]), at, HeadWords(View()))
    {
      hide PacketHead, NtpHigh, NtpLow, CountWord, HalfWord, Bit, Stored;
      PutWords(data, at, [
        PacketHead(version, Bit(padding) << 28, CountWord(|blocks|), PT, HalfWord(BASE_SIZE + SIZE * slots - 1)),
        ssrc, NtpHigh(ntp), NtpLow(ntp), rtp, packets, octets]);
    }

    method WriteBlocks(data: array<bv32>, at: nat, bs: seq<ReceptionBlock>)
      requires at + SIZE * |bs| <= data.Length
      requires forall i :: 0 <= i < |bs| ==> Convertible(bs[i].View())
      modifies data
      ensures data[..] == Stored(old(data[..]), at, BlocksWords(Views(bs)))
    {
      hide BlockWords, BlocksWords, Stored;
      ghost var was, vs := data[..], Views(bs);
      StoredNothing(was, at);
      var i := 0;
      while i < |bs|
        invariant 0 <= i <= |bs|
        invariant data[..] == Stored(was, at, BlocksWords(vs[..i]))
      {
        ghost var before := BlocksWords(vs[..i]);
        BlocksWordsOn(vs, i);
        var _ := bs[i].WriteBlock(data, at + SIZE * i, SIZE);
        StoredTwice(was, at, before, BlockWords(vs[i]));
        i := i + 1;
      }
      assert vs[..|bs|] == vs;
    }
  }
}
