/** lib/rtpheader.cpp: the RTP fixed header, section 5.1 of RFC 3550. */
module RtpHeaders {
  import opened Words
  import opened Wire

  const MIN_WORDS := 3
  const MAX_CSRCS := 15

  datatype Header = Header(
    version: bv32, padding: bool, extension: bool, marker: bool, payloadType: bv32,
    seqNo: uint16, timestamp: uint32, ssrc: bv32, csrcs: seq<bv32>)

  ghost predicate Writable(h: Header) {
    h.version <= 3 && h.payloadType <= 0x7f && |h.csrcs| <= MAX_CSRCS
  }

  /** As the program writes it; the mask before the extension bit's shift always gives zero. */
  function FixedWord(version: bv32, padding: bv32, extension: bv32, count: bv32, marker: bv32, ptype: bv32,
      seqNo: bv32): bv32 {
    ((0x03 & version) << 30) | ((0x01 & padding) << 28) | (0x01 & (extension << 27)) | ((0x0f & count) << 24)
    | ((0x01 & marker) << 23) | ((0x7f & ptype) << 16) | (0xffff & seqNo)
  }

  function HeaderWords(h: Header): (ws: seq<bv32>)
    requires |h.csrcs| <= MAX_CSRCS
    ensures |ws| == MIN_WORDS + |h.csrcs|
  {
    [FixedWord(h.version, Bit(h.padding), Bit(h.extension), CountWord(|h.csrcs|), Bit(h.marker), h.payloadType,
               HalfWord(h.seqNo)),
     WordOf(h.timestamp), h.ssrc] + h.csrcs
  }

  function HeaderVersion(w: bv32): bv32 { w >> 30 }
  function HeaderPadding(w: bv32): bool { (w >> 28) & 0x01 != 0 }
  function ExtensionOf(w: bv32): bool { (w >> 27) & 0x01 != 0 }
  function CsrcBits(w: bv32): bv32 { (w >> 24) & 0x0f }
  function CsrcCount(w: bv32): nat { CountValue(CsrcBits(w)) }
  function MarkerOf(w: bv32): bool { (w >> 23) & 0x01 != 0 }
  function PayloadOf(w: bv32): bv32 { (w >> 16) & 0x7f }

  /** The words that a header with this first word is read from. */
  predicate Fits(ws: seq<bv32>) {
    && |ws| >= MIN_WORDS
    && |ws| >= MIN_WORDS + CsrcCount(ws[0])
    && (ExtensionOf(ws[0]) ==> |ws| >= MIN_WORDS + CsrcCount(ws[0]) + 2)
  }

  function ParseHeader(ws: seq<bv32>): Header
    requires Fits(ws)
  {
    var w := ws[0];
    Header(HeaderVersion(w), HeaderPadding(w), ExtensionOf(w), MarkerOf(w), PayloadOf(w),
           HalfValue(LowerHalf(w)), WordValue(ws[1]), ws[2], ws[3..3 + CsrcCount(w)])
  }

  /** Where the program takes the frame to start; zero when that is past the `len` words received. */
  function HeaderSize(ws: seq<bv32>, len: nat): nat
    requires Fits(ws)
  {
    var n := CsrcCount(ws[0]);
    var size := if ExtensionOf(ws[0]) then MIN_WORDS + n + HalfValue(LowerHalf(ws[4 + n])) else MIN_WORDS + n;
    if size > len then 0 else size
  }

  lemma HeaderWithin(ws: seq<bv32>, len: nat)
    requires Fits(ws)
    ensures HeaderSize(ws, len) <= len
  {
  }

  lemma FixedWordFields(version: bv32, padding: bool, extension: bool, count: bv32, marker: bool, ptype: bv32,
      seqNo: bv32)
    requires version <= 3 && count <= 0x0f && ptype <= 0x7f && seqNo <= 0xffff
    ensures var w := FixedWord(version, Bit(padding), Bit(extension), count, Bit(marker), ptype, seqNo);
            && HeaderVersion(w) == version && HeaderPadding(w) == padding && (ExtensionOf(w) <==> count >= 8)
            && CsrcBits(w) == count && MarkerOf(w) == marker && PayloadOf(w) == ptype && LowerHalf(w) == seqNo
  {
  }

  lemma FirstWord(h: Header)
    requires Writable(h)
    ensures var w := HeaderWords(h)[0];
            && HeaderVersion(w) == h.version && HeaderPadding(w) == h.padding && (ExtensionOf(w) <==> |h.csrcs| >= 8)
            && CsrcCount(w) == |h.csrcs| && MarkerOf(w) == h.marker && PayloadOf(w) == h.payloadType
            && HalfValue(LowerHalf(w)) == h.seqNo
  {
    hide FixedWord, CountWord, CountValue, HalfWord, HalfValue, HeaderVersion, HeaderPadding, ExtensionOf, CsrcBits,
         MarkerOf, PayloadOf, LowerHalf, Bit, WordOf;
    var n := |h.csrcs|;
    CountRoundTrip(n);
    SmallCount(n);
    HalfRoundTrip(h.seqNo);
    FixedWordFields(h.version, h.padding, h.extension, CountWord(n), h.marker, h.payloadType, HalfWord(h.seqNo));
  }

  /** A header written before any frame is read back, except that the extension bit reads set exactly
      when there are eight sources or more; below that the frame is found where it starts. */
  lemma HeaderRoundTrip(h: Header, frame: seq<bv32>)
    requires Writable(h) && (|h.csrcs| >= 8 ==> |frame| >= 2)
    ensures var ws := HeaderWords(h) + frame;
            && Fits(ws)
            && ParseHeader(ws) == h.(extension := |h.csrcs| >= 8)
            && (ParseHeader(ws) == h <==> (h.extension <==> |h.csrcs| >= 8))
            && (|h.csrcs| < 8 ==>
                  forall len: nat :: len >= |HeaderWords(h)| ==> HeaderSize(ws, len) == |HeaderWords(h)|)
  {
    hide HeaderWords, CsrcCount, HalfValue, HeaderVersion, HeaderPadding, ExtensionOf, MarkerOf, PayloadOf, LowerHalf,
         WordOf, WordValue;
    FirstWord(h);
    WordRoundTrip(h.timestamp);
    HeaderParts(h, frame);
  }

  /** A buffer of twenty words is enough for whatever its first word announces. */
  lemma BufferFits(ws: seq<bv32>)
    requires |ws| >= MIN_WORDS + MAX_CSRCS + 2
    ensures Fits(ws)
  {
    hide CsrcCount, ExtensionOf;
    CsrcCountSmall(ws[0]);
  }

  lemma HeaderParts(h: Header, frame: seq<bv32>)
    requires |h.csrcs| <= MAX_CSRCS
    ensures var ws := HeaderWords(h) + frame;
            && ws[0] == HeaderWords(h)[0] && ws[1] == WordOf(h.timestamp) && ws[2] == h.ssrc
            && ws[3..3 + |h.csrcs|] == h.csrcs
  {
    hide FixedWord, CountWord, HalfWord, WordOf;
  }

  lemma SmallCount(n: nat)
    requires n <= 15
    ensures CountWord(n) <= 0x0f && (CountWord(n) >= 8 <==> n >= 8)
  {
    SmallCountBits(n as bv5);
  }

  lemma SmallCountBits(c: bv5)
    ensures (c as bv32) <= 0x0f <==> (c as nat) <= 15
    ensures (c as bv32) >= 8 <==> (c as nat) >= 8
  {
  }

  class RtpHeader {
    var version: bv32
    var padding: bool
    var extension: bool
    var marker: bool
    var payloadType: bv32
    var seqNo: uint16
    var timestamp: uint32
    var interval: uint32
    var ssrc: bv32
    var csrcs: seq<bv32>

    function View(): Header
      reads this
    {
      Header(version, padding, extension, marker, payloadType, seqNo, timestamp, ssrc, csrcs)
    }

    /** The first sequence number is random. */
    constructor (payloadType: bv32, interval: uint32, random: uint16)
      ensures View() == Header(2, false, false, false, payloadType, random, 0, 0, []) && this.interval == interval
    {
      version := 2;
      padding, extension, marker := false, false, false;
      this.payloadType := payloadType;
      seqNo := random;
      timestamp := 0;
      this.interval := interval;
      ssrc := 0;
      csrcs := [];
    }

    method AddCsrc(csrc: bv32) returns (ok: bool)
      modifies this`csrcs
      ensures ok == (|old(csrcs)| != MAX_CSRCS)
      ensures csrcs == if ok then old(csrcs) + [csrc] else old(csrcs)
    {
      if |csrcs| == MAX_CSRCS {
        return false;
      }
      csrcs := csrcs + [csrc];
      ok := true;
    }

    /** operator++: the number of the next packet, 16 bits wide, and its time. */
    method Advance()
      modifies this`seqNo, this`timestamp
      ensures seqNo == Wrap16(old(seqNo) + 1) && timestamp == Wrap32(old(timestamp) + interval)
    {
      seqNo := Wrap16(seqNo + 1);
      timestamp := Wrap32(timestamp + interval);
    }

    /** `len` counts the words received. */
    method ReadBlock(data: array<bv32>, len: nat) returns (size: nat)
      requires Fits(data[..])
      modifies this
      ensures View() == ParseHeader(data[..]) && size == HeaderSize(data[..], len)
    {
      hide HeaderVersion, HeaderPadding, ExtensionOf, CsrcCount, MarkerOf, PayloadOf, HalfValue, WordValue, LowerHalf;
      var fields := data[0];
      version := HeaderVersion(fields);
      padding := HeaderPadding(fields);
      extension := ExtensionOf(fields);
      var count := CsrcCount(fields);
      marker := MarkerOf(fields);
      payloadType := PayloadOf(fields);
      seqNo := HalfValue(LowerHalf(fields));
      timestamp := WordValue(data[1]);
      ssrc := data[2];
      CsrcCountSmall(fields);
      ReadCsrcs(data, count);
      size := if extension then 3 + |csrcs| + HalfValue(LowerHalf(data[4 + |csrcs|])) else 3 + |csrcs|;
      if size > len {
        size := 0;
      }
    }

    method ReadCsrcs(data: array<bv32>, count: nat)
      requires 3 + count <= data.Length && count <= MAX_CSRCS
      modifies this`csrcs
      ensures csrcs == data[3..3 + count]
    {
      csrcs := [];
      var i := 0;
      while i < count
        invariant 0 <= i <= count && csrcs == data[3..3 + i]
      {
        var _ := AddCsrc(data[3 + i]);
        i := i + 1;
      }
    }

    method WriteBlock(data: array<bv32>, len: nat) returns (size: nat)
      requires len <= data.Length && |csrcs| <= MAX_CSRCS
      modifies data
      ensures size == if len < MIN_WORDS + |csrcs| then 0 else MIN_WORDS + |csrcs|
      ensures data[..] == if size == 0 then old(data[..]) else Stored(old(data[..]), 0, HeaderWords(View()))
    {
      if len < MIN_WORDS + |csrcs| {
        return 0;
      }
      hide FixedWord, CountWord, HalfWord, WordOf;
      ghost var was := data[..];
      var fixed := [FixedWord(version, Bit(padding), Bit(extension), CountWord(|csrcs|), Bit(marker), payloadType,
                              HalfWord(seqNo)), WordOf(timestamp), ssrc];
      PutWords(data, 0, fixed);
      PutWords(data, 3, csrcs);
      StoredTwice(was, 0, fixed, csrcs);
      size := MIN_WORDS + |csrcs|;
    }
  }

  lemma CsrcCountSmall(w: bv32)
    ensures CsrcCount(w) <= 15
  {
    CsrcBitsSmall(w);
    SmallCountBits((0x1f & CsrcBits(w)) as bv5);
  }

  lemma CsrcBitsSmall(w: bv32)
    ensures ((0x1f & CsrcBits(w)) as bv5) as bv32 <= 0x0f
  {
  }
}
