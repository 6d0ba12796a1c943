/**
 * Words and octets on the wire. A buffer is an array of 32-bit words held by value; the byte swapping
 * of htonl and ntohl is in the order of the octets, most significant first.
 */
module Wire {
  import opened Words

  // ---------------------------------------------------------------- numbers in words

  /** A number below 256 as an octet, put together from its two hexadecimal digits. */
  function OctetOf(n: nat): bv8
    requires n < 256
  {
    (((n / 16) as bv4 as bv8) << 4) | ((n % 16) as bv4 as bv8)
  }

  function OctetValue(b: bv8): (n: nat)
    ensures n < 256
  {
    16 * (((b >> 4) & 0xf) as bv4 as nat) + ((b & 0xf) as bv4 as nat)
  }

  lemma Digit(n: nat)
    requires n < 16
    ensures (n as bv4) as nat == n
  {
  }

  lemma Digits(h: bv4, l: bv4)
    ensures var b := ((h as bv8) << 4) | (l as bv8);
            ((b >> 4) & 0xf) as bv4 == h && (b & 0xf) as bv4 == l
  {
  }

  lemma OctetRoundTrip(n: nat)
    requires n < 256
    ensures OctetValue(OctetOf(n)) == n
  {
    Digit(n / 16);
    Digit(n % 16);
    Digits((n / 16) as bv4, (n % 16) as bv4);
  }

  /** A 16-bit number in the lower half of a word. */
  function HalfWord(n: uint16): bv32 {
    ((OctetOf(n / 256) as bv32) << 8) | (OctetOf(n % 256) as bv32)
  }

  /** The number in the lower half of a word. */
  function HalfValue(w: bv32): (n: uint16) {
    256 * OctetValue(((w >> 8) & 0xff) as bv8) + OctetValue((w & 0xff) as bv8)
  }

  lemma HalfOctets(h: bv8, l: bv8)
    ensures var w := ((h as bv32) << 8) | (l as bv32);
            w <= 0xffff && ((w >> 8) & 0xff) as bv8 == h && (w & 0xff) as bv8 == l
  {
  }

  lemma HalfRoundTrip(n: uint16)
    ensures HalfWord(n) <= 0xffff && HalfValue(HalfWord(n)) == n
  {
    hide OctetOf, OctetValue;
    OctetRoundTrip(n / 256);
    OctetRoundTrip(n % 256);
    HalfOctets(OctetOf(n / 256), OctetOf(n % 256));
  }

  function JoinHalves(h: bv32, l: bv32): bv32 { (h << 16) | l }
  function UpperHalf(w: bv32): bv32 { w >> 16 }
  function LowerHalf(w: bv32): bv32 { 0xffff & w }

  lemma HalvesRoundTrip(h: bv32, l: bv32)
    requires h <= 0xffff && l <= 0xffff
    ensures UpperHalf(JoinHalves(h, l)) == h && LowerHalf(JoinHalves(h, l)) == l
  {
  }

  /** A 32-bit number as a word. */
  function WordOf(n: uint32): bv32 {
    JoinHalves(HalfWord(n / 0x1_0000), HalfWord(n % 0x1_0000))
  }

  function WordValue(w: bv32): (n: uint32) {
    0x1_0000 * HalfValue(UpperHalf(w)) + HalfValue(LowerHalf(w))
  }

  lemma WordRoundTrip(n: uint32)
    ensures WordValue(WordOf(n)) == n
  {
    hide HalfWord, HalfValue, JoinHalves, UpperHalf, LowerHalf;
    HalfRoundTrip(n / 0x1_0000);
    HalfRoundTrip(n % 0x1_0000);
    HalvesRoundTrip(HalfWord(n / 0x1_0000), HalfWord(n % 0x1_0000));
  }

  /** The low five bits of a count. */
  function CountWord(n: nat): bv32 {
    (n % 32) as bv5 as bv32
  }

  function CountValue(w: bv32): (n: nat)
    ensures n < 32
  {
    (0x1f & w) as bv5 as nat
  }

  lemma CountRoundTrip(n: nat)
    requires n < 32
    ensures CountWord(n) <= 0x1f && CountValue(CountWord(n)) == n
    ensures CountWord(n) < 16 <==> n < 16
  {
    CountBits(n as bv5);
  }

  lemma CountBits(c: bv5)
    ensures (c as bv32) <= 0x1f && (0x1f & (c as bv32)) as bv5 == c
    ensures (c as bv32) < 16 <==> (c as nat) < 16
  {
  }

  function Bit(b: bool): bv32 {
    if b then 1 else 0
  }

  // ---------------------------------------------------------------- the first word of an RTCP packet

  /** `pad` is the padding bit already in its place. */
  function PacketHead(version: bv32, pad: bv32, count: bv32, ptype: bv32, length: bv32): bv32 {
    ((0x03 & version) << 30) | pad | ((0x1f & count) << 24) | ((0xff & ptype) << 16) | (0xffff & length)
  }

  function VersionOf(head: bv32): bv32 { 0x03 & (head >> 30) }
  function PaddingOf(head: bv32): bool { 0x01 & (head >> 28) != 0 }
  function CountOf(head: bv32): bv32 { 0x1f & (head >> 24) }
  function TypeOf(head: bv32): bv32 { 0xff & (head >> 16) }
  function LengthOf(head: bv32): bv32 { 0xffff & head }

  /** The padding bit at 28 is the top bit of the count: written set, it is read as part of the count. */
  lemma PacketHeadFields(version: bv32, pad: bv32, count: bv32, ptype: bv32, length: bv32)
    requires version <= 3 && count <= 0x1f && ptype <= 0xff && length <= 0xffff
    requires pad & !0x30000000 == 0
    ensures var head := PacketHead(version, pad, count, ptype, length);
            && VersionOf(head) == version && TypeOf(head) == ptype && LengthOf(head) == length
            && (CountOf(head) == count <==> pad & 0x10000000 == 0 || count >= 16)
            && (PaddingOf(head) <==> pad & 0x10000000 != 0 || count >= 16)
  {
  }

  lemma PaddingBit(p: bool)
    ensures (Bit(p) << 28) & !0x30000000 == 0
    ensures (Bit(p) << 28) & 0x10000000 == 0 <==> !p
  {
  }

  lemma SameBits(x: bv5, y: bv5)
    requires x as nat == y as nat
    ensures x == y
  {
  }

  lemma SameCount(a: bv32, b: bv32)
    requires a <= 0x1f && b <= 0x1f && CountValue(a) == CountValue(b)
    ensures a == b
  {
    assert (0x1f & a) as bv5 == a as bv5 && (0x1f & b) as bv5 == b as bv5;
    SameBits(a as bv5, b as bv5);
  }

  lemma CountOfRange(head: bv32)
    ensures CountOf(head) <= 0x1f
  {
  }

  /** The same for a count and a length given as numbers. */
  lemma PacketHeadRoundTrip(version: bv32, pad: bv32, count: nat, ptype: bv32, length: uint16)
    requires version <= 3 && count < 32 && ptype <= 0xff && pad & !0x30000000 == 0
    ensures var head := PacketHead(version, pad, CountWord(count), ptype, HalfWord(length));
            && VersionOf(head) == version && TypeOf(head) == ptype && HalfValue(LengthOf(head)) == length
            && (CountValue(CountOf(head)) == count <==> pad & 0x10000000 == 0 || count >= 16)
            && (PaddingOf(head) <==> pad & 0x10000000 != 0 || count >= 16)
  {
    var head := PacketHead(version, pad, CountWord(count), ptype, HalfWord(length));
    CountRoundTrip(count);
    HalfRoundTrip(length);
    PacketHeadFields(version, pad, CountWord(count), ptype, HalfWord(length));
    CountOfRange(head);
    if CountValue(CountOf(head)) == count {
      SameCount(CountOf(head), CountWord(count));
    }
  }

  // ---------------------------------------------------------------- octets of words

  function Octet(w: bv32, k: nat): bv8
    requires k < 4
  {
    if k == 0 then ((w >> 24) & 0xff) as bv8
    else if k == 1 then ((w >> 16) & 0xff) as bv8
    else if k == 2 then ((w >> 8) & 0xff) as bv8
    else (w & 0xff) as bv8
  }

  function PackWord(b0: bv8, b1: bv8, b2: bv8, b3: bv8): bv32 {
    ((b0 as bv32) << 24) | ((b1 as bv32) << 16) | ((b2 as bv32) << 8) | (b3 as bv32)
  }

  lemma PackWordOctets(b0: bv8, b1: bv8, b2: bv8, b3: bv8)
    ensures var w := PackWord(b0, b1, b2, b3);
            Octet(w, 0) == b0 && Octet(w, 1) == b1 && Octet(w, 2) == b2 && Octet(w, 3) == b3
  {
  }

  /** The word with its octet `k` replaced. */
  function SetOctet(w: bv32, k: nat, b: bv8): bv32
    requires k < 4
  {
    PackWord(if k == 0 then b else Octet(w, 0), if k == 1 then b else Octet(w, 1),
             if k == 2 then b else Octet(w, 2), if k == 3 then b else Octet(w, 3))
  }

  lemma SetOctetOnly(w: bv32, k: nat, b: bv8, j: nat)
    requires k < 4 && j < 4
    ensures Octet(SetOctet(w, k, b), j) == if j == k then b else Octet(w, j)
  {
    PackWordOctets(if k == 0 then b else Octet(w, 0), if k == 1 then b else Octet(w, 1),
                   if k == 2 then b else Octet(w, 2), if k == 3 then b else Octet(w, 3));
    assert j == 0 || j == 1 || j == 2 || j == 3;
  }

  lemma OctetsPackWord(w: bv32)
    ensures PackWord(Octet(w, 0), Octet(w, 1), Octet(w, 2), Octet(w, 3)) == w
  {
  }

  function Octets(words: seq<bv32>): (s: seq<bv8>)
    ensures |s| == 4 * |words|
  {
    seq(4 * |words|, i requires 0 <= i < 4 * |words| => Octet(words[i / 4], i % 4))
  }

  /** The words that octets fill; the length is a multiple of four. */
  function Pack(octets: seq<bv8>): (words: seq<bv32>)
    requires |octets| % 4 == 0
    ensures |words| == |octets| / 4
  {
    seq(|octets| / 4, i requires 0 <= i < |octets| / 4 =>
      PackWord(octets[4 * i], octets[4 * i + 1], octets[4 * i + 2], octets[4 * i + 3]))
  }

  lemma OctetsOfPack(octets: seq<bv8>)
    requires |octets| % 4 == 0
    ensures Octets(Pack(octets)) == octets
  {
    var s := Octets(Pack(octets));
    forall i | 0 <= i < |octets|
      ensures s[i] == octets[i]
    {
      var j := 4 * (i / 4);
      PackWordOctets(octets[j], octets[j + 1], octets[j + 2], octets[j + 3]);
    }
  }

  lemma OctetsAt(words: seq<bv32>, i: nat, j: nat)
    requires i < |words| && j < 4
    ensures Octets(words)[4 * i + j] == Octet(words[i], j)
  {
    assert (4 * i + j) / 4 == i && (4 * i + j) % 4 == j;
  }

  lemma PackOfOctetsAt(words: seq<bv32>, i: nat)
    requires i < |words|
    ensures Pack(Octets(words))[i] == words[i]
  {
    hide Octet, PackWord, Octets;
    OctetsPackWord(words[i]);
    OctetsAt(words, i, 0);
    OctetsAt(words, i, 1);
    OctetsAt(words, i, 2);
    OctetsAt(words, i, 3);
  }

  lemma PackOfOctets(words: seq<bv32>)
    ensures Pack(Octets(words)) == words
  {
    hide Octet, PackWord, Octets, Pack;
    forall i | 0 <= i < |words|
      ensures Pack(Octets(words))[i] == words[i]
    {
      PackOfOctetsAt(words, i);
    }
  }

  lemma OctetsSlice(words: seq<bv32>, from: nat, end: nat)
    requires from <= end <= |words|
    ensures Octets(words)[4 * from..4 * end] == Octets(words[from..end])
  {
    var a, b := Octets(words)[4 * from..4 * end], Octets(words[from..end]);
    forall i | 0 <= i < |b|
      ensures a[i] == b[i]
    {
      assert (4 * from + i) / 4 == from + i / 4 && (4 * from + i) % 4 == i % 4;
    }
  }

  /** A buffer with `ws` stored from `at` on. */
  function Stored(was: seq<bv32>, at: nat, ws: seq<bv32>): (s: seq<bv32>)
    requires at + |ws| <= |was|
    ensures |s| == |was| && s[at..at + |ws|] == ws
  {
    was[..at] + ws + was[at + |ws|..]
  }

  lemma StoredNothing(was: seq<bv32>, at: nat)
    requires at <= |was|
    ensures Stored(was, at, []) == was
  {
  }

  lemma StoredTwice(was: seq<bv32>, at: nat, a: seq<bv32>, b: seq<bv32>)
    requires at + |a| + |b| <= |was|
    ensures Stored(Stored(was, at, a), at + |a|, b) == Stored(was, at, a + b)
  {
  }

  /** The words `part` stand in `ws` from `at` on. */
  ghost predicate Holds(ws: seq<bv32>, at: nat, part: seq<bv32>) {
    at + |part| <= |ws| && ws[at..at + |part|] == part
  }

  lemma HoldsSplit(ws: seq<bv32>, at: nat, a: seq<bv32>, b: seq<bv32>)
    requires Holds(ws, at, a + b)
    ensures Holds(ws, at, a) && Holds(ws, at + |a|, b)
  {
    var mine := ws[at..at + |a + b|];
    assert mine[..|a|] == a && mine[|a|..] == b;
    assert ws[at..at + |a|] == mine[..|a|];
    assert ws[at + |a|..at + |a| + |b|] == mine[|a|..];
  }

  lemma HoldsAt(ws: seq<bv32>, at: nat, part: seq<bv32>, i: nat)
    requires Holds(ws, at, part) && i < |part|
    ensures ws[at + i] == part[i]
  {
    assert ws[at..at + |part|][i] == ws[at + i];
  }

  /** Words stored over cleared ones. */
  lemma StoredOnCleared(was: seq<bv32>, at: nat, len: nat, head: seq<bv32>)
    requires |head| <= len && at + len <= |was|
    ensures Stored(Stored(was, at, ZeroWords(len)), at, head) ==
            (was[..at] + head) + ZeroWords(len - |head|) + was[at + len..]
  {
  }

  lemma StoredJoin(was: seq<bv32>, at: nat, head: seq<bv32>, body: seq<bv32>)
    requires at + |head| + |body| <= |was|
    ensures Stored(was, at, head + body) == (was[..at] + head) + body + was[at + |head| + |body|..]
  {
  }

  /** Stores words one after the other. */
  method PutWords(data: array<bv32>, at: nat, ws: seq<bv32>)
    requires at + |ws| <= data.Length
    modifies data
    ensures data[..] == Stored(old(data[..]), at, ws)
  {
    ghost var was := data[..];
    var i := 0;
    while i < |ws|
      invariant 0 <= i <= |ws|
      invariant data[..] == Stored(was, at, ws[..i])
    {
      data[at + i] := ws[i];
      StoredTwice(was, at, ws[..i], [ws[i]]);
      assert ws[..i] + [ws[i]] == ws[..i + 1];
      i := i + 1;
    }
    assert ws[..|ws|] == ws;
  }

  lemma OctetsJoin(a: seq<bv32>, b: seq<bv32>)
    ensures Octets(a + b) == Octets(a) + Octets(b)
  {
    hide Octets;
    OctetsSlice(a + b, 0, |a|);
    OctetsSlice(a + b, |a|, |a| + |b|);
    assert (a + b)[0..|a|] == a && (a + b)[|a|..|a| + |b|] == b;
    var o := Octets(a + b);
    assert o == o[4 * 0..4 * |a|] + o[4 * |a|..4 * (|a| + |b|)];
  }

  lemma SameOctets(a: seq<bv32>, b: seq<bv32>)
    requires Octets(a) == Octets(b)
    ensures a == b
  {
    PackOfOctets(a);
    PackOfOctets(b);
  }

  function ZeroWords(n: nat): (s: seq<bv32>)
    ensures |s| == n && forall i :: 0 <= i < n ==> s[i] == 0
  {
    seq(n, _ => 0)
  }

  function Zeros(n: nat): (s: seq<bv8>)
    ensures |s| == n && forall i :: 0 <= i < n ==> s[i] == 0
  {
    seq(n, _ => 0)
  }

  lemma OctetsOfZero(n: nat)
    ensures Octets(ZeroWords(n)) == Zeros(4 * n)
  {
  }

  /** Octets with `bs` stored from `k` on. */
  function Overwritten(was: seq<bv8>, k: nat, bs: seq<bv8>): seq<bv8>
    requires k + |bs| <= |was|
  {
    was[..k] + bs + was[k + |bs|..]
  }

  lemma OverwrittenTwice(was: seq<bv8>, k: nat, a: seq<bv8>, b: seq<bv8>)
    requires k + |a| + |b| <= |was|
    ensures Overwritten(Overwritten(was, k, a), k + |a|, b) == Overwritten(was, k, a + b)
  {
  }

  lemma OverwriteNothing(was: seq<bv8>, k: nat)
    requires k <= |was|
    ensures Overwritten(was, k, []) == was
  {
  }

  lemma OverwriteNext(was: seq<bv8>, k: nat, bs: seq<bv8>, i: nat)
    requires i < |bs| && k + |bs| <= |was|
    ensures |Overwritten(was, k, bs[..i])| == |was|
    ensures Overwritten(was, k, bs[..i])[k + i := bs[i]] == Overwritten(was, k, bs[..i + 1])
  {
  }

  /** The octets `part` stand in `s` from `at` on. */
  ghost predicate HoldsOctets(s: seq<bv8>, at: nat, part: seq<bv8>) {
    at + |part| <= |s| && s[at..at + |part|] == part
  }

  lemma HoldsOctetsSplit(s: seq<bv8>, at: nat, a: seq<bv8>, b: seq<bv8>)
    requires HoldsOctets(s, at, a + b)
    ensures HoldsOctets(s, at, a) && HoldsOctets(s, at + |a|, b)
  {
    var mine := s[at..at + |a + b|];
    assert mine[..|a|] == a && mine[|a|..] == b;
    assert s[at..at + |a|] == mine[..|a|];
    assert s[at + |a|..at + |a| + |b|] == mine[|a|..];
  }

  lemma HoldsOctetsOf(ws: seq<bv32>, at: nat, part: seq<bv32>)
    requires Holds(ws, at, part)
    ensures HoldsOctets(Octets(ws), 4 * at, Octets(part))
  {
    hide Octets;
    OctetsSlice(ws, at, at + |part|);
  }

  lemma HoldsPacked(ws: seq<bv32>, at: nat, octets: seq<bv8>)
    requires |octets| % 4 == 0 && Holds(ws, at, Pack(octets))
    ensures HoldsOctets(Octets(ws), 4 * at, octets)
  {
    HoldsOctetsOf(ws, at, Pack(octets));
    OctetsOfPack(octets);
  }

  lemma OctetsOfThree(a: seq<bv32>, b: seq<bv32>, c: seq<bv32>)
    ensures Octets(a + b + c) == Octets(a) + Octets(b) + Octets(c)
  {
    OctetsJoin(a + b, c);
    OctetsJoin(a, b);
  }

  lemma OverwriteZeros(a: seq<bv8>, n: nat, c: seq<bv8>, bs: seq<bv8>, fill: nat)
    requires |bs| + fill <= n
    ensures Overwritten(a + Zeros(n) + c, |a|, bs) == a + (bs + Zeros(fill) + Zeros(n - |bs| - fill)) + c
  {
  }

  /** Octets stored over cleared words, with null octets up to the next word and null words after it. */
  lemma StoredOverZeros(a: seq<bv32>, n: nat, c: seq<bv32>, bs: seq<bv8>, fill: nat, end: seq<bv32>)
    requires (|bs| + fill) % 4 == 0 && |bs| + fill <= 4 * n
    requires 4 * |a| + |bs| <= 4 * |a + ZeroWords(n) + c|
    requires Octets(end) == Overwritten(Octets(a + ZeroWords(n) + c), 4 * |a|, bs)
    ensures end == a + (Pack(bs + Zeros(fill)) + ZeroWords(n - (|bs| + fill) / 4)) + c
  {
    hide Octets, Pack, ZeroWords, Zeros;
    var packed, rest := Pack(bs + Zeros(fill)), ZeroWords(n - (|bs| + fill) / 4);
    OctetsOfThree(a, ZeroWords(n), c);
    OctetsOfZero(n);
    OverwriteZeros(Octets(a), 4 * n, Octets(c), bs, fill);
    OctetsOfThree(a, packed + rest, c);
    OctetsJoin(packed, rest);
    OctetsOfPack(bs + Zeros(fill));
    OctetsOfZero(|rest|);
    SameOctets(end, a + (packed + rest) + c);
  }

  function Repeated(w: bv32, n: nat): (s: seq<bv32>)
    ensures |s| == n && forall i :: 0 <= i < n ==> s[i] == w
  {
    seq(n, _ => w)
  }

  /** Stores one octet in a buffer of words. */
  method PutOctet(data: array<bv32>, k: nat, b: bv8)
    requires k < 4 * data.Length
    modifies data
    ensures Octets(data[..]) == old(Octets(data[..]))[k := b]
  {
    ghost var was := data[..];
    data[k / 4] := SetOctet(data[k / 4], k % 4, b);
    assert data[..] == was[k / 4 := SetOctet(was[k / 4], k % 4, b)];
    forall i | 0 <= i < 4 * data.Length
      ensures Octets(data[..])[i] == Octets(was)[k := b][i]
    {
      SetOctetOnly(was[k / 4], k % 4, b, i % 4);
      if i / 4 == k / 4 && i % 4 == k % 4 {
        assert i == k;
      }
    }
  }

  method PutOctets(data: array<bv32>, k: nat, bs: seq<bv8>)
    requires k + |bs| <= 4 * data.Length
    modifies data
    ensures Octets(data[..]) == Overwritten(old(Octets(data[..])), k, bs)
  {
    hide Octets, Overwritten;
    ghost var was := Octets(data[..]);
    OverwriteNothing(was, k);
    var i := 0;
    while i < |bs|
      invariant 0 <= i <= |bs|
      invariant Octets(data[..]) == Overwritten(was, k, bs[..i])
    {
      PutOctet(data, k + i, bs[i]);
      OverwriteNext(was, k, bs, i);
      i := i + 1;
    }
    assert bs[..|bs|] == bs;
  }
}
