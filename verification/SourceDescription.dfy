/**
 * lib/rtpsourcedescription.cpp: section 6.5 of RFC 3550, for the one source the program describes.
 * A chunk here is what the RFC calls an item.
 */
module SourceDescriptions {
  import opened Wire

  const BASE_SIZE := 1
  const PT: bv32 := 202

  const CNAME := 1
  const PRIV := 8

  datatype Chunk = Chunk(ctype: nat, data: seq<bv8>)

  datatype Sdes = Sdes(version: bv32, padding: bool, chunks: seq<Chunk>, ssrcs: seq<bv32>)

  ghost predicate OctetSized(c: Chunk) {
    c.ctype <= 255 && |c.data| <= 255
  }

  ghost predicate AllOctetSized(cs: seq<Chunk>) {
    forall i :: 0 <= i < |cs| ==> OctetSized(cs[i])
  }

  /** The types of the enumeration, each used at most once: what addChunk builds. */
  ghost predicate DistinctTypes(types: seq<nat>) {
    && (forall i :: 0 <= i < |types| ==> CNAME <= types[i] <= PRIV)
    && (forall i, j :: 0 <= i < j < |types| ==> types[i] != types[j])
  }

  // ---------------------------------------------------------------- sizes

  /** Words for a packet of these chunks, as GetTotalSize counts them. */
  function TotalSize(cs: seq<Chunk>): nat {
    if cs == [] then BASE_SIZE else TotalSize(cs[..|cs| - 1]) + 2 + (2 + |cs[|cs| - 1].data|) / 4
  }

  function ItemOctets(c: Chunk): (s: seq<bv8>)
    requires OctetSized(c)
    ensures |s| == 2 + |c.data|
  {
    [OctetOf(c.ctype), OctetOf(|c.data|)] + c.data
  }

  function Items(cs: seq<Chunk>): (s: seq<bv8>)
    requires AllOctetSized(cs)
  {
    if cs == [] then [] else Items(cs[..|cs| - 1]) + ItemOctets(cs[|cs| - 1])
  }

  /** Everything fits its words, with five octets to spare for every chunk less four for the source. */
  lemma {:induction false} SizeCoversItems(cs: seq<Chunk>)
    requires AllOctetSized(cs)
    ensures |Items(cs)| + 5 * |cs| <= 4 * (TotalSize(cs) - BASE_SIZE)
    ensures TotalSize(cs) <= BASE_SIZE + 66 * |cs|
  {
    if cs != [] {
      SizeCoversItems(cs[..|cs| - 1]);
    }
  }

  /** With no more than eight octets for every chunk, and so for one chunk only one size will do. */
  lemma {:induction false} SizeIsTight(cs: seq<Chunk>)
    requires AllOctetSized(cs)
    ensures 4 * TotalSize(cs) <= 4 + |Items(cs)| + 8 * |cs|
  {
    if cs != [] {
      SizeIsTight(cs[..|cs| - 1]);
    }
  }

  /** Section 6.5 of RFC 3550 asks for a null octet after the last item: there is always one. */
  lemma RoomForNull(cs: seq<Chunk>)
    requires AllOctetSized(cs) && cs != []
    ensures 8 + |Items(cs)| + 1 <= 4 * TotalSize(cs)
  {
    SizeCoversItems(cs);
  }

  lemma {:induction false} FewTypes(types: seq<nat>, below: nat)
    requires DistinctTypes(types) && 1 <= below <= PRIV + 1
    requires forall i :: 0 <= i < |types| ==> types[i] < below
    ensures |types| <= below - 1
  {
    if types != [] {
      assert types[0] < below;
      if i :| 0 <= i < |types| && types[i] == below - 1 {
        var rest := types[..i] + types[i + 1..];
        FewTypes(rest, below - 1);
      } else {
        FewTypes(types, below - 1);
      }
    }
  }

  /** Chunks of distinct types never overflow the five bits of the count. */
  lemma DistinctTypesAreFew(types: seq<nat>)
    requires DistinctTypes(types)
    ensures |types| <= 8
  {
    FewTypes(types, PRIV + 1);
  }

  // ---------------------------------------------------------------- words

  ghost predicate Writable(d: Sdes) {
    d.version <= 3 && AllOctetSized(d.chunks) && 1 <= |d.chunks| < 32 && d.ssrcs != []
  }

  function HeadWords(d: Sdes): (ws: seq<bv32>)
    requires Writable(d)
    ensures |ws| == 2
  {
    SizeCoversItems(d.chunks);
    [PacketHead(d.version, Bit(d.padding) << 29, CountWord(|d.chunks|), PT, HalfWord(TotalSize(d.chunks) - 1)),
     d.ssrcs[0]]
  }

  /** The null octets after the items. */
  function Fill(cs: seq<Chunk>): seq<bv8>
    requires AllOctetSized(cs) && cs != []
  {
    SizeCoversItems(cs);
    Zeros(4 * (TotalSize(cs) - 2) - |Items(cs)|)
  }

  lemma FillSize(cs: seq<Chunk>)
    requires AllOctetSized(cs) && cs != []
    ensures |Items(cs)| + |Fill(cs)| == 4 * (TotalSize(cs) - 2) && Fill(cs) == Zeros(|Fill(cs)|)
  {
    hide Items, TotalSize;
    SizeCoversItems(cs);
  }

  /** The items with their fill, a whole number of words. */
  function Body(cs: seq<Chunk>): (s: seq<bv8>)
    requires AllOctetSized(cs) && cs != []
    ensures |s| % 4 == 0 && |s| / 4 == TotalSize(cs) - 2
  {
    FillSize(cs);
    Quarters(|Items(cs) + Fill(cs)|, TotalSize(cs) - 2);
    Items(cs) + Fill(cs)
  }

  lemma Quarters(n: nat, k: int)
    requires n == 4 * k
    ensures n % 4 == 0 && n / 4 == k
  {
  }

  function SdesWords(d: Sdes): (ws: seq<bv32>)
    requires Writable(d)
    ensures |ws| == TotalSize(d.chunks)
  {
    HeadWords(d) + Pack(Body(d.chunks))
  }

  // ---------------------------------------------------------------- reading

  /** Where the item after the first `n` starts. */
  function ItemsEnd(oct: seq<bv8>, pos: nat, n: nat): nat
    requires ItemsFit(oct, pos, n)
    decreases n, 1
  {
    if n == 0 then pos
    else
      var p := ItemsEnd(oct, pos, n - 1);
      p + 2 + OctetValue(oct[p + 1])
  }

  predicate ItemsFit(oct: seq<bv8>, pos: nat, n: nat)
    decreases n, 0
  {
    n == 0 || (
      && ItemsFit(oct, pos, n - 1)
      && var p := ItemsEnd(oct, pos, n - 1);
      p + 2 <= |oct| && p + 2 + OctetValue(oct[p + 1]) <= |oct|)
  }

  function ParseItems(oct: seq<bv8>, pos: nat, n: nat): (cs: seq<Chunk>)
    requires ItemsFit(oct, pos, n)
    ensures |cs| == n
  {
    if n == 0 then []
    else
      var p := ItemsEnd(oct, pos, n - 1);
      ParseItems(oct, pos, n - 1) + [Chunk(OctetValue(oct[p]), oct[p + 2..p + 2 + OctetValue(oct[p + 1])])]
  }

  /** The words that a packet with this head is read from. */
  predicate Fits(ws: seq<bv32>, at: nat) {
    at + 3 <= |ws| && ItemsFit(Octets(ws), 4 * (at + 2), CountValue(CountOf(ws[at])))
  }

  /** The source is read from the word after the one it was written to, and once too often. */
  function ParseSdes(ws: seq<bv32>, at: nat): Sdes
    requires Fits(ws, at)
  {
    var n := CountValue(CountOf(ws[at]));
    Sdes(VersionOf(ws[at]), PaddingOf(ws[at]), ParseItems(Octets(ws), 4 * (at + 2), n), Repeated(ws[at + 2], n + 1))
  }

  lemma ItemBack(c: Chunk, oct: seq<bv8>, p: nat)
    requires OctetSized(c) && HoldsOctets(oct, p, ItemOctets(c))
    ensures OctetValue(oct[p]) == c.ctype && OctetValue(oct[p + 1]) == |c.data|
    ensures oct[p + 2..p + 2 + |c.data|] == c.data
  {
    OctetRoundTrip(c.ctype);
    OctetRoundTrip(|c.data|);
    var mine := oct[p..p + |ItemOctets(c)|];
    assert oct[p] == mine[0] && oct[p + 1] == mine[1];
    HoldsOctetsSplit(oct, p, [OctetOf(c.ctype), OctetOf(|c.data|)], c.data);
  }

  lemma ItemsStart(oct: seq<bv8>, pos: nat)
    ensures ItemsFit(oct, pos, 0) && ItemsEnd(oct, pos, 0) == pos && ParseItems(oct, pos, 0) == []
  {
  }

  /** One more item. */
  lemma NextItem(oct: seq<bv8>, pos: nat, n: nat, c: Chunk)
    requires ItemsFit(oct, pos, n) && OctetSized(c) && HoldsOctets(oct, ItemsEnd(oct, pos, n), ItemOctets(c))
    ensures ItemsFit(oct, pos, n + 1)
    ensures ItemsEnd(oct, pos, n + 1) == ItemsEnd(oct, pos, n) + |ItemOctets(c)|
    ensures ParseItems(oct, pos, n + 1) == ParseItems(oct, pos, n) + [c]
  {
    hide OctetValue, OctetOf, OctetSized;
    ItemBack(c, oct, ItemsEnd(oct, pos, n));
  }

  lemma {:induction false} ItemsRoundTrip(cs: seq<Chunk>, oct: seq<bv8>, pos: nat)
    requires AllOctetSized(cs) && HoldsOctets(oct, pos, Items(cs))
    ensures ItemsFit(oct, pos, |cs|) && ItemsEnd(oct, pos, |cs|) == pos + |Items(cs)|
    ensures ParseItems(oct, pos, |cs|) == cs
  {
    hide ItemOctets, HoldsOctets, OctetSized, OctetValue, OctetOf, ItemsFit, ItemsEnd, ParseItems;
    if cs == [] {
      ItemsStart(oct, pos);
    } else {
      var n := |cs| - 1;
      HoldsOctetsSplit(oct, pos, Items(cs[..n]), ItemOctets(cs[n]));
      ItemsRoundTrip(cs[..n], oct, pos);
      NextItem(oct, pos, n, cs[n]);
      assert cs == cs[..n] + [cs[n]];
    }
  }

  lemma HeadRoundTrip(d: Sdes)
    requires Writable(d)
    ensures var head := SdesWords(d)[0];
            && TypeOf(head) == PT && VersionOf(head) == d.version
            && HalfValue(LengthOf(head)) + 1 == TotalSize(d.chunks)
            && CountValue(CountOf(head)) == |d.chunks|
            && (PaddingOf(head) <==> |d.chunks| >= 16)
  {
    hide PacketHead, CountWord, HalfWord, HalfValue, CountValue, CountOf, PaddingOf, TypeOf, VersionOf, LengthOf,
         Items, Fill, Pack;
    SizeCoversItems(d.chunks);
    PaddingAt29(d.padding);
    PacketHeadRoundTrip(d.version, Bit(d.padding) << 29, |d.chunks|, PT, TotalSize(d.chunks) - 1);
  }

  lemma BodyRoundTrip(cs: seq<Chunk>, fill: seq<bv8>, ws: seq<bv32>, at: nat)
    requires AllOctetSized(cs) && (|Items(cs)| + |fill|) % 4 == 0 && Holds(ws, at, Pack(Items(cs) + fill))
    ensures ItemsFit(Octets(ws), 4 * at, |cs|) && ParseItems(Octets(ws), 4 * at, |cs|) == cs
  {
    HoldsPacked(ws, at, Items(cs) + fill);
    HoldsOctetsSplit(Octets(ws), 4 * at, Items(cs), fill);
    ItemsRoundTrip(cs, Octets(ws), 4 * at);
  }

  /** A written description, found anywhere, is read back: every type, length and octet, and the size.
      Its padding is not, nor its source: the first octets of the first chunk are read for it. */
  lemma SdesRoundTrip(d: Sdes, ws: seq<bv32>, at: nat)
    requires Writable(d) && Holds(ws, at, SdesWords(d))
    ensures Fits(ws, at) && TypeOf(ws[at]) == PT && VersionOf(ws[at]) == d.version
    ensures HalfValue(LengthOf(ws[at])) + 1 == TotalSize(d.chunks)
    ensures |SdesWords(d)| >= 3
    ensures ParseSdes(ws, at) ==
            Sdes(d.version, |d.chunks| >= 16, d.chunks, Repeated(SdesWords(d)[2], |d.chunks| + 1))
  {
    HeadRoundTrip(d);
    PartsOf(d, ws, at);
    BodyRoundTrip(d.chunks, Fill(d.chunks), ws, at + 2);
  }

  lemma PartsOf(d: Sdes, ws: seq<bv32>, at: nat)
    requires Writable(d) && Holds(ws, at, SdesWords(d))
    ensures at + 3 <= |ws| && |SdesWords(d)| >= 3 && |Fill(d.chunks)| + |Items(d.chunks)| ==
        4 * (TotalSize(d.chunks) - 2)
    ensures ws[at] == SdesWords(d)[0] && ws[at + 2] == SdesWords(d)[2]
    ensures Holds(ws, at + 2, Pack(Items(d.chunks) + Fill(d.chunks)))
  {
    SizeCoversItems(d.chunks);
    HoldsAt(ws, at, SdesWords(d), 0);
    HoldsAt(ws, at, SdesWords(d), 2);
    HoldsSplit(ws, at, HeadWords(d), Pack(Items(d.chunks) + Fill(d.chunks)));
  }

  lemma PaddingAt29(p: bool)
    ensures (Bit(p) << 29) & !0x30000000 == 0 && (Bit(p) << 29) & 0x10000000 == 0
  {
  }

  // ---------------------------------------------------------------- the program's object

  ghost predicate Parallel(types: seq<nat>, lengths: seq<nat>, strings: seq<seq<bv8>>) {
    && |types| == |lengths| == |strings|
    && forall i :: 0 <= i < |types| ==> types[i] <= 255 && lengths[i] <= 255 && lengths[i] <= |strings[i]|
  }

  ghost function ChunksOf(types: seq<nat>, lengths: seq<nat>, strings: seq<seq<bv8>>): (cs: seq<Chunk>)
    requires Parallel(types, lengths, strings)
    ensures |cs| == |types| && AllOctetSized(cs)
    ensures forall i :: 0 <= i < |cs| ==> cs[i] == Chunk(types[i], strings[i][..lengths[i]])
  {
    seq(|types|, i requires 0 <= i < |types| && Parallel(types, lengths, strings) =>
      Chunk(types[i], strings[i][..lengths[i]]))
  }

  lemma ChunksAppend(types: seq<nat>, lengths: seq<nat>, strings: seq<seq<bv8>>, t: nat, n: nat, text: seq<bv8>)
    requires Parallel(types, lengths, strings) && t <= 255 && n <= 255 && n <= |text|
    ensures Parallel(types + [t], lengths + [n], strings + [text])
    ensures ChunksOf(types + [t], lengths + [n], strings + [text]) ==
            ChunksOf(types, lengths, strings) + [Chunk(t, text[..n])]
  {
  }

  lemma ItemsGrow(cs: seq<Chunk>, i: nat)
    requires AllOctetSized(cs) && i < |cs|
    ensures Items(cs[..i + 1]) == Items(cs[..i]) + ItemOctets(cs[i])
    ensures |Items(cs[..i + 1])| <= |Items(cs)|
  {
    assert cs[..i + 1][..i] == cs[..i];
    ItemsPrefix(cs, i + 1);
  }

  lemma ItemsNone(cs: seq<Chunk>)
    requires AllOctetSized(cs)
    ensures Items(cs[..0]) == []
  {
  }

  lemma {:induction false} ItemsPrefix(cs: seq<Chunk>, i: nat)
    requires AllOctetSized(cs) && i <= |cs|
    ensures |Items(cs[..i])| <= |Items(cs)|
  {
    if i == |cs| {
      assert cs[..i] == cs;
    } else {
      assert cs[..|cs| - 1][..i] == cs[..i];
      ItemsPrefix(cs[..|cs| - 1], i);
    }
  }

  lemma {:induction false} ItemsStep(oct: seq<bv8>, pos: nat, i: nat)
    requires ItemsFit(oct, pos, i + 1)
    ensures ItemsFit(oct, pos, i)
    ensures var p := ItemsEnd(oct, pos, i);
            && p + 2 <= |oct|
            && var next := p + 2 + OctetValue(oct[p + 1]);
            && next <= |oct| && ItemsEnd(oct, pos, i + 1) == next
            && ParseItems(oct, pos, i + 1) == ParseItems(oct, pos, i) + [Chunk(OctetValue(oct[p]), oct[p + 2..next])]
  {
    hide OctetValue;
  }

  lemma {:induction false} ItemsFitBelow(oct: seq<bv8>, pos: nat, n: nat, i: nat)
    requires ItemsFit(oct, pos, n) && i <= n
    ensures ItemsFit(oct, pos, i)
  {
    if i < n {
      ItemsFitBelow(oct, pos, n - 1, i);
    }
  }

  lemma WordsApart(d: Sdes, rest: seq<bv32>)
    requires Writable(d)
    ensures |Items(d.chunks) + Fill(d.chunks)| % 4 == 0
    ensures SdesWords(d) + rest == HeadWords(d) + (Pack(Items(d.chunks) + Fill(d.chunks)) + rest)
  {
    hide HeadWords, Items, Pack, Fill, TotalSize;
    FillSize(d.chunks);
    Quarters(|Items(d.chunks) + Fill(d.chunks)|, TotalSize(d.chunks) - 2);
  }

  /** The words that result when the items overwrite cleared words. */
  lemma WrittenWords(was: seq<bv32>, at: nat, len: nat, d: Sdes, end: seq<bv32>)
    requires Writable(d) && at + len <= |was| && TotalSize(d.chunks) <= len
    requires 2 <= len && 4 * (at + 2) + |Items(d.chunks)| <= 4 * |was|
    requires Octets(end) ==
             Overwritten(Octets(Stored(Stored(was, at, ZeroWords(len)), at, HeadWords(d))), 4 * (at + 2),
                         Items(d.chunks))
    ensures end == Stored(was, at, SdesWords(d) + ZeroWords(len - TotalSize(d.chunks)))
  {
    hide HeadWords, Items, Pack, Octets, Overwritten, ZeroWords, Stored, Fill, TotalSize, SdesWords;
    SizeCoversItems(d.chunks);
    var head, items, fill := HeadWords(d), Items(d.chunks), Fill(d.chunks);
    var rest := ZeroWords(len - TotalSize(d.chunks));
    FillSize(d.chunks);
    StoredOnCleared(was, at, len, head);
    StoredOverZeros(was[..at] + head, len - 2, was[at + len..], items, |fill|, end);
    Quarters(|items| + |fill|, TotalSize(d.chunks) - 2);
    StoredJoin(was, at, head, Pack(items + fill) + rest);
    WordsApart(d, rest);
  }

  class SourceDescription {
    var version: bv32
    var padding: bool
    var types: seq<nat>
    var ssrcs: seq<bv32>
    var lengths: seq<nat>
    var strings: seq<seq<bv8>>

    /** The parallel vectors agree; a string may be followed by a terminator. */
    ghost predicate Valid()
      reads this
    {
      Parallel(types, lengths, strings) && |types| <= |ssrcs|
    }

    ghost function Chunks(): (cs: seq<Chunk>)
      requires Valid()
      reads this
      ensures |cs| == |types| && AllOctetSized(cs)
    {
      ChunksOf(types, lengths, strings)
    }

    ghost function View(): Sdes
      requires Valid()
      reads this
    {
      Sdes(version, padding, Chunks(), ssrcs)
    }

    constructor (version: bv32 := 2)
      ensures Valid() && View() == Sdes(2, false, [], [])
    {
      this.version := 2;  // clear() runs after the parameter is stored
      padding := false;
      types, ssrcs, lengths, strings := [], [], [], [];
    }

    /** Refuses a type already present; keeps at most 255 octets. */
    method AddChunk(ctype: nat, ssrc: bv32, data: seq<bv8>) returns (ok: bool)
      requires Valid() && CNAME <= ctype <= PRIV
      modifies this
      ensures Valid() && version == old(version) && padding == old(padding)
      ensures ok <==> ctype !in old(types)
      ensures !ok ==> View() == old(View())
      ensures ok ==> types == old(types) + [ctype] && ssrcs == old(ssrcs) + [ssrc]
      ensures ok ==> Chunks() == old(Chunks()) + [Chunk(ctype, if |data| > 255 then data[..255] else data)]
      ensures old(DistinctTypes(types)) ==> DistinctTypes(types)
    {
      var i := 0;
      while i < |types|
        invariant 0 <= i <= |types|
        invariant ctype !in types[..i]
      {
        if ctype == types[i] {
          return false;
        }
        i := i + 1;
      }
      var len := if |data| > 255 then 255 else |data|;
      ChunksAppend(types, lengths, strings, ctype, len, data[..len]);
      types := types + [ctype];
      ssrcs := ssrcs + [ssrc];
      lengths := lengths + [len];
      strings := strings + [data[..len]];
      assert strings[|strings| - 1][..len] == if |data| > 255 then data[..255] else data;
      ok := true;
    }

    /** Copies the octets of chunk `n`, as far as `maxlen` allows. */
    method ChunkData(n: nat, maxlen: nat) returns (data: seq<bv8>)
      requires Valid() && n < |types|
      ensures data == if lengths[n] < maxlen then Chunks()[n].data else Chunks()[n].data[..maxlen]
    {
      var len := maxlen;
      if lengths[n] < len {
        len := lengths[n];
      }
      data := strings[n][..len];
    }

    method GetTotalSize() returns (total: nat)
      requires Valid()
      ensures total == TotalSize(Chunks())
    {
      total := 0;
      var i := 0;
      while i < |lengths|
        invariant 0 <= i <= |lengths|
        invariant total + BASE_SIZE == TotalSize(Chunks()[..i])
      {
        total := total + 2 + (2 + lengths[i]) / 4;
        assert Chunks()[..i + 1][..i] == Chunks()[..i];
        i := i + 1;
      }
      assert Chunks()[..i] == Chunks();
      total := total + BASE_SIZE;
    }

    /** Stores chunk `i` octet by octet, from octet `k` of the buffer. */
    method WriteItem(data: array<bv32>, k: nat, i: nat)
      requires Valid() && i < |types| && k + |ItemOctets(Chunks()[i])| <= 4 * data.Length
      modifies data
      ensures Octets(data[..]) == Overwritten(old(Octets(data[..])), k, ItemOctets(Chunks()[i]))
    {
      hide Octets, Overwritten, OctetOf;
      PutOctets(data, k, [OctetOf(types[i]), OctetOf(lengths[i])]);
      PutOctets(data, k + 2, strings[i][..lengths[i]]);
      OverwrittenTwice(old(Octets(data[..])), k, [OctetOf(types[i]), OctetOf(lengths[i])], strings[i][..lengths[i]]);
    }

    /** Stores the items one after the other. */
    method WriteItems(data: array<bv32>, k: nat)
      requires Valid() && k + |Items(Chunks())| <= 4 * data.Length
      modifies data
      ensures Octets(data[..]) == Overwritten(old(Octets(data[..])), k, Items(Chunks()))
    {
      hide Octets, Overwritten, Items, ItemOctets, ChunksOf;
      ghost var was, cs := Octets(data[..]), Chunks();
      OverwriteNothing(was, k);
      ItemsNone(cs);
      var cursor := k;
      var i := 0;
      while i < |types|
        invariant 0 <= i <= |types|
        invariant |Items(cs[..i])| <= |Items(cs)| && cursor == k + |Items(cs[..i])|
        invariant Octets(data[..]) == Overwritten(was, k, Items(cs[..i]))
      {
        ItemsGrow(cs, i);
        WriteItem(data, cursor, i);
        OverwrittenTwice(was, k, Items(cs[..i]), ItemOctets(cs[i]));
        cursor := cursor + 2 + lengths[i];
        i := i + 1;
      }
      assert cs[..|types|] == cs;
    }

    method WriteCleared(data: array<bv32>, at: nat, len: nat, total: nat)
      requires Valid() && Writable(View()) && at + len <= data.Length && 2 <= len && total == TotalSize(Chunks())
      modifies data
      ensures data[..] == Stored(Stored(old(data[..]), at, ZeroWords(len)), at, HeadWords(View()))
    {
      hide PacketHead, CountWord, HalfWord, Bit, Items, TotalSize, ChunksOf, ZeroWords, Stored;
      SizeCoversItems(Chunks());
      PutWords(data, at, ZeroWords(len));
      PutWords(data, at, [
        PacketHead(version, Bit(padding) << 29, CountWord(|types|), PT, HalfWord(total - 1)), ssrcs[0]]);
    }

    /** Clears `len` words from `at` and writes the packet into them, or does nothing if it needs more. */
    method WriteBlock(data: array<bv32>, at: nat, len: nat) returns (n: nat)
      requires Valid() && Writable(View()) && at + len <= data.Length
      modifies data
      ensures n == if len < TotalSize(Chunks()) then 0 else TotalSize(Chunks())
      ensures data[..] == if n == 0 then old(data[..])
                          else Stored(old(data[..]), at, SdesWords(View()) + ZeroWords(len - n))
    {
      hide HeadWords, Items, Octets, Overwritten, ChunksOf, TotalSize, Stored, SdesWords, ZeroWords;
      var total := GetTotalSize();
      if len < total {
        SizeCoversItems(Chunks());
        return 0;
      }
      ghost var was, d := data[..], View();
      SizeCoversItems(d.chunks);
      WriteCleared(data, at, len, total);
      WriteItems(data, 4 * (at + 2));
      WrittenWords(was, at, len, d, data[..]);
      n := total;
    }

    /** The size the program takes the packet for; its source is pushed once before the chunks. */
    method ReadBlock(data: array<bv32>, at: nat) returns (n: nat)
      requires Fits(data[..], at)
      modifies this
      ensures Valid()
      ensures TypeOf(data[at]) != PT ==> n == 0 && View() == Sdes(2, false, [], [])
      ensures TypeOf(data[at]) == PT ==> View() == ParseSdes(data[..], at) && n == TotalSize(Chunks())
    {
      hide HalfValue, CountValue, CountOf, PaddingOf, TypeOf, VersionOf, Octets, ParseItems, ItemsEnd, ItemsFit,
           ChunksOf, TotalSize;
      version, padding := 2, false;
      types, ssrcs, lengths, strings := [], [], [], [];
      if TypeOf(data[at]) != PT {
        return 0;
      }
      version := VersionOf(data[at]);
      padding := PaddingOf(data[at]);
      var count := CountValue(CountOf(data[at]));
      ssrcs := [data[at + 2]];
      ReadItems(data, at, count);
      n := GetTotalSize();
    }

    /** Reads the chunk whose octets start at `cursor`. */
    method ReadItem(data: array<bv32>, cursor: nat, ssrc: bv32) returns (next: nat)
      requires Valid() && cursor + 2 <= 4 * data.Length
      requires cursor + 2 + OctetValue(Octets(data[..])[cursor + 1]) <= 4 * data.Length
      modifies this`types, this`lengths, this`strings, this`ssrcs
      ensures next == cursor + 2 + OctetValue(Octets(data[..])[cursor + 1])
      ensures ssrcs == old(ssrcs) + [ssrc]
      ensures Valid()
      ensures Chunks() == old(Chunks()) + [Chunk(OctetValue(Octets(data[..])[cursor]), Octets(data[..])[cursor
          + 2..next])]
    {
      hide OctetValue, Octets, Octet, ChunksOf;
      var ctype := OctetValue(OctetAt(data, cursor));
      var len := OctetValue(OctetAt(data, cursor + 1));
      var text := ReadText(data, cursor + 2, len);
      ChunksAppend(types, lengths, strings, ctype, len, text + [0]);
      assert (text + [0])[..len] == text;
      ssrcs := ssrcs + [ssrc];
      types := types + [ctype];
      strings := strings + [text + [0]];
      lengths := lengths + [len];
      next := cursor + 2 + len;
    }

    method ReadItems(data: array<bv32>, at: nat, count: nat)
      requires at + 3 <= data.Length && ItemsFit(Octets(data[..]), 4 * (at + 2), count)
      requires types == [] && lengths == [] && strings == [] && ssrcs == [data[at + 2]]
      modifies this`types, this`lengths, this`strings, this`ssrcs
      ensures Valid()
      ensures Chunks() == ParseItems(Octets(data[..]), 4 * (at + 2), count)
      ensures ssrcs == Repeated(data[at + 2], count + 1)
    {
      hide OctetValue, ChunksOf, Octets, Octet, ItemsFit, ItemsEnd, ParseItems;
      ghost var oct, pos := Octets(data[..]), 4 * (at + 2);
      var cursor := 4 * (at + 2);
      var i := 0;
      ItemsStart(oct, pos);
      while i < count
        invariant 0 <= i <= count && ItemsFit(oct, pos, i) && cursor == ItemsEnd(oct, pos, i)
        invariant Valid() && Chunks() == ParseItems(oct, pos, i)
        invariant ssrcs == Repeated(data[at + 2], i + 1)
      {
        ItemsFitBelow(oct, pos, count, i + 1);
        ItemsStep(oct, pos, i);
        cursor := ReadItem(data, cursor, data[at + 2]);
        i := i + 1;
      }
    }

    static method ReadText(data: array<bv32>, from: nat, len: nat) returns (text: seq<bv8>)
      requires from + len <= 4 * data.Length
      ensures text == Octets(data[..])[from..from + len]
    {
      hide Octets, Octet;
      text := [];
      var i := 0;
      while i < len
        invariant 0 <= i <= len && text == Octets(data[..])[from..from + i]
      {
        text := text + [OctetAt(data, from + i)];
        i := i + 1;
      }
    }

    static function OctetAt(data: array<bv32>, k: nat): (b: bv8)
      requires k < 4 * data.Length
      reads data
      ensures b == Octets(data[..])[k]
    {
      Octet(data[k / 4], k % 4)
    }
  }
}
