/**
 * How two clients come to agree on a call: the CA line of lib/controlconnect.cpp, the two ME lines that
 * netsipd/netsipd.cpp makes of it, and what MediaStart reads in them.
 */
module Negotiation {
  import opened Words
  import opened Text
  import opened Audio

  // ---------------------------------------------------------------- addresses

  datatype Addr = Addr(a: octet, b: octet, c: octet, d: octet)

  const NULL_ADDR: Addr := Addr(0, 0, 0, 0)

  function Dotted(x: Addr): string {
    Joined([Decimal(x.a), Decimal(x.b), Decimal(x.c), Decimal(x.d)], '.')
  }

  predicate IsOctet(s: string) {
    ParseUInt(s).Some? && ParseUInt(s).value < 256
  }

  /** Null when the text is not four octets. */
  function ParseAddr(s: string): Addr {
    var parts := Split(s, '.');
    if |parts| == 4 && IsOctet(parts[0]) && IsOctet(parts[1]) && IsOctet(parts[2]) && IsOctet(parts[3]) then
      Addr(ToUInt(parts[0]), ToUInt(parts[1]), ToUInt(parts[2]), ToUInt(parts[3]))
    else NULL_ADDR
  }

  lemma DottedRoundTrip(x: Addr)
    ensures ParseAddr(Dotted(x)) == x && Word(Dotted(x))
  {
    hide Decimal, Joined, Split, ParseUInt, ToUInt;
    var parts := [Decimal(x.a), Decimal(x.b), Decimal(x.c), Decimal(x.d)];
    DecimalRoundTrip(x.a);
    DecimalRoundTrip(x.b);
    DecimalRoundTrip(x.c);
    DecimalRoundTrip(x.d);
    SplitJoined(parts, '.');
    JoinedWord(parts, '.');
    ToUIntParsed(parts[0]);
    ToUIntParsed(parts[1]);
    ToUIntParsed(parts[2]);
    ToUIntParsed(parts[3]);
  }

  lemma ToUIntParsed(s: string)
    ensures ParseUInt(s).Some? ==> ToUInt(s) == ParseUInt(s).value
  {
    hide ParseUInt;
  }

  lemma {:induction false} JoinedWord(ws: seq<string>, sep: char)
    requires AllWords(ws) && ws != [] && !IsSpace(sep) && sep != '!'
    ensures Word(Joined(ws, sep))
  {
    if |ws| > 1 {
      JoinedWord(ws[1..], sep);
    }
  }

  // ---------------------------------------------------------------- the lines

  function ChannelWords(c: Channel, rate: uint32): (ws: seq<string>)
    ensures |ws| == 6
  {
    [Decimal(c.format), Decimal(rate), Decimal(c.channels), Decimal(c.bitRate), Decimal(if c.processor then 1 else 0),
     Decimal(c.ratio)]
  }

  /** What the caller sends: both directions as the accessors give them, the one sample rate twice. */
  function CallWords(callee: string, s: Settings): (ws: seq<string>)
    ensures |ws| == 14
  {
    ["CA", callee] + ChannelWords(s.Get(Transmit), s.rate) + ChannelWords(s.Get(Receive), s.rate)
  }

  /** The number in word `i`, printed again. */
  function Again(cmd: seq<string>, i: nat): string
    requires i < |cmd|
  {
    Decimal(ToUInt(cmd[i]))
  }

  /** ME to the caller, who transmits what it asked for; the last number is printed signed. */
  function ToCaller(callee: string, src: uint16, addr: Addr, dest: uint16, cmd: seq<string>): (ws: seq<string>)
    requires |cmd| == 14
    ensures |ws| == 15
  {
    ["ME", callee, Decimal(src), Dotted(addr), Decimal(dest),
     Again(cmd, 2), Again(cmd, 3), Again(cmd, 4), Again(cmd, 5), Again(cmd, 6), Again(cmd, 7),
     Again(cmd, 8), Again(cmd, 9), Again(cmd, 10), Signed(ToUInt(cmd[11]))]
  }

  /** ME to the callee, who transmits what the caller wants to receive. */
  function ToCallee(caller: string, src: uint16, addr: Addr, dest: uint16, cmd: seq<string>): (ws: seq<string>)
    requires |cmd| == 14
    ensures |ws| == 15
  {
    ["ME", caller, Decimal(src), Dotted(addr), Decimal(dest),
     Again(cmd, 8), Again(cmd, 9), Again(cmd, 10), Again(cmd, 11), Again(cmd, 12), Again(cmd, 13),
     Again(cmd, 2), Again(cmd, 3), Again(cmd, 4), Again(cmd, 5)]
  }

  datatype Start = Ignored | Unsupported | Started(src: uint16, addr: Addr, dest: uint16, settings: Settings)

  /** What a client makes of an ME command; `layer3` says whether it was built to decode MPEG. */
  function MediaStart(cmd: seq<string>, layer3: bool): Start {
    if |cmd| != 15 || ParseAddr(cmd[3]) == NULL_ADDR || ToInt(cmd[2]).None? || ToInt(cmd[4]).None? then Ignored
    else
      var settings := Settings(
        Channel(ToUInt(cmd[5]), ToUInt(cmd[7]), ToUInt(cmd[8]), ToUInt(cmd[9]) != 0, ToUInt(cmd[10])),
        CLEARED.(format := ToUInt(cmd[11]), channels := ToUInt(cmd[13]), bitRate := ToUInt(cmd[14])),
        ToUInt(cmd[6]), cmd[1]);
      if !layer3 && settings.Get(Receive).format == LAYER3 then Unsupported
      else Started(Wrap16(ToInt(cmd[2]).value), ParseAddr(cmd[3]), Wrap16(ToInt(cmd[4]).value), settings)
  }

  lemma NumberRead(n: uint32)
    ensures Word(Decimal(n)) && ToUInt(Decimal(n)) == n
  {
    hide Decimal, ToUInt;
    DecimalRoundTrip(n);
  }

  lemma ChannelRead(c: Channel, rate: uint32)
    ensures var ws := ChannelWords(c, rate);
            && AllWords(ws)
            && ToUInt(ws[0]) == c.format && ToUInt(ws[1]) == rate && ToUInt(ws[2]) == c.channels
            && ToUInt(ws[3]) == c.bitRate && (ToUInt(ws[4]) != 0 <==> c.processor) && ToUInt(ws[5]) == c.ratio
            && ToUInt(ws[4]) < 2
  {
    hide Decimal, ToUInt, Word;
    NumberRead(c.format);
    NumberRead(rate);
    NumberRead(c.channels);
    NumberRead(c.bitRate);
    NumberRead(if c.processor then 1 else 0);
    NumberRead(c.ratio);
  }

  /** The caller's line is split at the server into its fourteen words. */
  lemma CallLineSplits(callee: string, s: Settings)
    requires Word(callee)
    ensures var line := Spaced(CallWords(callee, s));
            '!' !in line && Split(Strip(line), ' ') == CallWords(callee, s)
  {
    hide Decimal, Joined, ChannelWords;
    var ws := CallWords(callee, s);
    ChannelRead(s.Get(Transmit), s.rate);
    ChannelRead(s.Get(Receive), s.rate);
    assert Word("CA");
    assert AllWords(ws);
    SpacedEnds(ws);
    SplitSpaced(ws);
  }

  lemma AgainReads(cmd: seq<string>, i: nat)
    requires i < |cmd|
    ensures Word(Again(cmd, i)) && ToUInt(Again(cmd, i)) == ToUInt(cmd[i])
  {
    DecimalRoundTrip(ToUInt(cmd[i]));
  }

  lemma SignedWord(n: uint32)
    ensures Word(Signed(n))
  {
  }

  /** The caller's line survives the trip to the caller. */
  lemma CallerReads(callee: string, src: uint16, addr: Addr, dest: uint16, cmd: seq<string>)
    requires |cmd| == 14 && Word(callee) && addr != NULL_ADDR
    ensures var ws := ToCaller(callee, src, addr, dest, cmd);
            && '!' !in Spaced(ws)
            && MediaStart(Split(Spaced(ws), ' '), true) == Started(src, addr, dest, Settings(
                 Channel(ToUInt(cmd[2]), ToUInt(cmd[4]), ToUInt(cmd[5]), ToUInt(cmd[6]) != 0, ToUInt(cmd[7])),
                 CLEARED.(format := ToUInt(cmd[8]), channels := ToUInt(cmd[10]),
                          bitRate := if ToUInt(cmd[11]) < 0x8000_0000 then ToUInt(cmd[11]) else 0),
                 ToUInt(cmd[3]), callee))
  {
    hide Decimal, Joined, Again, ToUInt, ToInt, Signed, Dotted, ParseAddr, Split, Spaced;
    var ws := ToCaller(callee, src, addr, dest, cmd);
    assert Word("ME");
    DottedRoundTrip(addr);
    DecimalRoundTrip(src);
    DecimalRoundTrip(dest);
    SignedReads(ToUInt(cmd[11]));
    SignedWord(ToUInt(cmd[11]));
    forall i: nat | 2 <= i < 11
      ensures Word(Again(cmd, i)) && ToUInt(Again(cmd, i)) == ToUInt(cmd[i])
    {
      AgainReads(cmd, i);
    }
    assert AllWords(ws);
    SplitSpaced(ws);
    SpacedEnds(ws);
  }

  /** And the trip to the callee, with the directions exchanged. */
  lemma CalleeReads(caller: string, src: uint16, addr: Addr, dest: uint16, cmd: seq<string>)
    requires |cmd| == 14 && Word(caller) && addr != NULL_ADDR
    ensures var ws := ToCallee(caller, src, addr, dest, cmd);
            && '!' !in Spaced(ws)
            && MediaStart(Split(Spaced(ws), ' '), true) == Started(src, addr, dest, Settings(
                 Channel(ToUInt(cmd[8]), ToUInt(cmd[10]), ToUInt(cmd[11]), ToUInt(cmd[12]) != 0, ToUInt(cmd[13])),
                 CLEARED.(format := ToUInt(cmd[2]), channels := ToUInt(cmd[4]), bitRate := ToUInt(cmd[5])),
                 ToUInt(cmd[9]), caller))
  {
    hide Decimal, Joined, Again, ToUInt, ToInt, Dotted, ParseAddr, Split, Spaced;
    var ws := ToCallee(caller, src, addr, dest, cmd);
    assert Word("ME");
    DottedRoundTrip(addr);
    DecimalRoundTrip(src);
    DecimalRoundTrip(dest);
    forall i: nat | 2 <= i < 14
      ensures Word(Again(cmd, i)) && ToUInt(Again(cmd, i)) == ToUInt(cmd[i])
    {
      AgainReads(cmd, i);
    }
    assert AllWords(ws);
    SplitSpaced(ws);
    SpacedEnds(ws);
  }

  // ---------------------------------------------------------------- agreement

  ghost predicate SameSound(a: Channel, b: Channel) {
    a.format == b.format && a.channels == b.channels && a.bitRate == b.bitRate
  }

  /** The words that the server makes of a caller's line. */
  function Heard(callee: string, s: Settings): seq<string> {
    Split(Strip(Spaced(CallWords(callee, s))), ' ')
  }

  lemma HeardReads(callee: string, s: Settings)
    requires Word(callee)
    ensures var cmd, out, back := Heard(callee, s), s.Get(Transmit), s.Get(Receive);
            && |cmd| == 14 && cmd[1] == callee
            && ToUInt(cmd[2]) == out.format && ToUInt(cmd[3]) == s.rate && ToUInt(cmd[4]) == out.channels
            && ToUInt(cmd[5]) == out.bitRate && (ToUInt(cmd[6]) != 0 <==> out.processor) && ToUInt(cmd[7]) == out.ratio
            && ToUInt(cmd[8]) == back.format && ToUInt(cmd[9]) == s.rate && ToUInt(cmd[10]) == back.channels
            && ToUInt(cmd[11]) == back.bitRate && (ToUInt(cmd[12]) != 0 <==> back.processor)
            && ToUInt(cmd[13]) == back.ratio
  {
    hide ChannelWords, ToUInt, Split, Strip, Joined;
    CallLineSplits(callee, s);
    ChannelRead(s.Get(Transmit), s.rate);
    ChannelRead(s.Get(Receive), s.rate);
  }

  /** Both clients start the same call: each transmits what the other expects to receive, at one sample
      rate, with ports and addresses crossed. Only what the caller is told of its own receiving bit rate
      may differ, and does so exactly from 2^31 up. */
  lemma Agreement(caller: string, callee: string, s: Settings, p: uint16, a: Addr, q: uint16, b: Addr)
    requires Word(caller) && Word(callee) && a != NULL_ADDR && b != NULL_ADDR
    ensures var cmd := Heard(callee, s);
            && |cmd| == 14
            && var here, there := MediaStart(Split(Spaced(ToCaller(callee, p, b, q, cmd)), ' '), true),
                                  MediaStart(Split(Spaced(ToCallee(caller, q, a, p, cmd)), ' '), true);
            && here.Started? && there.Started?
            && here.src == there.dest == p && here.dest == there.src == q && here.addr == b && there.addr == a
            && here.settings.rate == there.settings.rate == s.rate
            && here.settings.username == callee && there.settings.username == caller
            && here.settings.transmit == s.Get(Transmit) && there.settings.transmit == s.Get(Receive)
            && SameSound(here.settings.transmit, there.settings.receive)
            && here.settings.receive.format == there.settings.transmit.format
            && here.settings.receive.channels == there.settings.transmit.channels
            && (here.settings.receive.bitRate == there.settings.transmit.bitRate <==>
                s.Get(Receive).bitRate < 0x8000_0000)
            && (s.receive.format == NO_FORMAT ==> there.settings.transmit == here.settings.transmit == s.transmit)
  {
    hide ToUInt, Split, Strip, Joined, MediaStart, ToCaller, ToCallee, Heard;
    var cmd := Heard(callee, s);
    HeardReads(callee, s);
    CallerReads(callee, p, b, q, cmd);
    CalleeReads(caller, q, a, p, cmd);
  }

  /** Asked through the accessors, the callee receives what the caller transmits exactly when the caller
      transmits something, or both directions are alike. */
  lemma AccessorsAgree(s: Settings, there: Settings)
    requires there.transmit == s.Get(Receive) && SameSound(there.receive, s.Get(Transmit))
    ensures SameSound(there.Get(Receive), s.Get(Transmit)) <==>
            s.Get(Transmit).format != NO_FORMAT || SameSound(s.Get(Receive), s.Get(Transmit))
  {
  }

  /** An ME line is ignored exactly when it has not fifteen words, its address does not read, or a port is no number. */
  lemma IgnoresExactly(cmd: seq<string>, layer3: bool)
    ensures MediaStart(cmd, layer3).Ignored? <==>
            |cmd| != 15 || ParseAddr(cmd[3]) == Addr(0, 0, 0, 0) || ToInt(cmd[2]).None? || ToInt(cmd[4]).None?
  {
    hide ToUInt, ToInt, ParseAddr;
  }

  /** What an ME line does not say of the receiving side stays as it was cleared: no processor, packets sent once. */
  lemma ReceiveSideCleared(cmd: seq<string>, layer3: bool)
    ensures var start := MediaStart(cmd, layer3);
            start.Started? ==> !start.settings.receive.processor && start.settings.receive.ratio == 1
  {
    hide ToUInt, ToInt, ParseAddr;
  }

  /** A client without MPEG refuses exactly the calls it would receive as MPEG. */
  lemma RefusesLayer3(cmd: seq<string>)
    ensures MediaStart(cmd, false) ==
            match MediaStart(cmd, true)
            case Started(_, _, _, settings) => if settings.Get(Receive).format ==
                LAYER3 then Unsupported else MediaStart(cmd, true)
            case _ => MediaStart(cmd, true)
  {
    hide ToUInt, ToInt, ParseAddr;
  }

  /** The client's own MediaStart, which fills in a settings object field by field. */
  method StartMedia(cmd: seq<string>, layer3: bool) returns (start: Start)
    ensures start == MediaStart(cmd, layer3)
  {
    hide ToUInt, ToInt, ParseAddr;
    if |cmd| != 15 {
      return Ignored;
    }
    var addr := ParseAddr(cmd[3]);
    if addr == NULL_ADDR {
      return Ignored;
    }
    var src, dest := ToInt(cmd[2]), ToInt(cmd[4]);
    if src.None? || dest.None? {
      return Ignored;
    }
    var settings := new AudioSettings();
    settings.username := cmd[1];
    settings.SetFormat(Transmit, ToUInt(cmd[5]));
    settings.sampleRate := ToUInt(cmd[6]);
    settings.SetChannels(Transmit, ToUInt(cmd[7]));
    settings.SetBitRate(Transmit, ToUInt(cmd[8]));
    settings.SetEnableProcessor(Transmit, ToUInt(cmd[9]) != 0);
    settings.SetStreamRatio(Transmit, ToUInt(cmd[10]));
    settings.SetFormat(Receive, ToUInt(cmd[11]));
    settings.SetChannels(Receive, ToUInt(cmd[13]));
    settings.SetBitRate(Receive, ToUInt(cmd[14]));
    var receive := settings.Get(Receive, true);
    if !layer3 && receive.format == LAYER3 {
      return Unsupported;
    }
    start := Started(Wrap16(src.value), addr, Wrap16(dest.value), settings.View());
  }
}
