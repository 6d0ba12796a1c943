/** lib/netconf.cpp: base64 of byte strings, section 3 of RFC 3548. */
module Base64 {
  import opened Options
  import opened Words

  // ---------------------------------------------------------------- the alphabet

  function Letter(k: nat): char
    requires k < 64
  {
    if k < 26 then 'A' + k as char
    else if k < 52 then 'a' + (k - 26) as char
    else if k < 62 then '0' + (k - 52) as char
    else if k == 62 then '+' else '/'
  }

  predicate InAlphabet(c: char) {
    'A' <= c <= 'Z' || 'a' <= c <= 'z' || '0' <= c <= '9' || c == '+' || c == '/'
  }

  function Number(c: char): (k: nat)
    requires InAlphabet(c)
    ensures k < 64
  {
    if 'A' <= c <= 'Z' then c as int - 'A' as int
    else if 'a' <= c <= 'z' then 26 + (c as int - 'a' as int)
    else if '0' <= c <= '9' then 52 + (c as int - '0' as int)
    else if c == '+' then 62 else 63
  }

  /** The alphabet of the standard: capitals, small letters, digits, plus and slash, each run in order. */
  lemma AlphabetInOrder(k: nat)
    requires k < 63
    ensures Letter(0) == 'A' && Letter(26) == 'a' && Letter(52) == '0' && Letter(62) == '+' && Letter(63) == '/'
    ensures k !in {25, 51, 61, 62} ==> Letter(k + 1) as int == Letter(k) as int + 1
  {
  }

  lemma LetterNumber(k: nat)
    requires k < 64
    ensures InAlphabet(Letter(k)) && Number(Letter(k)) == k && Letter(k) != '='
  {
  }

  lemma NumberLetter(c: char)
    requires InAlphabet(c)
    ensures Letter(Number(c)) == c
  {
  }

  /** The number of a letter, by going through the alphabet. */
  method Find(c: char) returns (k: nat, found: bool)
    ensures found <==> InAlphabet(c)
    ensures k < 64 && (found ==> k == Number(c))
  {
    hide Letter, Number, InAlphabet;
    k, found := 0, false;
    if InAlphabet(c) {
      NumberLetter(c);
    }
    var i := 0;
    while i < 64
      invariant 0 <= i <= 64 && k < 64
      invariant found ==> InAlphabet(c) && k == Number(c)
      invariant !found && InAlphabet(c) ==> Number(c) >= i
    {
      LetterNumber(i);
      if Letter(i) == c {
        k, found := i, true;
      }
      i := i + 1;
    }
  }

  // ---------------------------------------------------------------- groups

  /** Three octets as one number of 24 bits, and its four letters. */
  function Join3(a: octet, b: octet, c: octet): nat {
    0x1_0000 * a + 0x100 * b + c
  }

  /** Six bits of a number, the lowest six being number zero. */
  function Sextet(buf: nat, i: nat): (k: nat)
    ensures k < 64
  {
    if i == 0 then buf % 64 else Sextet(buf / 64, i - 1)
  }

  function Group(a: octet, b: octet, c: octet): (s: string)
    ensures |s| == 4
  {
    var buf := Join3(a, b, c);
    [Letter(Sextet(buf, 3)), Letter(Sextet(buf, 2)), Letter(Sextet(buf, 1)), Letter(Sextet(buf, 0))]
  }

  function Join4(h: nat, i: nat, j: nat, k: nat): nat {
    0x4_0000 * h + 0x1000 * i + 0x40 * j + k
  }

  function Octet(buf: nat, i: nat): octet {
    if i == 0 then buf % 256 else Octet(buf / 256, i - 1)
  }

  lemma By64(q: nat, r: nat)
    requires r < 64
    ensures (64 * q + r) / 64 == q && (64 * q + r) % 64 == r
  {
  }

  lemma By256(q: nat, r: nat)
    requires r < 256
    ensures (256 * q + r) / 256 == q && (256 * q + r) % 256 == r
  {
  }

  lemma SextetsOf(h: nat, i: nat, j: nat, k: nat)
    requires h < 64 && i < 64 && j < 64 && k < 64
    ensures var buf := Join4(h, i, j, k);
            Sextet(buf, 3) == h && Sextet(buf, 2) == i && Sextet(buf, 1) == j && Sextet(buf, 0) == k
  {
    var buf := Join4(h, i, j, k);
    By64(64 * (64 * h + i) + j, k);
    By64(64 * h + i, j);
    By64(h, i);
    By64(0, h);
    assert buf == 64 * (64 * (64 * h + i) + j) + k;
    assert Sextet(buf, 1) == Sextet(64 * (64 * h + i) + j, 0);
    assert Sextet(buf, 2) == Sextet(64 * (64 * h + i) + j, 1) == Sextet(64 * h + i, 0);
    assert Sextet(buf, 3) == Sextet(64 * (64 * h + i) + j, 2) == Sextet(64 * h + i, 1) == Sextet(h, 0);
  }

  lemma OctetsOf(a: octet, b: octet, c: octet)
    ensures var buf := Join3(a, b, c);
            Octet(buf, 2) == a && Octet(buf, 1) == b && Octet(buf, 0) == c
  {
    var buf := Join3(a, b, c);
    By256(256 * a + b, c);
    By256(a, b);
    By256(0, a);
    assert buf == 256 * (256 * a + b) + c;
    assert Octet(buf, 1) == Octet(256 * a + b, 0);
    assert Octet(buf, 2) == Octet(256 * a + b, 1) == Octet(a, 0);
  }

  /** The octets as sextets: six bits of the first, two and four, four and two, six of the last. */
  lemma Regroup(a: octet, b: octet, c: octet)
    ensures Join3(a, b, c) == Join4(a / 4, 16 * (a % 4) + b / 16, 4 * (b % 16) + c / 64, c % 64)
  {
  }

  /** A number is its sextets and its octets put together again. */
  lemma GroupBack(a: octet, b: octet, c: octet)
    ensures var buf := Join3(a, b, c);
            && Join4(Sextet(buf, 3), Sextet(buf, 2), Sextet(buf, 1), Sextet(buf, 0)) == buf
            && (c == 0 ==> Sextet(buf, 0) == 0) && (b == 0 && c == 0 ==> Sextet(buf, 1) == 0)
            && Octet(buf, 2) == a && Octet(buf, 1) == b && Octet(buf, 0) == c
  {
    hide Join3, Join4, Sextet, Octet;
    Regroup(a, b, c);
    SextetsOf(a / 4, 16 * (a % 4) + b / 16, 4 * (b % 16) + c / 64, c % 64);
    OctetsOf(a, b, c);
  }

  // ---------------------------------------------------------------- encoding

  /** Letters for what a last group of `r` octets lacks. */
  function Trim(s: string, r: nat): string
    requires |s| >= 4
  {
    if r == 1 then s[..|s| - 2] + "==" else if r == 2 then s[..|s| - 1] + "=" else s
  }

  function Encode(d: seq<octet>): string {
    if d == [] then []
    else if |d| == 1 then Trim(Group(d[0], 0, 0), 1)
    else if |d| == 2 then Trim(Group(d[0], d[1], 0), 2)
    else Group(d[0], d[1], d[2]) + Encode(d[3..])
  }

  /** Four letters for every three octets begun. */
  lemma {:induction false} EncodeLength(d: seq<octet>)
    ensures |Encode(d)| == 4 * ((|d| + 2) / 3)
  {
    hide Group;
    if |d| >= 3 {
      EncodeLength(d[3..]);
    }
  }

  lemma TrimLast(ret: string, g: string, r: nat)
    requires |g| == 4
    ensures Trim(ret + g, r) == ret + Trim(g, r)
  {
  }

  method NetDataToBase64(d: seq<octet>) returns (ret: string)
    ensures ret == Encode(d)
  {
    hide Group, Encode, Trim;
    ret := [];
    var i := 0;
    EncodeNone(d);
    while i < |d|
      invariant 0 <= i <= |d| + 2 && i % 3 == 0
      invariant i <= |d| ==> ret + Encode(d[i..]) == Encode(d)
      invariant i > |d| ==> |ret| >= 4 && Trim(ret, |d| % 3) == Encode(d)
      decreases |d| - i
    {
      var b := if i + 1 < |d| then d[i + 1] else 0;
      var c := if i + 1 < |d| && i + 2 < |d| then d[i + 2] else 0;
      var group := EncodeOne(d[i], b, c);
      EncodeStep(d, i, ret);
      ret := ret + group;
      i := i + 3;
    }
    ret := ApplyPadding(ret, |d| % 3, if i == |d| then ret else Encode(d));
  }

  /** A last group of one octet ends in two pads, one of two octets in one. */
  method ApplyPadding(s: string, r: nat, ghost goal: string) returns (ret: string)
    requires r == 0 ==> s == goal
    requires r == 1 || r == 2 ==> |s| >= 4 && Trim(s, r) == goal
    requires r < 3
    ensures ret == goal
  {
    ret := s;
    if r == 1 {
      ret := s[..|s| - 2] + "==";
    } else if r == 2 {
      ret := s[..|s| - 1] + "=";
    }
  }

  lemma EncodeNone(d: seq<octet>)
    ensures Encode(d[|d|..]) == [] && [] + Encode(d[0..]) == Encode(d)
  {
    assert d[0..] == d;
  }

  lemma EncodeStep(d: seq<octet>, i: nat, ret: string)
    requires i < |d|
    ensures i + 3 <= |d| ==> ret + Encode(d[i..]) == (ret + Group(d[i], d[i + 1], d[i + 2])) + Encode(d[i + 3..])
    ensures i + 2 == |d| ==> ret + Encode(d[i..]) == Trim(ret + Group(d[i], d[i + 1], 0), 2)
    ensures i + 1 == |d| ==> ret + Encode(d[i..]) == Trim(ret + Group(d[i], 0, 0), 1)
  {
    hide Group;
    var tail := d[i..];
    assert i + 3 <= |d| ==> tail[3..] == d[i + 3..];
    TrimLast(ret, Group(d[i], if i + 1 < |d| then d[i + 1] else 0, 0), if i + 2 == |d| then 2 else 1);
    if i + 3 <= |d| {
      assert Encode(tail) == Group(d[i], d[i + 1], d[i + 2]) + Encode(d[i + 3..]);
    }
  }

  /** Four letters, from the left. */
  method EncodeOne(a: octet, b: octet, c: octet) returns (s: string)
    ensures s == Group(a, b, c)
  {
    var buf := Join3(a, b, c);
    s := [];
    var i := 4;
    while i > 0
      invariant 0 <= i <= 4
      invariant s == Group(a, b, c)[..4 - i]
    {
      i := i - 1;
      s := s + [Letter(Sextet(buf, i))];
    }
  }

  // ---------------------------------------------------------------- decoding

  predicate LegalChar(c: char) {
    c == '=' || InAlphabet(c)
  }

  predicate AllLegal(s: string) {
    forall i :: 0 <= i < |s| ==> LegalChar(s[i])
  }

  /** What the character at `i` adds: a pad adds nothing, nor does the lack of one. */
  function NumberAt(s: string, i: nat): (k: nat)
    requires AllLegal(s)
    ensures k < 64
  {
    if i < |s| && s[i] != '=' then Number(s[i]) else 0
  }

  function Pads(s: string): nat {
    if s == [] then 0 else Pads(s[..|s| - 1]) + if s[|s| - 1] == '=' then 1 else 0
  }

  function GroupNumber(s: string, i: nat): nat
    requires AllLegal(s)
  {
    Join4(NumberAt(s, i), NumberAt(s, i + 1), NumberAt(s, i + 2), NumberAt(s, i + 3))
  }

  function GroupOctets(buf: nat): (d: seq<octet>)
    ensures |d| == 3
  {
    [Octet(buf, 2), Octet(buf, 1), Octet(buf, 0)]
  }

  /** Three octets for every group of four begun, from the n-th group on. */
  function OctetsFrom(s: string, i: nat): (d: seq<octet>)
    requires AllLegal(s)
    ensures i < |s| ==> |d| >= 3
    decreases |s| - i
  {
    if i >= |s| then [] else GroupOctets(GroupNumber(s, i)) + OctetsFrom(s, i + 4)
  }

  lemma {:induction false} PadsBound(s: string)
    ensures Pads(s) <= |s|
  {
    if s != [] {
      PadsBound(s[..|s| - 1]);
    }
  }

  /** Fails on a character outside the alphabet and on more than two pads, and on nothing else. */
  function Decode(s: string): Option<seq<octet>> {
    if !AllLegal(s) || Pads(s) > 2 then None
    else
      PadsBound(s);
      var d := OctetsFrom(s, 0);
      Some(d[..|d| - Pads(s)])
  }

  /** Three octets are written for every four characters begun, before the pads are taken off. */
  lemma {:induction false} OctetsLength(s: string, i: nat)
    requires AllLegal(s)
    ensures |OctetsFrom(s, i)| == if i < |s| then 3 * ((|s| - i + 3) / 4) else 0
    decreases |s| - i
  {
    hide GroupOctets, GroupNumber;
    if i < |s| {
      OctetsLength(s, i + 4);
    }
  }

  lemma GroupLetters(a: octet, b: octet, c: octet)
    ensures var g := Group(a, b, c);
            && AllLegal(g) && '=' !in g
            && Number(g[0]) == Sextet(Join3(a, b, c), 3) && Number(g[1]) == Sextet(Join3(a, b, c), 2)
            && Number(g[2]) == Sextet(Join3(a, b, c), 1) && Number(g[3]) == Sextet(Join3(a, b, c), 0)
  {
    hide Letter, Number, InAlphabet, Sextet, Join3;
    var buf := Join3(a, b, c);
    LetterNumber(Sextet(buf, 3));
    LetterNumber(Sextet(buf, 2));
    LetterNumber(Sextet(buf, 1));
    LetterNumber(Sextet(buf, 0));
  }

  // ---------------------------------------------------------------- round trip

  /** What the last group lacks. */
  function Lack(d: seq<octet>): (n: nat)
    ensures n < 3
  {
    if |d| % 3 == 0 then 0 else 3 - |d| % 3
  }

  function Fill(n: nat): (s: seq<octet>)
    requires n < 3
    ensures |s| == n
  {
    if n == 0 then [] else if n == 1 then [0] else [0, 0]
  }

  lemma GroupDecodes(a: octet, b: octet, c: octet, s: string, i: nat, lack: nat)
    requires AllLegal(s) && lack < 3 && (lack >= 1 ==> c == 0) && (lack == 2 ==> b == 0) && i + 4 <= |s|
    requires s[i..i + 4] == Trim(Group(a, b, c), if lack == 0 then 0 else 3 - lack)
    ensures GroupOctets(GroupNumber(s, i)) == [a, b, c]
  {
    hide Letter, Number, InAlphabet, Sextet, Join3, Octet, Join4, Group;
    var g, buf := Group(a, b, c), Join3(a, b, c);
    GroupLetters(a, b, c);
    GroupBack(a, b, c);
    var t := s[i..i + 4];
    assert s[i] == t[0] && s[i + 1] == t[1] && s[i + 2] == t[2] && s[i + 3] == t[3];
    assert t[0] == g[0] && t[1] == g[1] && (lack < 2 ==> t[2] == g[2]) && (lack == 0 ==> t[3] == g[3]);
    assert NumberAt(s, i) == Sextet(buf, 3) && NumberAt(s, i + 1) == Sextet(buf, 2);
    assert NumberAt(s, i + 2) == Sextet(buf, 1) && NumberAt(s, i + 3) == Sextet(buf, 0);
  }

  lemma {:induction false} EncodeLegal(d: seq<octet>)
    ensures AllLegal(Encode(d))
  {
    hide Group, InAlphabet;
    if |d| == 1 {
      GroupLetters(d[0], 0, 0);
    } else if |d| == 2 {
      GroupLetters(d[0], d[1], 0);
    } else if |d| >= 3 {
      GroupLetters(d[0], d[1], d[2]);
      EncodeLegal(d[3..]);
    }
  }

  lemma OctetsStep(s: string, i: nat)
    requires AllLegal(s) && i < |s|
    ensures OctetsFrom(s, i) == GroupOctets(GroupNumber(s, i)) + OctetsFrom(s, i + 4)
  {
    hide GroupOctets, GroupNumber;
  }

  lemma OctetsEnd(s: string)
    requires AllLegal(s)
    ensures OctetsFrom(s, |s|) == []
  {
  }

  lemma {:induction false} DecodeTail(p: string, d: seq<octet>)
    requires AllLegal(p + Encode(d))
    ensures OctetsFrom(p + Encode(d), |p|) == d + Fill(Lack(d))
    decreases |d|
  {
    hide Group, GroupOctets, GroupNumber, OctetsFrom, LegalChar, Trim;
    var s := p + Encode(d);
    OctetsEnd(s);
    if d != [] {
      var lack := if |d| < 3 then Lack(d) else 0;
      var b, c := if |d| >= 2 then d[1] else 0, if |d| >= 3 then d[2] else 0;
      var g := Group(d[0], b, c);
      TrimSize(g, if lack == 0 then 0 else 3 - lack);
      FirstGroup(d);
      assert s[|p|..|p| + 4] == Encode(d)[..4];
      OctetsStep(s, |p|);
      GroupDecodes(d[0], b, c, s, |p|, lack);
      if |d| >= 3 {
        assert s == (p + g) + Encode(d[3..]);
        DecodeTail(p + g, d[3..]);
      }
    }
  }

  lemma FirstGroup(d: seq<octet>)
    requires d != []
    ensures |Encode(d)| >= 4
    ensures |d| == 1 ==> Encode(d) == Trim(Group(d[0], 0, 0), 1) && |Encode(d)| == 4
    ensures |d| == 2 ==> Encode(d) == Trim(Group(d[0], d[1], 0), 2) && |Encode(d)| == 4
    ensures |d| >= 3 ==> Encode(d) == Group(d[0], d[1], d[2]) + Encode(d[3..]) && Lack(d[3..]) == Lack(d)
  {
    hide Group, Lack;
    if |d| >= 3 {
      SameLack(d);
    }
  }

  lemma SameLack(d: seq<octet>)
    requires |d| >= 3
    ensures Lack(d[3..]) == Lack(d)
  {
  }

  lemma TrimSize(g: string, r: nat)
    requires |g| == 4
    ensures |Trim(g, r)| == 4 && Trim(g, 0) == g
  {
  }

  lemma {:induction false} PadsJoin(a: string, b: string)
    ensures Pads(a + b) == Pads(a) + Pads(b)
    decreases |b|
  {
    if b == [] {
      assert a + b == a;
    } else {
      PadsJoin(a, b[..|b| - 1]);
      assert (a + b)[..|a + b| - 1] == a + b[..|b| - 1];
    }
  }

  lemma {:induction false} NoPads(s: string)
    requires '=' !in s
    ensures Pads(s) == 0
  {
    if s != [] {
      NoPads(s[..|s| - 1]);
    }
  }

  lemma PadsOnly()
    ensures Pads("=") == 1 && Pads("==") == 2
  {
    assert "="[..0] == [] && "=="[..1] == "=";
  }

  lemma GroupPads(a: octet, b: octet, c: octet)
    ensures var g := Group(a, b, c);
            Pads(g) == 0 && Pads(Trim(g, 1)) == 2 && Pads(Trim(g, 2)) == 1
  {
    hide Group, Pads;
    var g := Group(a, b, c);
    GroupLetters(a, b, c);
    PadsOnly();
    NoPads(g);
    NoPads(g[..2]);
    NoPads(g[..3]);
    PadsJoin(g[..2], "==");
    PadsJoin(g[..3], "=");
  }

  lemma {:induction false} EncodePads(d: seq<octet>)
    ensures Pads(Encode(d)) == Lack(d)
  {
    hide Group, Pads, Trim;
    if d == [] {
      NoPads([]);
    } else {
      GroupPads(d[0], if |d| >= 2 then d[1] else 0, if |d| >= 3 then d[2] else 0);
      FirstGroup(d);
      if |d| >= 3 {
        EncodePads(d[3..]);
        PadsJoin(Group(d[0], d[1], d[2]), Encode(d[3..]));
      }
    }
  }

  /** Decoding what was encoded gives every byte string back. */
  lemma RoundTrip(d: seq<octet>)
    ensures Decode(Encode(d)) == Some(d)
  {
    hide Pads, OctetsFrom, Encode;
    EncodeLegal(d);
    EncodePads(d);
    assert [] + Encode(d) == Encode(d);
    DecodeTail([], d);
    PadsBound(Encode(d));
    assert (d + Fill(Lack(d)))[..|d|] == d;
  }

  /** Decoding works exactly on strings of letters and pads with at most two pads, wherever they are,
      and gives three octets for every four characters begun, less the pads. */
  lemma DecodesExactly(s: string)
    ensures Decode(s).Some? <==> (forall i :: 0 <= i < |s| ==> s[i] == '=' || InAlphabet(s[i])) && Pads(s) <= 2
    ensures Decode(s).Some? ==> |Decode(s).value| == 3 * ((|s| + 3) / 4) - Pads(s)
  {
    hide InAlphabet, Pads, OctetsFrom;
    PadsBound(s);
    if AllLegal(s) {
      OctetsLength(s, 0);
      assert |OctetsFrom(s, 0)| == 3 * ((|s| + 3) / 4);
    }
  }

  // ---------------------------------------------------------------- the program's decoder

  function Weight(j: nat): nat
    requires j < 4
  {
    if j == 0 then 0x4_0000 else if j == 1 then 0x1000 else if j == 2 then 0x40 else 1
  }

  /** The first `j` of a group's numbers. */
  function PartNumber(s: string, i: nat, j: nat): nat
    requires AllLegal(s) && j <= 4
  {
    if j == 0 then 0 else PartNumber(s, i, j - 1) + Weight(j - 1) * NumberAt(s, i + j - 1)
  }

  lemma WholeNumber(s: string, i: nat)
    requires AllLegal(s)
    ensures PartNumber(s, i, 4) == GroupNumber(s, i)
  {
    assert PartNumber(s, i, 0) == 0;
    assert PartNumber(s, i, 1) == 0x4_0000 * NumberAt(s, i);
    assert PartNumber(s, i, 2) == PartNumber(s, i, 1) + 0x1000 * NumberAt(s, i + 1);
    assert PartNumber(s, i, 3) == PartNumber(s, i, 2) + 0x40 * NumberAt(s, i + 2);
  }

  function UpTo(s: string, n: nat): string {
    if n < |s| then s[..n] else s
  }

  lemma UpToNext(s: string, n: nat)
    requires n < |s|
    ensures UpTo(s, n + 1) == UpTo(s, n) + [s[n]]
    ensures Pads(UpTo(s, n + 1)) == Pads(UpTo(s, n)) + if s[n] == '=' then 1 else 0
  {
    assert UpTo(s, n + 1)[..n] == UpTo(s, n);
  }

  /** The character at `i`, if there is one: its number, whether it is a pad, and whether it is legal. */
  method DecodeChar(s: string, i: nat) returns (k: nat, pad: nat, ok: bool)
    ensures ok <==> (i < |s| ==> LegalChar(s[i]))
    ensures AllLegal(s) ==> k == NumberAt(s, i)
    ensures pad == if i < |s| && s[i] == '=' then 1 else 0
  {
    hide InAlphabet, Number;
    k, pad, ok := 0, 0, true;
    if i < |s| && s[i] != '=' {
      k, ok := Find(s[i]);
    } else if i < |s| && s[i] == '=' {
      pad := 1;
    }
  }

  /** One group: its number and its pads, or that it has an illegal character. */
  method DecodeGroup(s: string, i: nat) returns (buf: nat, pad: nat, ok: bool)
    requires i < |s|
    ensures !ok ==> !AllLegal(s)
    ensures ok ==> forall k :: i <= k < i + 4 && k < |s| ==> LegalChar(s[k])
    ensures AllLegal(s) ==> buf == GroupNumber(s, i)
    ensures ok ==> pad + Pads(UpTo(s, i)) == Pads(UpTo(s, i + 4))
  {
    hide LegalChar, NumberAt, GroupNumber, Pads, UpTo, Weight;
    buf, pad, ok := 0, 0, true;
    var j := 0;
    while j < 4
      invariant 0 <= j <= 4
      invariant forall k :: i <= k < i + j && k < |s| ==> LegalChar(s[k])
      invariant AllLegal(s) ==> buf == PartNumber(s, i, j)
      invariant pad + Pads(UpTo(s, i)) == Pads(UpTo(s, i + j))
    {
      var k, more, legal := DecodeChar(s, i + j);
      if !legal {
        return 0, 0, false;
      }
      if i + j < |s| {
        UpToNext(s, i + j);
      } else {
        UpToEnd(s, i + j);
      }
      buf := buf + Weight(j) * k;
      pad := pad + more;
      j := j + 1;
    }
    if AllLegal(s) {
      WholeNumber(s, i);
    }
  }

  lemma UpToEnd(s: string, n: nat)
    requires n >= |s|
    ensures UpTo(s, n) == UpTo(s, n + 1) == s
  {
  }

  method ExtractGroup(buf: nat, data: array<octet>, ptr: nat)
    requires ptr + 3 <= data.Length
    modifies data
    ensures data[..ptr + 3] == old(data[..ptr]) + GroupOctets(buf)
  {
    hide Octet;
    var i := 3;
    while i > 0
      invariant 0 <= i <= 3
      invariant data[..ptr + 3 - i] == old(data[..ptr]) + GroupOctets(buf)[..3 - i]
    {
      i := i - 1;
      data[ptr + 2 - i] := Octet(buf, i);
    }
  }

  /** Zero for what does not decode; the octets otherwise, and how many. The caller's buffer must hold
      three octets for every group begun: the program is told its size but does not look at it. */
  method NetBase64ToData(s: string, data: array<octet>) returns (n: nat)
    requires data.Length >= 3 * ((|s| + 3) / 4)
    modifies data
    ensures Decode(s).None? ==> n == 0
    ensures Decode(s).Some? ==> n == |Decode(s).value| && n <= data.Length && data[..n] == Decode(s).value
  {
    hide InAlphabet, Pads, UpTo, GroupNumber, GroupOctets, LegalChar, OctetsFrom;
    var ptr, pad := 0, 0;
    var i := 0;
    Starting(s);
    while i < |s|
      invariant 0 <= i <= |s| + 3 && i % 4 == 0 && 4 * ptr == 3 * i
      invariant forall k :: 0 <= k < i && k < |s| ==> LegalChar(s[k])
      invariant pad == Pads(UpTo(s, i))
      invariant ptr <= data.Length
      invariant AllLegal(s) ==> data[..ptr] + OctetsFrom(s, i) == OctetsFrom(s, 0)
      decreases |s| - i
    {
      var buf, more, ok := DecodeGroup(s, i);
      if !ok {
        return 0;
      }
      if AllLegal(s) {
        OctetsStep(s, i);
      }
      ExtractGroup(buf, data, ptr);
      ptr := ptr + 3;
      pad := pad + more;
      i := i + 4;
    }
    assert AllLegal(s);
    OctetsPast(s, i);
    UpToEnd(s, i);
    if pad > 2 {
      return 0;
    }
    PadsBound(s);
    n := ptr - pad;
  }

  lemma Starting(s: string)
    ensures Pads(UpTo(s, 0)) == 0
  {
  }

  lemma OctetsPast(s: string, i: nat)
    requires AllLegal(s) && i >= |s|
    ensures OctetsFrom(s, i) == []
  {
  }

  // ---------------------------------------------------------------- strings

  function Latin1(c: char): octet {
    if c as int < 256 then c as int else 0
  }

  /** The octets of a string's characters; one that does not fit an octet converts to zero. */
  function Bytes(str: string): (d: seq<octet>)
    ensures |d| == |str|
  {
    seq(|str|, i requires 0 <= i < |str| => Latin1(str[i]))
  }

  function Chars(d: seq<octet>): (str: string)
    ensures |str| == |d|
  {
    seq(|d|, i requires 0 <= i < |d| => d[i] as char)
  }

  lemma OctetChar(c: char)
    ensures Latin1(c) as char == c <==> c as int < 256
  {
  }

  /** A string comes back exactly when its characters are octets: only Latin-1 text survives. */
  lemma StringRoundTrip(str: string)
    ensures Decode(Encode(Bytes(str))).Some?
    ensures Chars(Decode(Encode(Bytes(str))).value) == str <==> forall i :: 0 <= i < |str| ==> str[i] as int < 256
  {
    hide Decode, Encode;
    RoundTrip(Bytes(str));
    var back := Chars(Bytes(str));
    forall i | 0 <= i < |str|
      ensures back[i] == str[i] <==> str[i] as int < 256
    {
      OctetChar(str[i]);
    }
  }

  /** The string forms take and give the same octets; the loops are those of the two above. */
  method NetStringToBase64(str: string) returns (ret: string)
    ensures ret == Encode(Bytes(str))
  {
    ret := NetDataToBase64(Bytes(str));
  }

  method NetBase64ToString(s: string) returns (ret: string, ok: bool)
    ensures ok <==> Decode(s).Some?
    ensures ret == if ok then Chars(Decode(s).value) else ""
  {
    hide Decode, Pads, OctetsFrom;
    var data: array<octet> := new octet[3 * ((|s| + 3) / 4)];
    var n := NetBase64ToData(s, data);
    DecodesSomething(s);
    ok := s == [] || n > 0;
    ret := if ok then Chars(data[..n]) else "";
  }

  lemma DecodesSomething(s: string)
    ensures s == [] ==> Decode(s) == Some([])
    ensures s != [] && Decode(s).Some? ==> |Decode(s).value| > 0
  {
    DecodesExactly(s);
  }
}
