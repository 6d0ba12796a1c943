/**
 * The 32 control lines of lib/codec.cpp: sent as a private chunk of the source description, and told to
 * listeners line by line.
 */
module Gpio {
  import opened Wire

  const LINES := 32

  function Only(x: bv32, m: bv32): bv32 { x & m }
  function With(x: bv32, m: bv32): bv32 { x | m }
  function Without(x: bv32, m: bv32): bv32 { x & !m }

  function LineMask(i: nat): bv32
    requires i < LINES
  {
    1 << (i as bv5)
  }

  predicate Line(mask: bv32, i: nat)
    requires i < LINES
  {
    Only(mask, LineMask(i)) != 0
  }

  function SetLine(mask: bv32, i: nat, state: bool): bv32
    requires i < LINES
  {
    if state then With(mask, LineMask(i)) else Without(mask, LineMask(i))
  }

  /** Line 0 is the lowest bit, and each line the bit above the one before it. */
  lemma LinesAscend(i: nat)
    requires i + 1 < LINES
    ensures LineMask(0) == 1 && LineMask(i + 1) == LineMask(i) << 1
  {
    NextShift(i);
    ShiftOnce(i as bv5);
  }

  lemma NextShift(i: nat)
    requires i + 1 < LINES
    ensures (i + 1) as bv5 == (i as bv5) + 1 && (i as bv5) < 31
  {
    var k := i as bv5;
    assert k as nat == i;
    assert (k + 1) as nat == i + 1;
  }

  lemma ShiftOnce(k: bv5)
    requires k < 31
    ensures (1 as bv32) << (k + 1) == ((1 as bv32) << k) << 1
  {
  }

  // ---------------------------------------------------------------- on the wire

  /** The name GPIO with its length, then the mask, most significant octet first. */
  function MaskChunk(mask: bv32): (s: seq<bv8>)
    ensures |s| == 9
  {
    [4, 0x47, 0x50, 0x49, 0x4f, Octet(mask, 0), Octet(mask, 1), Octet(mask, 2), Octet(mask, 3)]
  }

  predicate IsMaskChunk(data: seq<bv8>) {
    |data| == 9 && data[0] == 4 && data[1] == 0x47 && data[2] == 0x50 && data[3] == 0x49 && data[4] == 0x4f
  }

  function ReadMask(data: seq<bv8>): bv32
    requires IsMaskChunk(data)
  {
    PackWord(data[5], data[6], data[7], data[8])
  }

  /** Every mask survives its chunk, and a chunk that is recognised is the chunk of the mask read from it. */
  lemma MaskRoundTrip(mask: bv32, data: seq<bv8>)
    ensures IsMaskChunk(MaskChunk(mask)) && ReadMask(MaskChunk(mask)) == mask
    ensures IsMaskChunk(data) ==> MaskChunk(ReadMask(data)) == data
  {
    hide Octet, PackWord;
    OctetsPackWord(mask);
    if IsMaskChunk(data) {
      PackWordOctets(data[5], data[6], data[7], data[8]);
    }
  }

  // ---------------------------------------------------------------- listeners

  datatype Change = Change(line: nat, state: bool)

  ghost predicate OnLines(changes: seq<Change>) {
    forall k :: 0 <= k < |changes| ==> changes[k].line < LINES
  }

  predicate Differs(was: bv32, now: bv32, i: nat)
    requires i < LINES
  {
    Only(now, LineMask(i)) != Only(was, LineMask(i))
  }

  /** The changes told for the lines below `n`, in order. */
  function Changes(was: bv32, now: bv32, n: nat): (changes: seq<Change>)
    requires n <= LINES
    ensures OnLines(changes)
  {
    if n == 0 then []
    else if Differs(was, now, n - 1) then Changes(was, now, n - 1) + [Change(n - 1, Line(now, n - 1))]
    else Changes(was, now, n - 1)
  }

  /** The state of every line, as a listener keeps it. */
  function Lines(mask: bv32): (lines: seq<bool>)
    ensures |lines| == LINES
  {
    seq(LINES, i requires 0 <= i < LINES => Line(mask, i))
  }

  /** A listener after some changes. */
  function Told(lines: seq<bool>, changes: seq<Change>): (told: seq<bool>)
    requires |lines| == LINES && OnLines(changes)
    ensures |told| == LINES
    decreases |changes|
  {
    if changes == [] then lines
    else
      var n := |changes| - 1;
      Told(lines, changes[..n])[changes[n].line := changes[n].state]
  }

  lemma ToldNothing(lines: seq<bool>)
    requires |lines| == LINES
    ensures Told(lines, []) == lines
  {
  }

  lemma ToldOne(lines: seq<bool>, a: seq<Change>, change: Change)
    requires |lines| == LINES && OnLines(a + [change]) && OnLines(a) && change.line < LINES
    ensures Told(lines, a + [change]) == Told(lines, a)[change.line := change.state]
  {
    assert (a + [change])[..|a|] == a;
  }

  lemma OneMore(lines: seq<bool>, goal: seq<bool>, n: nat)
    requires |lines| == |goal| && 0 < n <= |goal|
    ensures (goal[..n - 1] + lines[n - 1..])[n - 1 := goal[n - 1]] == goal[..n] + lines[n..]
    ensures goal[n - 1] == lines[n - 1] ==> goal[..n - 1] + lines[n - 1..] == goal[..n] + lines[n..]
  {
  }

  lemma {:induction false} ChangesTell(was: bv32, now: bv32, n: nat)
    requires n <= LINES
    ensures Told(Lines(was), Changes(was, now, n)) == Lines(now)[..n] + Lines(was)[n..]
  {
    hide LineMask, Only, Differs, Line, Told, Lines;
    ToldNothing(Lines(was));
    if n > 0 {
      ChangesTell(was, now, n - 1);
      LinesAt(was, now, n - 1);
      OneMore(Lines(was), Lines(now), n);
      if Differs(was, now, n - 1) {
        ToldOne(Lines(was), Changes(was, now, n - 1), Change(n - 1, Line(now, n - 1)));
      }
    }
  }

  lemma LinesAt(was: bv32, now: bv32, i: nat)
    requires i < LINES
    ensures Lines(now)[i] == Line(now, i)
    ensures !Differs(was, now, i) ==> Lines(was)[i] == Lines(now)[i]
  {
    hide Only;
  }

  ghost predicate TrueChange(was: bv32, now: bv32, c: Change) {
    c.line < LINES && Differs(was, now, c.line) && c.state == Line(now, c.line)
  }

  /** One change for each line that differs, with its new state, lines ascending, and none besides. */
  lemma {:induction false} OneChangeEach(was: bv32, now: bv32, n: nat)
    requires n <= LINES
    ensures var cs := Changes(was, now, n);
            && (forall j, k :: 0 <= j < k < |cs| ==> cs[j].line < cs[k].line)
            && (forall c :: c in cs <==> TrueChange(was, now, c) && c.line < n)
  {
    hide Line, Differs, LineMask;
    if n > 0 {
      OneChangeEach(was, now, n - 1);
    }
  }

  // ---------------------------------------------------------------- receiving

  /** The mask after a private chunk; a chunk that is not the lines' changes nothing. */
  function Heed(mask: bv32, data: seq<bv8>): bv32 {
    if IsMaskChunk(data) then ReadMask(data) else mask
  }

  function Emitted(mask: bv32, data: seq<bv8>): (changes: seq<Change>)
    ensures OnLines(changes)
  {
    if IsMaskChunk(data) then Changes(mask, ReadMask(data), LINES) else []
  }

  function HeedAll(mask: bv32, chunks: seq<seq<bv8>>): bv32
    decreases |chunks|
  {
    if chunks == [] then mask else HeedAll(Heed(mask, chunks[0]), chunks[1..])
  }

  function AllEmitted(mask: bv32, chunks: seq<seq<bv8>>): (changes: seq<Change>)
    ensures OnLines(changes)
    decreases |chunks|
  {
    if chunks == [] then [] else Emitted(mask, chunks[0]) + AllEmitted(Heed(mask, chunks[0]), chunks[1..])
  }

  lemma HeedNone(mask: bv32)
    ensures HeedAll(mask, []) == mask && AllEmitted(mask, []) == []
  {
  }

  lemma HeedOne(mask: bv32, data: seq<bv8>)
    ensures HeedAll(mask, [data]) == Heed(mask, data) && AllEmitted(mask, [data]) == Emitted(mask, data)
  {
    hide Heed, Emitted;
    assert [data][1..] == [];
    HeedNone(Heed(mask, data));
  }

  lemma {:induction false} HeedJoin(mask: bv32, a: seq<seq<bv8>>, b: seq<seq<bv8>>)
    ensures HeedAll(mask, a + b) == HeedAll(HeedAll(mask, a), b)
    ensures AllEmitted(mask, a + b) == AllEmitted(mask, a) + AllEmitted(HeedAll(mask, a), b)
    decreases |a|
  {
    hide Heed, Emitted;
    if a == [] {
      assert a + b == b;
    } else {
      assert (a + b)[0] == a[0] && (a + b)[1..] == a[1..] + b;
      HeedJoin(Heed(mask, a[0]), a[1..], b);
    }
  }

  lemma {:induction false} ToldJoin(lines: seq<bool>, a: seq<Change>, b: seq<Change>)
    requires |lines| == LINES && OnLines(a) && OnLines(b)
    ensures OnLines(a + b) && Told(lines, a + b) == Told(Told(lines, a), b)
    decreases |b|
  {
    if b == [] {
      assert a + b == a;
    } else {
      var n := |b| - 1;
      ToldJoin(lines, a, b[..n]);
      assert a + b == (a + b[..n]) + [b[n]];
      assert (a + b)[..|a + b| - 1] == a + b[..n];
    }
  }

  /** Over any chunks, whatever they hold, a listener that follows the changes ends with the lines of
      the received mask. */
  lemma {:induction false} ListenersAgree(mask: bv32, chunks: seq<seq<bv8>>)
    ensures Told(Lines(mask), AllEmitted(mask, chunks)) == Lines(HeedAll(mask, chunks))
    decreases |chunks|
  {
    hide Changes, ReadMask, IsMaskChunk, Lines, Told;
    ToldNothing(Lines(mask));
    if chunks != [] {
      var next := Heed(mask, chunks[0]);
      if IsMaskChunk(chunks[0]) {
        ChangesTell(mask, ReadMask(chunks[0]), LINES);
        assert Lines(next)[..LINES] + Lines(mask)[LINES..] == Lines(next);
      }
      ListenersAgree(next, chunks[1..]);
      ToldJoin(Lines(mask), Emitted(mask, chunks[0]), AllEmitted(next, chunks[1..]));
    }
  }

  // ---------------------------------------------------------------- setting a line

  lemma ShiftsApart(j: bv5, k: bv5)
    requires j != k
    ensures ((1 as bv32) << j) & (1 << k) == 0
  {
  }

  lemma Distinct(i: nat, j: nat)
    requires i < LINES && j < LINES && i != j
    ensures i as bv5 != j as bv5
  {
    assert (i as bv5) as nat == i && (j as bv5) as nat == j;
  }

  lemma ShiftNotZero(k: bv5)
    ensures (1 as bv32) << k != 0
  {
  }

  lemma MasksApart(i: nat, j: nat)
    requires i < LINES && j < LINES
    ensures LineMask(i) != 0
    ensures i != j ==> Only(LineMask(i), LineMask(j)) == 0
  {
    ShiftNotZero(i as bv5);
    if i != j {
      Distinct(i, j);
      ShiftsApart(i as bv5, j as bv5);
    }
  }

  lemma SameBit(mask: bv32, m: bv32)
    ensures Only(With(mask, m), m) == m && Only(Without(mask, m), m) == 0
  {
  }

  lemma KeepsBits(mask: bv32, m: bv32, n: bv32)
    requires m & n == 0
    ensures (mask | m) & n == mask & n && (mask & !m) & n == mask & n
  {
  }

  lemma OtherBits(mask: bv32, m: bv32, n: bv32)
    requires Only(m, n) == 0
    ensures Only(With(mask, m), n) == Only(mask, n) && Only(Without(mask, m), n) == Only(mask, n)
  {
    KeepsBits(mask, m, n);
  }

  /** Setting one line changes that line and no other. */
  lemma SetLineOnly(mask: bv32, i: nat, state: bool)
    requires i < LINES
    ensures Lines(SetLine(mask, i, state)) == Lines(mask)[i := state]
  {
    hide LineMask, Only, With, Without;
    var lines := Lines(SetLine(mask, i, state));
    forall j: nat | j < LINES
      ensures lines[j] == if i == j then state else Line(mask, j)
    {
      MasksApart(i, j);
      if i == j {
        SameBit(mask, LineMask(i));
      } else {
        OtherBits(mask, LineMask(i), LineMask(j));
      }
    }
  }
}
