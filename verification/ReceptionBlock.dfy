/** lib/rtpreceptionblock.cpp: section 6.4.1 of RFC 3550, with the narrower fields the program keeps. */
module ReceptionBlocks {
  import opened Wire

  const SIZE := 6  // words

  datatype Block = Block(
    ssrc: bv32, fraction: real, lost: bv32, highest: bv32, jitter: bv32, lastReport: bv32, delay: bv32)

  const EMPTY: Block := Block(0, 0.0, 0, 0, 0, 0, 0)

  /** A fraction that converts to an unsigned word. */
  ghost predicate Convertible(b: Block) {
    b.fraction >= 0.0
  }

  /** The four bits of the fraction that reach the wire. */
  function FractionBits(fraction: real): bv32
    requires fraction >= 0.0
  {
    ((256.0 * fraction).Floor % 16) as bv4 as bv32
  }

  /** The eight bits read back. */
  function FractionRead(w: bv32): real {
    OctetValue((0xff & (w >> 24)) as bv8) as real / 256.0
  }

  function LossWord(fraction: real, lost: bv32): bv32
    requires fraction >= 0.0
  {
    ((0x0f & FractionBits(fraction)) << 24) | (0x07ff & lost)
  }

  function BlockWords(b: Block): (ws: seq<bv32>)
    requires Convertible(b)
    ensures |ws| == SIZE
  {
    [b.ssrc, LossWord(b.fraction, b.lost), b.highest, b.jitter, b.lastReport, b.delay]
  }

  function ParseBlock(ws: seq<bv32>, at: nat): Block
    requires at + SIZE <= |ws|
  {
    Block(ws[at], FractionRead(ws[at + 1]), 0x7ff & ws[at + 1], ws[at + 2], ws[at + 3], ws[at + 4], ws[at + 5])
  }

  function Coded(f: real): real {
    ((256.0 * f).Floor % 16) as real / 256.0
  }

  function LowEleven(lost: bv32): bv32 {
    lost & 0x7ff
  }

  /** What survives the wire: the fraction in 256ths modulo 16, the losses modulo 2048. */
  function Narrowed(b: Block): Block
    requires Convertible(b)
  {
    b.(fraction := Coded(b.fraction), lost := LowEleven(b.lost))
  }

  lemma LossWordFields(f: bv4, lost: bv32)
    ensures var w := ((0x0f & (f as bv32)) << 24) | (0x07ff & lost);
            (0xff & (w >> 24)) as bv8 == f as bv8 && 0x7ff & w == lost & 0x7ff
  {
  }

  lemma Nibble(n: nat)
    requires n < 16
    ensures OctetValue(n as bv4 as bv8) == n
  {
    Digit(n);
    NibbleDigits(n as bv4);
  }

  lemma NibbleDigits(d: bv4)
    ensures (((d as bv8) >> 4) & 0xf) as bv4 == 0 && ((d as bv8) & 0xf) as bv4 == d
  {
  }

  /** Reading a block that was written anywhere gives it back, narrowed. */
  lemma BlockRoundTrip(b: Block, ws: seq<bv32>, at: nat)
    requires Convertible(b) && Holds(ws, at, BlockWords(b))
    ensures ParseBlock(ws, at) == Narrowed(b)
  {
    var n: nat := (256.0 * b.fraction).Floor % 16;
    LossWordFields(n as bv4, b.lost);
    Nibble(n);
    HoldsAt(ws, at, BlockWords(b), 0);
    HoldsAt(ws, at, BlockWords(b), 1);
    HoldsAt(ws, at, BlockWords(b), 2);
    HoldsAt(ws, at, BlockWords(b), 3);
    HoldsAt(ws, at, BlockWords(b), 4);
    HoldsAt(ws, at, BlockWords(b), 5);
  }

  lemma LowBits(lost: bv32)
    ensures LowEleven(lost) == lost <==> lost <= 0x7ff
  {
  }

  /** A number of 256ths below 16. */
  predicate FourBits(f: real) {
    256.0 * f < 16.0 && (256.0 * f).Floor as real == 256.0 * f
  }

  lemma FractionExact(f: real)
    requires f >= 0.0
    ensures Coded(f) == f <==> FourBits(f)
  {
    var n := (256.0 * f).Floor;
    assert (n % 16) as real / 256.0 == f <==> (n % 16) as real == 256.0 * f;
    if n < 16 {
      assert n % 16 == n;
    } else {
      assert (n % 16) as real < 16.0;
    }
  }

  /** Nothing is lost exactly when the fraction is a number of 256ths below 16 and the losses fit 11 bits. */
  lemma NarrowedExact(b: Block)
    requires Convertible(b)
    ensures Narrowed(b) == b <==> FourBits(b.fraction) && b.lost <= 0x7ff
  {
    hide Coded, FourBits, LowEleven;
    LowBits(b.lost);
    FractionExact(b.fraction);
  }

  class ReceptionBlock {
    var ssrc: bv32
    var fraction: real
    var lost: bv32
    var highest: bv32
    var jitter: bv32
    var lastReport: bv32
    var delay: bv32

    function View(): Block
      reads this
    {
      Block(ssrc, fraction, lost, highest, jitter, lastReport, delay)
    }

    constructor (ssrc: bv32)
      ensures View() == EMPTY.(ssrc := ssrc)
    {
      this.ssrc := ssrc;
      fraction := 0.0;
      lost, highest, jitter, lastReport, delay := 0, 0, 0, 0, 0;
    }

    method ReadBlock(data: array<bv32>, at: nat) returns (n: nat)
      requires at + SIZE <= data.Length
      modifies this
      ensures n == SIZE && View() == ParseBlock(data[..], at)
    {
      ssrc := data[at];
      fraction := FractionRead(data[at + 1]);
      lost := 0x7ff & data[at + 1];
      highest := data[at + 2];
      jitter := data[at + 3];
      lastReport := data[at + 4];
      delay := data[at + 5];
      n := SIZE;
    }

    /** Writes into `len` free words from `at`, or nothing when they do not suffice. */
    method WriteBlock(data: array<bv32>, at: nat, len: nat) returns (n: nat)
      requires at + len <= data.Length && Convertible(View())
      modifies data
      ensures n == if len < SIZE then 0 else SIZE
      ensures data[..] == if n == 0 then old(data[..]) else Stored(old(data[..]), at, BlockWords(View()))
    {
      if len < SIZE {
        return 0;
      }
      data[at] := ssrc;
      data[at + 1] := LossWord(fraction, lost);
      data[at + 2] := highest;
      data[at + 3] := jitter;
      data[at + 4] := lastReport;
      data[at + 5] := delay;
      n := SIZE;
    }
  }
}
