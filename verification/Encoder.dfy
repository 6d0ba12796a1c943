/** client/encoder.c: cutting the encoder's output into packets of 576 octets. */
module Encoders {
  import opened Runs

  const PACKET := 576
  const BUFFER := 16384  // LAME_MAXMP3BUFFER

  /** The whole packets in some octets, and what is left over. */
  function Packets(s: seq<bv8>): seq<seq<bv8>> {
    if |s| < PACKET then [] else [s[..PACKET]] + Packets(s[PACKET..])
  }

  function Left(s: seq<bv8>): (t: seq<bv8>)
    ensures |t| < PACKET
  {
    if |s| < PACKET then s else Left(s[PACKET..])
  }

  lemma {:induction false} PacketsConserve(s: seq<bv8>)
    ensures Concat(Packets(s)) + Left(s) == s
    ensures forall i :: 0 <= i < |Packets(s)| ==> |Packets(s)[i]| == PACKET
  {
    if |s| >= PACKET {
      PacketsConserve(s[PACKET..]);
      assert Packets(s)[1..] == Packets(s[PACKET..]);
      assert s[..PACKET] + (Concat(Packets(s[PACKET..])) + Left(s[PACKET..])) == Concat(Packets(s)) + Left(s);
    }
  }

  /** The packets of a stretch that starts with `n` whole ones. */
  lemma {:induction false} PacketsAfter(s: seq<bv8>, n: nat)
    requires PACKET * n <= |s|
    ensures |Packets(s[PACKET * n..])| + n == |Packets(s)|
    ensures Packets(s[PACKET * n..]) == Packets(s)[n..] && Left(s[PACKET * n..]) == Left(s)
    decreases n
  {
    if n == 0 {
      assert s[0..] == s;
    } else {
      PacketsAfter(s[PACKET..], n - 1);
      assert s[PACKET..][PACKET * (n - 1)..] == s[PACKET * n..];
      assert Packets(s)[n..] == Packets(s[PACKET..])[n - 1..];
    }
  }

  lemma NoPacket(s: seq<bv8>)
    requires |s| < PACKET
    ensures Packets(s) == []
  {
  }

  lemma FirstPacket(s: seq<bv8>)
    requires |s| >= PACKET
    ensures Packets(s) != [] && Packets(s)[0] == s[..PACKET]
  {
  }

  lemma TakeAt(s: seq<bv8>, at: nat)
    requires at + PACKET <= |s|
    ensures s[at..][..PACKET] == s[at..at + PACKET]
  {
  }

  // ---------------------------------------------------------------- one turn of the main loop

  datatype Chunker = Chunker(pending: seq<bv8>, sent: seq<seq<bv8>>)

  /** All octets that have come out of the encoder and are not lost. */
  function Stream(c: Chunker): seq<bv8> {
    Concat(c.sent) + c.pending
  }

  /** The encoder returned `ret`, with as many octets unless it failed. */
  ghost predicate Returned(ret: int, out: seq<bv8>) {
    |out| == if ret >= 0 then ret else 0
  }

  /** A failure is only noticed when it outweighs what is pending; else it shortens it. */
  function Turn(c: Chunker, ret: int, out: seq<bv8>): Chunker
    requires Returned(ret, out)
  {
    var s := ret + |c.pending|;
    if s >= 0 then
      var all := (c.pending + out)[..s];
      Chunker(Left(all), c.sent + Packets(all))
    else c
  }

  lemma TurnStream(c: Chunker, ret: int, out: seq<bv8>)
    requires Returned(ret, out)
    ensures ret + |c.pending| >= 0 ==>
              Stream(Turn(c, ret, out)) == Concat(c.sent) + (c.pending + out)[..ret + |c.pending|]
  {
    hide Packets, Left, Concat;
    if ret + |c.pending| >= 0 {
      var all := (c.pending + out)[..ret + |c.pending|];
      PacketsConserve(all);
      ConcatJoin(c.sent, Packets(all));
    }
  }

  /** A turn loses nothing exactly when the encoder did not fail, or failed by more than was pending. */
  lemma TurnConserves(c: Chunker, ret: int, out: seq<bv8>)
    requires Returned(ret, out)
    ensures Stream(Turn(c, ret, out)) == Stream(c) + out <==> ret >= 0 || ret + |c.pending| < 0
  {
    hide Packets, Left, Concat;
    TurnStream(c, ret, out);
    var s := ret + |c.pending|;
    if ret >= 0 {
      assert (c.pending + out)[..s] == c.pending + out;
    } else if s >= 0 {
      assert |Stream(Turn(c, ret, out))| < |Stream(c)|;
    } else {
      assert Stream(c) + out == Stream(c);
    }
  }

  datatype Output = Output(ret: int, out: seq<bv8>)

  ghost predicate Fine(outputs: seq<Output>) {
    forall i :: 0 <= i < |outputs| ==> outputs[i].ret >= 0 && Returned(outputs[i].ret, outputs[i].out)
  }

  function TurnAll(c: Chunker, outputs: seq<Output>): Chunker
    requires forall i :: 0 <= i < |outputs| ==> Returned(outputs[i].ret, outputs[i].out)
    decreases |outputs|
  {
    if outputs == [] then c else TurnAll(Turn(c, outputs[0].ret, outputs[0].out), outputs[1..])
  }

  function AllOut(outputs: seq<Output>): seq<bv8> {
    if outputs == [] then [] else outputs[0].out + AllOut(outputs[1..])
  }

  /** Over any run without failures, the packets sent and then the pending octets are all that came out,
      every packet is of one size, and less than a packet is pending. */
  lemma {:induction false} RunConserves(c: Chunker, outputs: seq<Output>)
    requires Fine(outputs) && |c.pending| < PACKET && forall i :: 0 <= i < |c.sent| ==> |c.sent[i]| == PACKET
    ensures var e := TurnAll(c, outputs);
            && Stream(e) == Stream(c) + AllOut(outputs) && |e.pending| < PACKET
            && forall i :: 0 <= i < |e.sent| ==> |e.sent[i]| == PACKET
    decreases |outputs|
  {
    if outputs == [] {
      assert Stream(c) + [] == Stream(c);
    } else {
      var next := Turn(c, outputs[0].ret, outputs[0].out);
      TurnConserves(c, outputs[0].ret, outputs[0].out);
      PacketsConserve(c.pending + outputs[0].out);
      assert (c.pending + outputs[0].out)[..outputs[0].ret + |c.pending|] == c.pending + outputs[0].out;
      RunConserves(next, outputs[1..]);
      assert Stream(c) + outputs[0].out + AllOut(outputs[1..]) == Stream(c) + AllOut(outputs);
    }
  }

  // ---------------------------------------------------------------- the program

  class Encoder {
    const buf: array<bv8>
    var offset: nat
    ghost var sent: seq<seq<bv8>>

    ghost predicate Valid()
      reads this
    {
      buf.Length == BUFFER && offset < PACKET
    }

    ghost function View(): Chunker
      requires Valid()
      reads this, buf
    {
      Chunker(buf[..offset], sent)
    }

    constructor ()
      ensures Valid() && fresh(buf) && View() == Chunker([], [])
    {
      buf := new bv8[BUFFER];
      offset := 0;
      sent := [];
    }

    method SendPackets(len: nat)
      requires len <= buf.Length
      modifies this`sent
      ensures sent == old(sent) + Packets(buf[..len])
    {
      hide Packets;
      ghost var s := buf[..len];
      var blocks := len / PACKET;
      var i := 0;
      NoPacket(s[PACKET * blocks..]);
      PacketsAfter(s, blocks);
      while i < blocks
        invariant 0 <= i <= blocks
        invariant sent == old(sent) + Packets(s)[..i]
      {
        PacketsAfter(s, i);
        FirstPacket(s[PACKET * i..]);
        var at := PACKET * i;
        TakeAt(s, at);
        assert s[at..at + PACKET] == buf[at..at + PACKET];
        sent := sent + [buf[at..at + PACKET]];
        i := i + 1;
      }
    }

    method MoveLeft(from: nat, left: nat)
      requires from + left <= buf.Length && (from == 0 || left <= from)
      modifies buf
      ensures buf[..left] == old(buf[from..from + left])
    {
      var i := 0;
      while i < left
        invariant 0 <= i <= left
        invariant forall k :: 0 <= k < i ==> buf[k] == old(buf[from + k])
        invariant forall k :: i <= k < buf.Length && (from == 0 || k >= from) ==> buf[k] == old(buf[k])
      {
        buf[i] := buf[i + from];
        i := i + 1;
      }
    }

    /** Sends the whole packets at the front of the buffer and moves what is left to its start. */
    method WriteBuffer(len: nat) returns (left: nat)
      requires len <= buf.Length
      modifies this`sent, buf
      ensures sent == old(sent) + Packets(old(buf[..len]))
      ensures left < PACKET && left <= buf.Length && buf[..left] == Left(old(buf[..len]))
    {
      hide Packets;
      ghost var s := buf[..len];
      var blocks := len / PACKET;
      left := len % PACKET;
      SendPackets(len);
      PacketsAfter(s, blocks);
      assert s[PACKET * blocks..] == buf[PACKET * blocks..PACKET * blocks + left];
      MoveLeft(PACKET * blocks, left);
    }

    /** One turn: the encoder puts its octets behind the pending ones, and there must be room for them. */
    method Step(ret: int, out: seq<bv8>)
      requires Valid() && Returned(ret, out) && offset + |out| <= buf.Length
      modifies this`offset, this`sent, buf
      ensures Valid() && View() == Turn(old(View()), ret, out)
    {
      forall k | 0 <= k < |out| {
        buf[offset + k] := out[k];
      }
      assert buf[..offset + |out|] == old(buf[..offset]) + out;
      var s := ret + offset;
      if s >= 0 {
        assert buf[..s] == (old(buf[..offset]) + out)[..s];
        offset := WriteBuffer(s);
      }
    }
  }
}
