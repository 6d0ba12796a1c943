/** The bounded queue of bytes that a ring buffer stands for. */
module Fifo {

  function Min(a: nat, b: nat): (m: nat)
    ensures m == a || m == b
    ensures m <= a && m <= b
  {
    if a < b then a else b
  }

  /** Appends the longest prefix of `data` that fits. */
  function Push<T>(capacity: nat, q: seq<T>, data: seq<T>): (r: seq<T>)
    requires |q| <= capacity
    ensures |r| <= capacity && q <= r
  {
    q + data[..Min(|data|, capacity - |q|)]
  }

  /** What a read of `cnt` bytes takes. */
  function Taken<T>(q: seq<T>, cnt: nat): seq<T> {
    q[..Min(cnt, |q|)]
  }

  /** What a read of `cnt` bytes leaves. */
  function Left<T>(q: seq<T>, cnt: nat): seq<T> {
    q[Min(cnt, |q|)..]
  }
}

/** lib/ringbuffer.cpp: the byte ring between the network side and the sound card. */
module RingBuffers {
  import opened Bits
  import opened Fifo

  /** The position `x` of a ring of `size` cells, for `x` less than two laps. */
  function Wrap(x: nat, size: nat): (i: nat)
    requires x < 2 * size
    ensures i < size
  {
    if x < size then x else x - size
  }

  /** How many cells lie from `r` up to `w`, going round. */
  function Distance(r: nat, w: nat, size: nat): (d: nat)
    requires r < size && w < size
    ensures d < size && Wrap(r + d, size) == w
  {
    if w >= r then w - r else w + size - r
  }

  /** The `n` cells from position `r`, going round. */
  function Window(cells: seq<bv8>, r: nat, n: nat): (s: seq<bv8>)
    requires r < |cells| && n <= |cells|
    ensures |s| == n
    ensures forall i :: 0 <= i < n ==> s[i] == cells[Wrap(r + i, |cells|)]
  {
    seq(n, i requires 0 <= i < n => cells[Wrap(r + i, |cells|)])
  }

  lemma WindowDrop(cells: seq<bv8>, r: nat, n: nat, c: nat)
    requires r < |cells| && c <= n <= |cells|
    ensures Window(cells, Wrap(r + c, |cells|), n - c) == Window(cells, r, n)[c..]
  {
  }

  lemma WindowJoin(cells: seq<bv8>, r: nat, n: nat, c: nat)
    requires r < |cells| && n + c <= |cells|
    ensures Window(cells, r, n) + Window(cells, Wrap(r + n, |cells|), c) == Window(cells, r, n + c)
  {
  }

  /** The position of byte `i` of a two-part vector. */
  function VectorCell(at0: nat, len0: nat, at1: nat, i: nat): nat {
    if i < len0 then at0 + i else at1 + (i - len0)
  }

  lemma TwoParts(room: seq<bv8>, was: seq<bv8>, mid: seq<bv8>, end: seq<bv8>, n1: nat, n2: nat)
    requires n1 + n2 <= |was| && n1 + n2 <= |room|
    requires mid == room[..0] + was[..n1] + room[n1..]
    requires end == mid[..n1] + was[n1..][..n2] + mid[n1 + n2..]
    ensures end == was[..n1 + n2] + room[n1 + n2..]
  {
  }

  class RingBuffer {
    ghost var order: nat  // size is two to this power
    var buf: array<bv8>
    var size: nat
    var sizeMask: nat
    var readPtr: nat
    var writePtr: nat

    ghost predicate Valid()
      reads this
    {
      && order >= 1 && size == Pow2(order) && sizeMask == size - 1
      && buf.Length == size
      && readPtr < size && writePtr < size
    }

    /** The unread bytes, oldest first. */
    ghost function Contents(): (s: seq<bv8>)
      requires Valid()
      reads this, buf
      ensures |s| < size
    {
      Window(buf[..], readPtr, Distance(readPtr, writePtr, size))
    }

    /** Rounds the requested size up to a power of two, at least two. */
    constructor (sz: int)
      requires sz <= 0x4000_0000  // beyond this the shift overflows an int
      ensures Valid() && fresh(buf) && Contents() == []
      ensures size >= 2 && size >= sz
      ensures size > 2 ==> size < 2 * sz
    {
      var powerOfTwo := 1;
      var shifted := 2;
      while shifted < sz
        invariant powerOfTwo >= 1 && shifted == Pow2(powerOfTwo) && shifted >= 2
        invariant shifted > 2 ==> shifted < 2 * sz
        decreases sz - shifted
      {
        powerOfTwo := powerOfTwo + 1;
        shifted := 2 * shifted;
      }
      order := powerOfTwo;
      size := shifted;
      sizeMask := shifted - 1;
      buf := new bv8[shifted];
      readPtr, writePtr := 0, 0;
    }

    method Reset()
      requires Valid()
      modifies this`readPtr, this`writePtr
      ensures Valid() && Contents() == []
    {
      readPtr := 0;
      writePtr := 0;
    }

    /** Free room; one cell always stays empty. */
    function WriteSpace(): (n: nat)
      requires Valid()
      reads this, buf
      ensures n + |Contents()| == size - 1
    {
      var w, r := writePtr, readPtr;
      if w > r then
        MaskWraps(r + size - w, order);
        BitAnd(r + size - w, sizeMask) - 1
      else if w < r then
        r - w - 1
      else
        size - 1
    }

    function ReadSpace(): (n: nat)
      requires Valid()
      reads this, buf
      ensures n == |Contents()|
    {
      var w, r := writePtr, readPtr;
      if w > r then
        w - r
      else
        MaskWraps(w + size - r, order);
        BitAnd(w + size - r, sizeMask)
    }

    /** Splits a transfer of `cnt` bytes starting at `ptr` where it meets the end of the buffer. */
    function Split(ptr: nat, cnt: nat): (p: (nat, nat))
      requires Valid() && ptr < size && cnt < size
      reads this
      ensures p.0 + p.1 == cnt && ptr + p.0 <= size && p.1 <= ptr
      ensures p.1 > 0 ==> ptr + p.0 == size
    {
      var cnt2 := ptr + cnt;
      if cnt2 > size then
        MaskWraps(cnt2, order);
        (size - ptr, BitAnd(cnt2, sizeMask))
      else
        (cnt, 0)
    }

    /** Moves the read pointer on; dropping no more than is there drops exactly that. */
    method ReadAdvance(cnt: nat)
      requires Valid()
      modifies this`readPtr
      ensures Valid() && readPtr == (old(readPtr) + cnt) % size
      ensures old(readPtr) + cnt < 2 * size ==> readPtr == Wrap(old(readPtr) + cnt, size)
      ensures cnt <= old(|Contents()|) ==> Contents() == old(Contents())[cnt..]
    {
      hide BitAnd, Pow2, Window;
      var ptr := BitAnd(readPtr + cnt, sizeMask);
      MaskIsMod(readPtr + cnt, order);
      if readPtr + cnt < 2 * size {
        MaskWraps(readPtr + cnt, order);
      }
      if cnt <= |Contents()| {
        WindowDrop(buf[..], readPtr, |Contents()|, cnt);
      }
      readPtr := ptr;
    }

    /** Moves the write pointer on, which publishes the bytes stored in the free cells it passes. */
    method WriteAdvance(cnt: nat)
      requires Valid()
      modifies this`writePtr
      ensures Valid() && writePtr == (old(writePtr) + cnt) % size
      ensures old(writePtr) + cnt < 2 * size ==> writePtr == Wrap(old(writePtr) + cnt, size)
      ensures cnt <= size - 1 - old(|Contents()|) ==>
                Contents() == old(Contents()) + Window(buf[..], old(writePtr), cnt)
    {
      hide BitAnd, Pow2, Window;
      var ptr := BitAnd(writePtr + cnt, sizeMask);
      MaskIsMod(writePtr + cnt, order);
      if writePtr + cnt < 2 * size {
        MaskWraps(writePtr + cnt, order);
      }
      if cnt <= size - 1 - |Contents()| {
        WindowJoin(buf[..], readPtr, |Contents()|, cnt);
      }
      writePtr := ptr;
    }

    /** Copies `n` contiguous bytes out to `dest[at..]` and frees their cells. */
    method TakePart(dest: array<bv8>, at: nat, n: nat)
      requires Valid() && dest != buf
      requires at + n <= dest.Length && n <= |Contents()| && readPtr + n <= size
      modifies this`readPtr, dest
      ensures Valid()
      ensures Contents() == old(Contents())[n..]
      ensures dest[..] == old(dest[..at]) + old(Contents())[..n] + old(dest[at + n..])
      ensures readPtr == Wrap(old(readPtr) + n, size)
    {
      hide BitAnd, Pow2;
      forall i | 0 <= i < n {
        dest[at + i] := buf[readPtr + i];
      }
      assert buf[readPtr..readPtr + n] == Contents()[..n];
      assert dest[at..at + n] == buf[readPtr..readPtr + n];
      assert dest[..at] == old(dest[..at]);
      assert dest[at + n..] == old(dest[at + n..]);
      assert dest[..] == dest[..at] + dest[at..at + n] + dest[at + n..];
      ReadAdvance(n);
    }

    /** Stores `data` in the contiguous free cells at the write pointer and publishes it. */
    method StorePart(data: seq<bv8>)
      requires Valid()
      requires |data| + |Contents()| < size && writePtr + |data| <= size
      modifies this`writePtr, buf
      ensures Valid()
      ensures Contents() == old(Contents()) + data
      ensures writePtr == Wrap(old(writePtr) + |data|, size)
    {
      hide BitAnd, Pow2;
      ghost var was := Contents();
      forall i | 0 <= i < |data| {
        buf[writePtr + i] := data[i];
      }
      assert Contents() == was;
      assert Window(buf[..], writePtr, |data|) == data;
      WriteAdvance(|data|);
    }

    method TakeBoth(dest: array<bv8>, n: nat)
      requires Valid() && dest != buf && n <= |Contents()| && n <= dest.Length
      modifies this`readPtr, dest
      ensures Valid() && Contents() == old(Contents())[n..]
      ensures dest[..] == old(Contents())[..n] + old(dest[..])[n..]
    {
      hide BitAnd, Pow2, Window, Distance, Split;
      ghost var was, room := Contents(), dest[..];
      var (n1, n2) := Split(readPtr, n);
      TakePart(dest, 0, n1);
      if n2 > 0 {
        ghost var mid := dest[..];
        TakePart(dest, n1, n2);
        TwoParts(room, was, mid, dest[..], n1, n2);
      }
    }

    method Read(dest: array<bv8>, cnt: nat) returns (n: nat)
      requires Valid() && dest != buf && dest.Length >= Min(cnt, |Contents()|)
      modifies this`readPtr, dest
      ensures Valid()
      ensures n == Min(cnt, |old(Contents())|)
      ensures dest[..] == old(Taken(Contents(), cnt)) + old(dest[..])[n..]
      ensures Contents() == old(Left(Contents(), cnt))
    {
      var freeCnt := ReadSpace();
      if freeCnt == 0 {
        return 0;
      }
      var toRead := if cnt > freeCnt then freeCnt else cnt;
      TakeBoth(dest, toRead);
      return toRead;
    }

    method Write(src: seq<bv8>) returns (n: nat)
      requires Valid()
      modifies this`writePtr, buf
      ensures Valid()
      ensures Contents() == Push(size - 1, old(Contents()), src)
      ensures n == |Contents()| - |old(Contents())|
    {
      hide BitAnd, Pow2, Window, Distance, Split;
      var freeCnt := WriteSpace();
      if freeCnt == 0 {
        return 0;
      }
      var toWrite := if |src| > freeCnt then freeCnt else |src|;
      var (n1, n2) := Split(writePtr, toWrite);
      StorePart(src[..n1]);
      if n2 > 0 {
        StorePart(src[n1..n1 + n2]);
        assert src[..n1] + src[n1..n1 + n2] == src[..toWrite];
      }
      return toWrite;
    }

    /** The readable bytes, as one or two stretches of the buffer. */
    method GetReadVector() returns (at0: nat, len0: nat, at1: nat, len1: nat)
      requires Valid()
      ensures at0 + len0 <= size && at1 + len1 <= size
      ensures buf[at0..at0 + len0] + buf[at1..at1 + len1] == Contents()
    {
      var freeCnt := ReadSpace();
      at0 := readPtr;
      at1 := 0;
      var (n1, n2) := Split(readPtr, freeCnt);
      len0, len1 := n1, n2;
    }

    /** The writable cells, as one or two stretches of the buffer, in the order they will be read. */
    method GetWriteVector() returns (at0: nat, len0: nat, at1: nat, len1: nat)
      requires Valid()
      ensures at0 + len0 <= size && at1 + len1 <= size
      ensures len0 + len1 == size - 1 - |Contents()|
      ensures forall i: nat :: i < len0 + len1 ==> VectorCell(at0, len0, at1, i) == Wrap(writePtr + i, size)
    {
      var freeCnt := WriteSpace();
      at0 := writePtr;
      at1 := 0;
      var (n1, n2) := Split(writePtr, freeCnt);
      len0, len1 := n1, n2;
    }
  }
}
