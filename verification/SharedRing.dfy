/**
 * lib/ringbuffer.cpp as it runs without a lock: one thread calls write(), another calls read().
 *
 * Every access to shared memory is a step of its own: taking the snapshot of the other side's
 * pointer, copying one byte, adding to one's own pointer, and masking it (the last two are separate
 * statements in the source). A run is any interleaving of the steps of the two threads.
 */
module SharedRing {
  import opened Bits
  import opened Fifo
  import opened Runs

  /** Where a call is. `base`, `len`: the part being moved; `rest`: the length of the second part. */
  datatype Call =
    | Idle
    | Copying(base: nat, len: nat, rest: nat, done: nat)
    | Masking(base: nat, len: nat, rest: nat)
  {
    function Moved(): nat { if Copying? then done else 0 }
    function Planned(): nat { if Copying? then len + rest else if Masking? then rest else 0 }
  }

  /** `published` and `consumed` count the bytes passed by the two pointers since the start;
      `accepted` is, call after call, what write() took on itself to store; `sent` and `got` are the
      bytes the writer has copied in and the reader has copied out. */
  datatype State = State(
    order: nat, buf: seq<bv8>, r: nat, w: nat,
    src: seq<bv8>, writer: Call, reader: Call,
    published: nat, consumed: nat, accepted: seq<bv8>, sent: seq<bv8>, got: seq<bv8>)
  {
    function Size(): nat { Pow2(order) }
  }

  datatype Action = BeginWrite(data: seq<bv8>) | StepWrite | BeginRead(cnt: nat) | StepRead

  function Init(order: nat, buf: seq<bv8>): State {
    State(order, buf, 0, 0, [], Idle, Idle, 0, 0, [], [], [])
  }

  /** writeSpace() on the two pointers as they are found; neither exceeds the size. */
  function WriteSpace(w: nat, r: nat, size: nat): int
    requires w <= size && size >= 1
  {
    if w > r then BitAnd(r + size - w, size - 1) - 1
    else if w < r then r - w - 1
    else size - 1
  }

  function ReadSpace(w: nat, r: nat, size: nat): nat
    requires r <= size && size >= 1
  {
    if w > r then w - r else BitAnd(w + size - r, size - 1)
  }

  /** Plans a transfer of `cnt` bytes at `ptr` as one part, or two when it would pass the end. */
  function Plan(ptr: nat, cnt: nat, size: nat): Call
    requires ptr <= size && size >= 1
  {
    if ptr + cnt > size then Copying(0, size - ptr, BitAnd(ptr + cnt, size - 1), 0)
    else Copying(0, cnt, 0, 0)
  }

  /** The call after its current part has been published and masked. */
  function AfterPart(c: Call): Call
    requires c.Masking?
  {
    if c.rest > 0 then Copying(c.base + c.len, c.rest, 0, 0) else Idle
  }

  predicate WellFormed(s: State) {
    |s.buf| == s.Size() && s.w <= s.Size() && s.r <= s.Size()
  }

  function StepWriter(s: State): State
    requires WellFormed(s)
  {
    match s.writer
    case Idle => s
    case Copying(base, len, rest, done) =>
      if done < len then
        if s.w + done < |s.buf| && base + done < |s.src| then
          s.(buf := s.buf[s.w + done := s.src[base + done]],
             writer := Copying(base, len, rest, done + 1),
             sent := s.sent + [s.src[base + done]])
        else s
      else if s.w + len <= s.Size() then
        s.(w := s.w + len, writer := Masking(base, len, rest), published := s.published + len)
      else s
    case Masking(base, len, rest) =>
      s.(w := BitAnd(s.w, s.Size() - 1), writer := AfterPart(s.writer))
  }

  function StepReader(s: State): State
    requires WellFormed(s)
  {
    match s.reader
    case Idle => s
    case Copying(base, len, rest, done) =>
      if done < len then
        if s.r + done < |s.buf| then
          s.(reader := Copying(base, len, rest, done + 1), got := s.got + [s.buf[s.r + done]])
        else s
      else if s.r + len <= s.Size() then
        s.(r := s.r + len, reader := Masking(base, len, rest), consumed := s.consumed + len)
      else s
    case Masking(base, len, rest) =>
      s.(r := BitAnd(s.r, s.Size() - 1), reader := AfterPart(s.reader))
  }

  /** One step of one thread; a step that is not enabled changes nothing. */
  function Next(s: State, a: Action): State {
    if !WellFormed(s) then s else
    match a
    case BeginWrite(data) =>
      var free := WriteSpace(s.w, s.r, s.Size());
      if !s.writer.Idle? || free <= 0 then s
      else
        var toWrite := Min(|data|, free);
        s.(src := data, writer := Plan(s.w, toWrite, s.Size()), accepted := s.accepted + data[..toWrite])
    case StepWrite => StepWriter(s)
    case BeginRead(cnt) =>
      var avail := ReadSpace(s.w, s.r, s.Size());
      if !s.reader.Idle? || avail == 0 then s
      else s.(reader := Plan(s.r, Min(cnt, avail), s.Size()))
    case StepRead => StepReader(s)
  }

  function Exec(s: State, run: seq<Action>): State {
    Fold(Next, s, run)
  }

  // ---------------------------------------------------------------- the invariant

  /** A pointer against the count of bytes it has passed: masked, or caught before its masking at
      the very end of the buffer. */
  ghost predicate PointerAt(ptr: nat, count: nat, c: Call, size: nat)
    requires size > 0
  {
    || ptr == count % size
    || (c.Masking? && ptr == size && count % size == 0)
  }

  /** A part never runs past the end of the buffer, and a second part starts the buffer afresh. */
  ghost predicate PartFits(ptr: nat, c: Call, size: nat) {
    match c
    case Idle => true
    case Copying(base, len, rest, done) => done <= len && ptr + len <= size && (rest > 0 ==> ptr + len == size)
    case Masking(base, len, rest) => rest > 0 ==> ptr == size
  }

  /** What is left to copy of the current write. */
  ghost predicate StillToCopy(c: Call, src: seq<bv8>, left: seq<bv8>) {
    match c
    case Idle => left == []
    case Copying(base, len, rest, done) =>
      done <= len && base + len + rest <= |src| && left == src[base + done..base + len + rest]
    case Masking(base, len, rest) =>
      base + len + rest <= |src| && left == src[base + len..base + len + rest]
  }

  ghost predicate Inv(s: State) {
    var size := s.Size();
    && WellFormed(s) && size >= 2
    && PointerAt(s.w, s.published, s.writer, size)
    && PointerAt(s.r, s.consumed, s.reader, size)
    && PartFits(s.w, s.writer, size)
    && PartFits(s.r, s.reader, size)
    && s.sent <= s.accepted && StillToCopy(s.writer, s.src, s.accepted[|s.sent|..])
    && s.consumed + s.reader.Planned() <= s.published
    && s.published + s.writer.Planned() < s.consumed + size
    && |s.sent| == s.published + s.writer.Moved()
    && |s.got| == s.consumed + s.reader.Moved()
    && s.got == s.sent[..|s.got|]
    && CellsHoldUnread(s)
  }

  /** Every byte copied in and not yet consumed is still in its cell. */
  ghost predicate CellsHoldUnread(s: State) {
    && |s.buf| == s.Size()
    && forall i: nat :: s.consumed <= i < |s.sent| ==> s.buf[i % s.Size()] == s.sent[i]
  }

  /** What the two threads rely on: the bytes read are, in order, the first of the bytes the calls of
      write() accepted, each of them published before it was read. */
  ghost predicate Safe(s: State) {
    && s.got <= s.sent <= s.accepted
    && |s.got| <= s.published <= |s.sent|
    && (s.writer.Idle? ==> s.sent == s.accepted)
    && s.published < s.consumed + s.Size()
  }

  lemma InvIsSafe(s: State)
    requires Inv(s)
    ensures Safe(s)
  {
  }

  lemma InitInv(order: nat, buf: seq<bv8>)
    requires order >= 1 && |buf| == Pow2(order)
    ensures Inv(Init(order, buf))
  {
  }

  /** How far two counters are apart, told from their remainders. */
  lemma CountersApart(c: nat, p: nat, size: nat)
    requires size > 0 && c <= p < c + size
    ensures p - c == if p % size >= c % size then p % size - c % size else p % size + size - c % size
  {
    var d := p / size - c / size;
    assert p - c == d * size + (p % size - c % size);
    MulAtLeast(d, size);
    MulAtLeast(d - 1, size);
    assert d * size == (d - 1) * size + size;
  }

  /** writeSpace() computed from masked pointers, or with the reader's caught unmasked at the end. */
  lemma FreeSpace(w: nat, r: nat, c: nat, p: nat, order: nat)
    requires order >= 1 && c <= p < c + Pow2(order)
    requires w == p % Pow2(order)
    requires r == c % Pow2(order) || (r == Pow2(order) && c % Pow2(order) == 0)
    ensures WriteSpace(w, r, Pow2(order)) == Pow2(order) - 1 - (p - c)
  {
    CountersApart(c, p, Pow2(order));
    if w > r {
      MaskWraps(r + Pow2(order) - w, order);
    }
  }

  /** readSpace() computed from masked pointers, or with the writer's caught unmasked at the end. */
  lemma AvailableSpace(w: nat, r: nat, c: nat, p: nat, order: nat)
    requires order >= 1 && c <= p < c + Pow2(order)
    requires w == p % Pow2(order) || (w == Pow2(order) && p % Pow2(order) == 0)
    requires r == c % Pow2(order)
    ensures ReadSpace(w, r, Pow2(order)) == if w == Pow2(order) && r == 0 then Pow2(order) else p - c
    ensures w == Pow2(order) && r == 0 ==> p == c
  {
    CountersApart(c, p, Pow2(order));
    if w <= r {
      MaskWraps(w + Pow2(order) - r, order);
    }
  }

  lemma FreeIsExact(s: State)
    requires Inv(s) && s.writer.Idle?
    ensures WriteSpace(s.w, s.r, s.Size()) == s.Size() - 1 - (s.published - s.consumed)
  {
    FreeSpace(s.w, s.r, s.consumed, s.published, s.order);
  }

  lemma AvailableIsExact(s: State)
    requires Inv(s) && s.reader.Idle?
    ensures ReadSpace(s.w, s.r, s.Size()) ==
            if s.w == s.Size() && s.r == 0 then s.Size() else s.published - s.consumed
    ensures s.w == s.Size() && s.r == 0 ==> s.published == s.consumed
  {
    AvailableSpace(s.w, s.r, s.consumed, s.published, s.order);
  }

  lemma PlanFits(ptr: nat, cnt: nat, order: nat)
    requires ptr < Pow2(order) && cnt < Pow2(order)
    ensures PartFits(ptr, Plan(ptr, cnt, Pow2(order)), Pow2(order))
    ensures Plan(ptr, cnt, Pow2(order)).Planned() == cnt
  {
    if ptr + cnt > Pow2(order) {
      MaskWraps(ptr + cnt, order);
    }
  }

  // ---------------------------------------------------------------- every step keeps the invariant

  lemma BeginWriteKeeps(s: State, data: seq<bv8>)
    requires Inv(s)
    ensures Inv(Next(s, BeginWrite(data)))
  {
    hide Pow2, BitAnd, WriteSpace;
    var free := WriteSpace(s.w, s.r, s.Size());
    if s.writer.Idle? && free > 0 {
      FreeIsExact(s);
      PlanFits(s.w, Min(|data|, free), s.order);
    }
  }

  /** The cell the writer is about to fill holds no byte that is still to be read. */
  lemma WriterAvoidsUnread(s: State, i: nat)
    requires Inv(s) && s.writer.Copying? && s.writer.done < s.writer.len
    requires s.consumed <= i < |s.sent|
    ensures i % s.Size() != s.w + s.writer.done
    ensures |s.sent| % s.Size() == s.w + s.writer.done
  {
    ModAdd(s.published, s.writer.done, s.Size());
    ModDistinct(i, |s.sent|, s.Size());
  }

  lemma OneLess(accepted: seq<bv8>, sent: seq<bv8>, src: seq<bv8>, from: nat, end: nat)
    requires sent <= accepted && from < end <= |src| && accepted[|sent|..] == src[from..end]
    ensures sent + [src[from]] <= accepted
    ensures accepted[|sent| + 1..] == src[from + 1..end]
  {
    assert accepted[|sent|..][0] == accepted[|sent|];
    assert accepted[|sent| + 1..] == accepted[|sent|..][1..];
  }

  lemma CopyInKeepsCells(s: State, i: nat)
    requires Inv(s) && s.writer.Copying? && s.writer.done < s.writer.len
    requires s.consumed <= i < |StepWriter(s).sent|
    ensures StepWriter(s).buf[i % s.Size()] == StepWriter(s).sent[i]
  {
    if i < |s.sent| {
      WriterAvoidsUnread(s, i);
    } else {
      ModAdd(s.published, s.writer.done, s.Size());
    }
  }

  lemma AllCellsKeep(s: State)
    requires Inv(s) && s.writer.Copying? && s.writer.done < s.writer.len
    ensures CellsHoldUnread(StepWriter(s))
  {
    var t := StepWriter(s);
    forall i: nat | s.consumed <= i < |t.sent|
      ensures t.buf[i % s.Size()] == t.sent[i]
    {
      CopyInKeepsCells(s, i);
    }
  }

  lemma CopyInKeepsBytes(s: State)
    requires Inv(s) && s.writer.Copying? && s.writer.done < s.writer.len
    ensures var t := StepWriter(s);
            && t.sent <= t.accepted && StillToCopy(t.writer, t.src, t.accepted[|t.sent|..])
            && t.got == t.sent[..|t.got|]
  {
    hide Pow2, BitAnd, CellsHoldUnread, PointerAt;
    var Copying(base, len, rest, done) := s.writer;
    OneLess(s.accepted, s.sent, s.src, base + done, base + len + rest);
    PrefixStays(s.sent, [s.src[base + done]], |s.got|);
  }

  lemma CopyInKeeps(s: State)
    requires Inv(s) && s.writer.Copying? && s.writer.done < s.writer.len
    ensures Inv(StepWriter(s))
  {
    hide Pow2, BitAnd, CellsHoldUnread, StillToCopy;
    CopyInKeepsBytes(s);
    AllCellsKeep(s);
  }

  lemma PrefixStays(sent: seq<bv8>, more: seq<bv8>, n: nat)
    requires n <= |sent|
    ensures (sent + more)[..n] == sent[..n]
  {
  }

  lemma PublishKeeps(s: State)
    requires Inv(s) && s.writer.Copying? && s.writer.done == s.writer.len
    ensures Inv(StepWriter(s))
  {
    ModAdd(s.published, s.writer.len, s.Size());
  }

  lemma MaskWriteKeeps(s: State)
    requires Inv(s) && s.writer.Masking?
    ensures Inv(StepWriter(s))
  {
    hide Pow2, BitAnd;
    MaskWraps(s.w, s.order);
  }

  /** The byte the reader is about to take was published, and is the next one in order. */
  lemma ReaderSeesComplete(s: State)
    requires Inv(s) && s.reader.Copying? && s.reader.done < s.reader.len
    ensures |s.got| < s.published
    ensures s.buf[s.r + s.reader.done] == s.sent[|s.got|]
  {
    ModAdd(s.consumed, s.reader.done, s.Size());
    assert s.buf[|s.got| % s.Size()] == s.sent[|s.got|];
  }

  lemma CopyOutKeeps(s: State)
    requires Inv(s) && s.reader.Copying? && s.reader.done < s.reader.len
    ensures Inv(StepReader(s))
  {
    ReaderSeesComplete(s);
  }

  lemma ConsumeKeeps(s: State)
    requires Inv(s) && s.reader.Copying? && s.reader.done == s.reader.len
    ensures Inv(StepReader(s))
  {
    ModAdd(s.consumed, s.reader.len, s.Size());
  }

  lemma MaskReadKeeps(s: State)
    requires Inv(s) && s.reader.Masking?
    ensures Inv(StepReader(s))
  {
    MaskWraps(s.r, s.order);
  }

  /** A read of something must not start while the writer's pointer stands unmasked at the end of the buffer and
      the reader's stands at the start: it would take the empty ring for a full one. */
  ghost predicate StaleSnapshot(s: State, a: Action) {
    a.BeginRead? && a.cnt > 0 && s.reader.Idle? && s.w == s.Size() && s.r == 0
  }

  /** Starting a read keeps the invariant exactly when the snapshot is not stale. */
  lemma BeginReadExact(s: State, cnt: nat)
    requires Inv(s) && s.reader.Idle?
    ensures Inv(Next(s, BeginRead(cnt))) <==> !StaleSnapshot(s, BeginRead(cnt))
  {
    AvailableIsExact(s);
    var avail := ReadSpace(s.w, s.r, s.Size());
    if !StaleSnapshot(s, BeginRead(cnt)) || cnt < s.Size() {
      PlanFits(s.r, Min(cnt, avail), s.order);
    }
  }

  lemma NextKeepsInv(s: State, a: Action)
    requires Inv(s) && !StaleSnapshot(s, a)
    ensures Inv(Next(s, a))
  {
    match a
    case BeginWrite(data) => BeginWriteKeeps(s, data);
    case StepWrite =>
      if s.writer.Masking? { MaskWriteKeeps(s); }
      else if s.writer.Copying? && s.writer.done < s.writer.len { CopyInKeeps(s); }
      else if s.writer.Copying? { PublishKeeps(s); }
    case BeginRead(cnt) =>
      if s.reader.Idle? { BeginReadExact(s, cnt); }
    case StepRead =>
      if s.reader.Masking? { MaskReadKeeps(s); }
      else if s.reader.Copying? && s.reader.done < s.reader.len { CopyOutKeeps(s); }
      else if s.reader.Copying? { ConsumeKeeps(s); }
  }

  /** A call under way always has a next step: neither thread can get stuck. */
  lemma NeverStuck(s: State)
    requires Inv(s)
    ensures !s.writer.Idle? ==> StepWriter(s) != s
    ensures !s.reader.Idle? ==> StepReader(s) != s
  {
    if s.writer.Masking? { MaskWraps(s.w, s.order); }
    if s.reader.Masking? { MaskWraps(s.r, s.order); }
  }

  // ---------------------------------------------------------------- whole runs

  ghost predicate NeverStale(s: State, run: seq<Action>)
    decreases |run|
  {
    run == [] || (!StaleSnapshot(s, run[0]) && NeverStale(Next(s, run[0]), run[1..]))
  }

  /** Nothing comes between the writer's addition to its pointer and the masking of it. */
  ghost predicate PublishesInOneStep(s: State, run: seq<Action>)
    decreases |run|
  {
    run == [] || ((s.writer.Masking? ==> run[0] == StepWrite) && PublishesInOneStep(Next(s, run[0]), run[1..]))
  }

  /** Safety over every interleaving in which no read starts on a stale snapshot. */
  lemma {:induction false} RunSafe(s: State, run: seq<Action>)
    requires Inv(s) && NeverStale(s, run)
    ensures Inv(Exec(s, run)) && Safe(Exec(s, run))
    decreases |run|
  {
    if run == [] {
      InvIsSafe(s);
    } else {
      NextKeepsInv(s, run[0]);
      RunSafe(Next(s, run[0]), run[1..]);
    }
  }

  /** If adding and masking are one store, every interleaving is safe. */
  lemma {:induction false} OneStepPublishIsSafe(s: State, run: seq<Action>)
    requires Inv(s) && PublishesInOneStep(s, run)
    ensures NeverStale(s, run) && Safe(Exec(s, run))
    decreases |run|
  {
    if run == [] {
      InvIsSafe(s);
    } else {
      NextKeepsInv(s, run[0]);
      OneStepPublishIsSafe(Next(s, run[0]), run[1..]);
    }
  }

  lemma FromTheStart(order: nat, buf: seq<bv8>, run: seq<Action>)
    requires order >= 1 && |buf| == Pow2(order)
    requires NeverStale(Init(order, buf), run)
    ensures Safe(Exec(Init(order, buf), run))
  {
    InitInv(order, buf);
    RunSafe(Init(order, buf), run);
  }

  lemma ExecTwo(s: State, a: Action, b: Action)
    ensures Exec(s, [a, b]) == Next(Next(s, a), b)
  {
    assert [a, b] == [a] + [b];
    FoldJoin(Next, s, [a], [b]);
    FoldOne(Next, s, a);
    FoldOne(Next, Next(s, a), b);
  }

  /** In every state and for every size: a read that starts on a stale snapshot takes, with its first step,
      a byte that was never published. */
  lemma StaleReadIsUnsafe(s: State, cnt: nat)
    requires Inv(s) && StaleSnapshot(s, BeginRead(cnt))
    ensures !Safe(Exec(s, [BeginRead(cnt), StepRead]))
  {
    hide Pow2, BitAnd, WriteSpace, ReadSpace;
    ExecTwo(s, BeginRead(cnt), StepRead);
    AvailableIsExact(s);
    var t := Next(s, BeginRead(cnt));
    assert t.reader == Copying(0, Min(cnt, s.Size()), 0, 0) && t.published == s.published && |t.got| == s.published;
    assert |StepReader(t).got| == s.published + 1;
  }

  /** So starting a read and taking its first byte is safe exactly when the snapshot is not stale. */
  lemma ReadSafeExactly(s: State, cnt: nat)
    requires Inv(s)
    ensures Safe(Exec(s, [BeginRead(cnt), StepRead])) <==> !StaleSnapshot(s, BeginRead(cnt))
  {
    hide Inv, Safe, StaleSnapshot, Next;
    if StaleSnapshot(s, BeginRead(cnt)) {
      StaleReadIsUnsafe(s, cnt);
    } else {
      ExecTwo(s, BeginRead(cnt), StepRead);
      NextKeepsInv(s, BeginRead(cnt));
      StepReadNotStale(Next(s, BeginRead(cnt)));
      NextKeepsInv(Next(s, BeginRead(cnt)), StepRead);
      InvIsSafe(Exec(s, [BeginRead(cnt), StepRead]));
    }
  }

  lemma StepReadNotStale(s: State)
    ensures !StaleSnapshot(s, StepRead)
  {
  }

  /** At no point of the run would the reader's next step take something it must not. */
  ghost predicate AlwaysSafe(s: State, run: seq<Action>)
    decreases |run|
  {
    Safe(s) && Safe(Next(s, StepRead)) && (run == [] || AlwaysSafe(Next(s, run[0]), run[1..]))
  }

  /** Every interleaving is safe throughout exactly when no read starts on a stale snapshot. */
  lemma {:induction false} SafeExactly(s: State, run: seq<Action>)
    requires Inv(s)
    ensures AlwaysSafe(s, run) <==> NeverStale(s, run)
    decreases |run|
  {
    hide Inv, Safe, StaleSnapshot, Next;
    InvIsSafe(s);
    StepReadNotStale(s);
    NextKeepsInv(s, StepRead);
    InvIsSafe(Next(s, StepRead));
    if run != [] {
      if StaleSnapshot(s, run[0]) {
        StaleIsRead(s, run[0]);
        ReadSafeExactly(s, run[0].cnt);
        ExecTwo(s, run[0], StepRead);
        NotAlwaysSafe(Next(s, run[0]), run[1..]);
      } else {
        NextKeepsInv(s, run[0]);
        SafeExactly(Next(s, run[0]), run[1..]);
      }
    }
  }

  lemma StaleIsRead(s: State, a: Action)
    requires StaleSnapshot(s, a)
    ensures a.BeginRead?
  {
  }

  lemma NotAlwaysSafe(s: State, run: seq<Action>)
    ensures !Safe(Next(s, StepRead)) ==> !AlwaysSafe(s, run)
  {
    hide Safe, Next;
  }

  /** One write of one byte that reaches its end, then one read of it. */
  const ONE_WRITE: seq<Action> := [StepWrite, StepWrite, StepWrite]
  const ONE_READ: seq<Action> := [BeginRead(1), StepRead, StepRead, StepRead]

  lemma WriteOne(a: bv8)
    ensures Exec(Next(Init(1, [0, 0]), BeginWrite([a])), ONE_WRITE) ==
            State(1, [a, 0], 0, 1, [a], Idle, Idle, 1, 0, [a], [a], [])
  {
    MaskWraps(1, 1);
    ExecThree(Next(Init(1, [0, 0]), BeginWrite([a])), ONE_WRITE);
  }

  lemma ReadOne(a: bv8)
    ensures Exec(State(1, [a, 0], 0, 1, [a], Idle, Idle, 1, 0, [a], [a], []), ONE_READ) ==
            State(1, [a, 0], 1, 1, [a], Idle, Idle, 1, 1, [a], [a], [a])
  {
    var s := State(1, [a, 0], 0, 1, [a], Idle, Idle, 1, 0, [a], [a], []);
    MaskWraps(1, 1);
    ExecThree(Next(s, ONE_READ[0]), ONE_READ[1..]);
  }

  /** The second write stops between the addition and the masking. */
  lemma WriteHalf(a: bv8, b: bv8)
    ensures Exec(State(1, [a, 0], 1, 1, [a], Idle, Idle, 1, 1, [a], [a], [a]),
                 [BeginWrite([b]), StepWrite, StepWrite]) ==
            State(1, [a, b], 1, 2, [b], Masking(0, 1, 0), Idle, 2, 1, [a, b], [a, b], [a])
  {
    var s := State(1, [a, 0], 1, 1, [a], Idle, Idle, 1, 1, [a], [a], [a]);
    MaskWraps(2, 1);
    ExecThree(s, [BeginWrite([b]), StepWrite, StepWrite]);
  }

  lemma ReadSecond(a: bv8, b: bv8)
    ensures Exec(State(1, [a, b], 1, 2, [b], Masking(0, 1, 0), Idle, 2, 1, [a, b], [a, b], [a]), ONE_READ) ==
            State(1, [a, b], 0, 2, [b], Masking(0, 1, 0), Idle, 2, 2, [a, b], [a, b], [a, b])
  {
    var s := State(1, [a, b], 1, 2, [b], Masking(0, 1, 0), Idle, 2, 1, [a, b], [a, b], [a]);
    MaskWraps(2, 1);
    ExecThree(Next(s, ONE_READ[0]), ONE_READ[1..]);
  }

  lemma ReadStale(a: bv8, b: bv8)
    ensures Exec(State(1, [a, b], 0, 2, [b], Masking(0, 1, 0), Idle, 2, 2, [a, b], [a, b], [a, b]),
                 [BeginRead(2), StepRead, StepRead]) ==
            State(1, [a, b], 0, 2, [b], Masking(0, 1, 0), Copying(0, 2, 0, 2), 2, 2, [a, b], [a, b], [a, b, a, b])
  {
    var s := State(1, [a, b], 0, 2, [b], Masking(0, 1, 0), Idle, 2, 2, [a, b], [a, b], [a, b]);
    ExecThree(s, [BeginRead(2), StepRead, StepRead]);
  }

  /** The condition is needed: on a ring of two cells, two one-byte writes and a read that starts
      between the addition and the masking of the second write hand the reader four bytes of two. */
  lemma StaleSnapshotBreaksTheRing(a: bv8, b: bv8)
    ensures exists run ::
      var t := Exec(Init(1, [0, 0]), run);
      !Safe(t) && t.accepted == [a, b] && t.got == [a, b, a, b]
  {
    var s0 := Init(1, [0, 0]);
    WriteOne(a);
    FoldOne(Next, s0, BeginWrite([a]));
    var run1 := Follow(s0, [BeginWrite([a])], ONE_WRITE);
    ReadOne(a);
    var run2 := Follow(s0, run1, ONE_READ);
    WriteHalf(a, b);
    var run3 := Follow(s0, run2, [BeginWrite([b]), StepWrite, StepWrite]);
    ReadSecond(a, b);
    var run4 := Follow(s0, run3, ONE_READ);
    ReadStale(a, b);
    var run5 := Follow(s0, run4, [BeginRead(2), StepRead, StepRead]);
    assert !Safe(Exec(s0, run5));
  }

  lemma Follow(s: State, run: seq<Action>, more: seq<Action>) returns (all: seq<Action>)
    ensures Exec(s, all) == Exec(Exec(s, run), more)
  {
    FoldJoin(Next, s, run, more);
    all := run + more;
  }

  lemma ExecThree(s: State, run: seq<Action>)
    requires |run| == 3
    ensures Exec(s, run) == Next(Next(Next(s, run[0]), run[1]), run[2])
  {
    var s1, s2 := Next(s, run[0]), Next(Next(s, run[0]), run[1]);
    FoldJoin(Next, s, [run[0]], [run[1]]);
    FoldJoin(Next, s, [run[0]] + [run[1]], [run[2]]);
    FoldOne(Next, s, run[0]);
    FoldOne(Next, s1, run[1]);
    FoldOne(Next, s2, run[2]);
    assert run == [run[0]] + [run[1]] + [run[2]];
  }
}
