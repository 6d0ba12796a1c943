/**
 * lib/codec.cpp, AudioOutputCallback on values: datagrams into the ring, prefill, phase detector,
 * muting and playing. Decoding and resampling are foreign: every datagram comes with the bytes that
 * its frame would yield.
 */
module Playouts {
  import opened Words
  import opened Fifo
  import opened Runs
  import opened MeterAverages
  import opened Receiver
  import opened RtpHeaders
  import opened Streams
  import Wire

  const RUNT := 8        // datagrams up to this size are ignored
  const STEP := 400.0
  const PERIODS := 500

  datatype Datagram = Datagram(size: nat, packet: Packet, pcm: seq<bv8>)

  datatype Playout = Playout(recv: Recv, ring: seq<bv8>, window: seq<real>, offset: real, locked: bool)

  /** What stays the same while connected. */
  datatype Setup = Setup(channels: nat, setpoint: nat, capacity: nat)

  /** One callback of the sound card, with the datagrams that are waiting. */
  datatype Call = Call(frames: nat, loopback: bool, hasOutput: bool, datagrams: seq<Datagram>)

  datatype Sound = Untouched | Muted | Played(bytes: seq<bv8>)

  ghost predicate Sized(c: Setup, s: Playout) {
    |s.ring| <= c.capacity
  }

  // ---------------------------------------------------------------- datagrams into the ring

  /** Whether the datagram's frame is decoded. */
  predicate Decodes(r: Recv, d: Datagram) {
    d.size > RUNT && Accepts(r, d.packet) && d.packet.frame != []
  }

  function Listen(r: Recv, d: Datagram): Recv {
    if d.size > RUNT then Receive(r, d.packet) else r
  }

  function Take(c: Setup, s: Playout, d: Datagram): (t: Playout)
    requires Sized(c, s)
    ensures Sized(c, t)
  {
    if Decodes(s.recv, d) then
      s.(recv := Listen(s.recv, d), offset := Mean(s.window), ring := Push(c.capacity, s.ring, d.pcm))
    else
      s.(recv := Listen(s.recv, d))
  }

  function TakeAll(c: Setup, s: Playout, ds: seq<Datagram>): (t: Playout)
    requires Sized(c, s)
    ensures Sized(c, t)
    decreases |ds|
  {
    if ds == [] then s else TakeAll(c, Take(c, s, ds[0]), ds[1..])
  }

  /** The bytes that the ring accepted. */
  function Gained(c: Setup, s: Playout, ds: seq<Datagram>): seq<bv8>
    requires Sized(c, s)
    decreases |ds|
  {
    if ds == [] then []
    else Take(c, s, ds[0]).ring[|s.ring|..] + Gained(c, Take(c, s, ds[0]), ds[1..])
  }

  lemma {:induction false} TakeAllGains(c: Setup, s: Playout, ds: seq<Datagram>)
    requires Sized(c, s)
    ensures TakeAll(c, s, ds).ring == s.ring + Gained(c, s, ds)
    ensures TakeAll(c, s, ds).locked == s.locked && TakeAll(c, s, ds).window == s.window
    decreases |ds|
  {
    hide Receive, Decodes, Mean;
    if ds != [] {
      TakeAllGains(c, Take(c, s, ds[0]), ds[1..]);
    }
  }

  // ---------------------------------------------------------------- a callback

  /** Bytes that a callback plays. */
  function Block(c: Setup, call: Call): nat {
    2 * call.frames * c.channels
  }

  /** A callback that fills the card's buffer from the ring. */
  predicate Plays(call: Call) {
    !call.loopback && call.hasOutput
  }

  /** Still filling up before sound. */
  predicate Prefilling(c: Setup, s: Playout, call: Call) {
    |s.ring| < Block(c, call) * c.setpoint && !s.locked
  }

  function Detector(c: Setup, s: Playout, call: Call): real {
    if |s.ring| < Block(c, call) * c.setpoint then STEP else -STEP
  }

  /** Prefill, phase detector and output, once the datagrams are in. */
  function Emit(c: Setup, s: Playout, call: Call): (Playout, Sound) {
    if Prefilling(c, s, call) then (s, Muted)
    else
      var s1 := s.(window := LastOf(s.window + [Detector(c, s, call)], PERIODS));
      if |s.ring| >= Block(c, call) then
        (s1.(ring := Left(s.ring, Block(c, call)), locked := true), Played(Taken(s.ring, Block(c, call))))
      else
        (s1.(locked := false), Muted)
  }

  function Callback(c: Setup, s: Playout, call: Call): (o: (Playout, Sound))
    requires Sized(c, s)
    ensures Sized(c, o.0)
  {
    if call.loopback then
      if call.datagrams == [] then (s, Untouched) else (s.(locked := false), Muted)
    else if !call.hasOutput then (s, Untouched)
    else Emit(c, TakeAll(c, s, call.datagrams), call)
  }

  function CallAll(c: Setup, s: Playout, calls: seq<Call>): (t: Playout)
    requires Sized(c, s)
    ensures Sized(c, t)
    decreases |calls|
  {
    if calls == [] then s else CallAll(c, Callback(c, s, calls[0]).0, calls[1..])
  }

  function Heard(sound: Sound): seq<bv8> {
    if sound.Played? then sound.bytes else []
  }

  /** All unmuted output, in order. */
  function AllHeard(c: Setup, s: Playout, calls: seq<Call>): seq<bv8>
    requires Sized(c, s)
    decreases |calls|
  {
    if calls == [] then []
    else Heard(Callback(c, s, calls[0]).1) + AllHeard(c, Callback(c, s, calls[0]).0, calls[1..])
  }

  function Accepted(c: Setup, s: Playout, call: Call): seq<bv8>
    requires Sized(c, s)
  {
    if Plays(call) then Gained(c, s, call.datagrams) else []
  }

  /** All bytes that the ring accepted, in order. */
  function AllAccepted(c: Setup, s: Playout, calls: seq<Call>): seq<bv8>
    requires Sized(c, s)
    decreases |calls|
  {
    if calls == [] then []
    else Accepted(c, s, calls[0]) + AllAccepted(c, Callback(c, s, calls[0]).0, calls[1..])
  }

  lemma EmitConserves(c: Setup, s: Playout, call: Call)
    ensures Heard(Emit(c, s, call).1) + Emit(c, s, call).0.ring == s.ring
  {
  }

  lemma CallbackConserves(c: Setup, s: Playout, call: Call)
    requires Sized(c, s)
    ensures Heard(Callback(c, s, call).1) + Callback(c, s, call).0.ring == s.ring + Accepted(c, s, call)
  {
    hide Emit, TakeAll, Gained;
    TakeAllGains(c, s, call.datagrams);
    EmitConserves(c, TakeAll(c, s, call.datagrams), call);
  }

  /** Over any run, all that was heard and then what is in the ring is what was in the ring and then all
      that it accepted: nothing is lost, repeated or reordered between network and card. */
  lemma {:induction false} RunConserves(c: Setup, s: Playout, calls: seq<Call>)
    requires Sized(c, s)
    ensures AllHeard(c, s, calls) + CallAll(c, s, calls).ring == s.ring + AllAccepted(c, s, calls)
    decreases |calls|
  {
    hide Callback, Accepted;
    if calls != [] {
      var call, next := calls[0], Callback(c, s, calls[0]).0;
      var heard, more := Heard(Callback(c, s, call).1), AllHeard(c, next, calls[1..]);
      CallbackConserves(c, s, call);
      RunConserves(c, next, calls[1..]);
      assert (heard + more) + CallAll(c, next, calls[1..]).ring == heard + (more + CallAll(c, next, calls[1..]).ring);
      assert heard + (next.ring + AllAccepted(c, next, calls[1..])) ==
          (heard + next.ring) + AllAccepted(c, next, calls[1..]);
    }
  }

  // ---------------------------------------------------------------- muting

  /** What sounds, and when: a callback plays exactly when the ring covers it and, before the lock,
      the setpoint; playing is what locks, and every callback with an output otherwise unlocks. */
  lemma PlaysExactly(c: Setup, s: Playout, call: Call)
    requires Sized(c, s) && Plays(call)
    ensures var (next, sound), full := Callback(c, s, call), s.ring + Gained(c, s, call.datagrams);
            && (sound.Played? <==> |full| >= Block(c, call) && (s.locked || |full| >= Block(c, call) * c.setpoint))
            && (sound.Played? ==> |sound.bytes| == Block(c, call) && sound.bytes <= full)
            && (sound.Played? ==> next.ring == full[Block(c, call)..])
            && (!sound.Played? ==> sound == Muted && next.ring == full)
            && next.locked == sound.Played?
  {
    hide TakeAll, Gained, Block;
    TakeAllGains(c, s, call.datagrams);
  }

  function Blocks(c: Setup, calls: seq<Call>): nat {
    if calls == [] then 0 else Block(c, calls[0]) + Blocks(c, calls[1..])
  }

  ghost predicate AllPlay(calls: seq<Call>) {
    forall i :: 0 <= i < |calls| ==> Plays(calls[i])
  }

  /** Every callback of the run is heard in full. */
  ghost predicate NeverMuted(c: Setup, s: Playout, calls: seq<Call>)
    requires Sized(c, s)
    decreases |calls|
  {
    calls == [] || (Callback(c, s, calls[0]).1.Played? && NeverMuted(c, Callback(c, s, calls[0]).0, calls[1..]))
  }

  /** While locked, whatever the ring holds plays without a gap, should no more arrive. */
  lemma {:induction false} StaysUnmuted(c: Setup, s: Playout, calls: seq<Call>)
    requires Sized(c, s) && AllPlay(calls) && s.locked && Blocks(c, calls) <= |s.ring|
    ensures NeverMuted(c, s, calls)
    decreases |calls|
  {
    hide Callback, Block;
    if calls != [] {
      PlaysExactly(c, s, calls[0]);
      StaysUnmuted(c, Callback(c, s, calls[0]).0, calls[1..]);
    }
  }

  ghost predicate SameFrames(calls: seq<Call>, frames: nat) {
    forall i :: 0 <= i < |calls| ==> calls[i].frames == frames
  }

  lemma {:induction false} BlocksOfSame(c: Setup, calls: seq<Call>, call: Call)
    requires SameFrames(calls, call.frames)
    ensures Blocks(c, calls) == Block(c, call) * |calls|
  {
    if calls != [] {
      BlocksOfSame(c, calls[1..], call);
    }
  }

  /** From the callback that locks on, sound does not stop for as many callbacks as the setpoint says
      (and at least that one), whatever arrives or does not. */
  lemma LockLastsSetpoint(c: Setup, s: Playout, calls: seq<Call>)
    requires Sized(c, s) && calls != [] && AllPlay(calls) && SameFrames(calls, calls[0].frames)
    requires !s.locked && Callback(c, s, calls[0]).0.locked
    requires |calls| <= c.setpoint || |calls| == 1
    ensures NeverMuted(c, s, calls)
  {
    hide Callback, Block, Gained;
    var next, b := Callback(c, s, calls[0]).0, Block(c, calls[0]);
    PlaysExactly(c, s, calls[0]);
    BlocksOfSame(c, calls[1..], calls[0]);
    if |calls| > 1 {
      Covers(b, |calls|, c.setpoint);
      StaysUnmuted(c, next, calls[1..]);
    }
  }

  lemma Covers(b: nat, n: nat, setpoint: nat)
    requires 1 <= n <= setpoint
    ensures b * (n - 1) <= b * setpoint - b
  {
  }

  function SilentNetwork(frames: nat, n: nat): seq<Call> {
    seq(n, _ => Call(frames, false, true, []))
  }

  lemma SilentNetworkHead(frames: nat, n: nat)
    requires n > 0
    ensures SilentNetwork(frames, n) != [] && SilentNetwork(frames, n)[0] == Call(frames, false, true, [])
    ensures SilentNetwork(frames, n)[1..] == SilentNetwork(frames, n - 1)
  {
  }

  lemma {:induction false} StaysMuted(c: Setup, s: Playout, frames: nat, n: nat)
    requires Sized(c, s) && !s.locked && |s.ring| < 2 * frames * c.channels
    ensures !CallAll(c, s, SilentNetwork(frames, n)).locked
    decreases n
  {
    hide Callback;
    if n > 0 {
      SilentNetworkHead(frames, n);
      PlaysExactly(c, s, Call(frames, false, true, []));
      StaysMuted(c, Callback(c, s, Call(frames, false, true, [])).0, frames, n - 1);
    }
  }

  lemma OneLess(b: nat, n: nat, len: nat)
    requires b > 0 && n > 0
    ensures b * n <= len <==> b <= len && b * (n - 1) <= len - b
  {
  }

  /** With a silent network the lock lasts exactly as long as whole blocks remain. */
  lemma {:induction false} StarvesExactly(c: Setup, s: Playout, frames: nat, n: nat)
    requires Sized(c, s) && s.locked && 2 * frames * c.channels > 0
    ensures CallAll(c, s, SilentNetwork(frames, n)).locked <==> 2 * frames * c.channels * n <= |s.ring|
    decreases n
  {
    hide Callback;
    if n > 0 {
      var call := Call(frames, false, true, []);
      var next, b := Callback(c, s, call).0, 2 * frames * c.channels;
      SilentNetworkHead(frames, n);
      PlaysExactly(c, s, call);
      assert s.ring + Gained(c, s, []) == s.ring;
      OneLess(b, n, |s.ring|);
      if b <= |s.ring| {
        StarvesExactly(c, next, frames, n - 1);
      } else {
        StaysMuted(c, next, frames, n - 1);
      }
    }
  }

  // ---------------------------------------------------------------- the phase-locked loop

  ghost predicate PllBounded(s: Playout) {
    |s.window| <= PERIODS && Within(s.window, STEP) && -STEP <= s.offset <= STEP
  }

  /** What the resampler is asked for. */
  function Ratio(rate: real, offset: real): real
    requires rate > 0.0
  {
    (rate + offset) / rate
  }

  /** The loop as it is preset when the streams start. */
  lemma PresetIsBounded(s: Playout)
    requires s.window == Level(PERIODS, 0.0) && s.offset == 0.0
    ensures PllBounded(s)
  {
  }

  lemma {:induction false} TakeAllBounded(c: Setup, s: Playout, ds: seq<Datagram>)
    requires Sized(c, s) && PllBounded(s)
    ensures PllBounded(TakeAll(c, s, ds))
    decreases |ds|
  {
    hide Decodes, Mean, Listen;
    if ds != [] {
      MeanBounded(s.window, STEP);
      TakeAllBounded(c, Take(c, s, ds[0]), ds[1..]);
    }
  }

  lemma EmitBounded(c: Setup, s: Playout, call: Call)
    requires PllBounded(s)
    ensures PllBounded(Emit(c, s, call).0)
  {
    hide Block;
  }

  /** Over any run the offset stays within one integrator step, starting from a preset loop. */
  lemma {:induction false} OffsetStaysBounded(c: Setup, s: Playout, calls: seq<Call>)
    requires Sized(c, s) && PllBounded(s)
    ensures PllBounded(CallAll(c, s, calls))
    decreases |calls|
  {
    hide Emit, TakeAll, Within;
    if calls != [] {
      TakeAllBounded(c, s, calls[0].datagrams);
      EmitBounded(c, TakeAll(c, s, calls[0].datagrams), calls[0]);
      OffsetStaysBounded(c, Callback(c, s, calls[0]).0, calls[1..]);
    }
  }

  lemma DivideBounds(x: real, lo: real, hi: real, rate: real)
    requires rate > 0.0 && lo <= x <= hi
    ensures lo / rate <= x / rate <= hi / rate
  {
    DivideOrder(lo, x, rate);
    DivideOrder(x, hi, rate);
  }

  lemma DivideOrder(x: real, y: real, rate: real)
    requires rate > 0.0 && x <= y
    ensures x / rate <= y / rate
  {
    assert (y / rate - x / rate) * rate == y - x;
    NotNegative(y / rate - x / rate, rate);
  }

  /** And so the resampling ratio, within 400 samples a second. */
  lemma RatioStaysBounded(c: Setup, s: Playout, calls: seq<Call>, rate: real)
    requires Sized(c, s) && PllBounded(s) && rate > 0.0
    ensures (rate - STEP) / rate <= Ratio(rate, CallAll(c, s, calls).offset) <= (rate + STEP) / rate
  {
    OffsetStaysBounded(c, s, calls);
    DivideBounds(rate + CallAll(c, s, calls).offset, rate - STEP, rate + STEP, rate);
  }

  /** What the phase detector adds in a callback: nothing while prefilling. */
  function StepsOf(c: Setup, s: Playout, call: Call): seq<real>
    requires Sized(c, s)
  {
    var full := TakeAll(c, s, call.datagrams);
    if Plays(call) && !Prefilling(c, full, call) then [Detector(c, full, call)] else []
  }

  function Steps(c: Setup, s: Playout, calls: seq<Call>): seq<real>
    requires Sized(c, s)
    decreases |calls|
  {
    if calls == [] then [] else StepsOf(c, s, calls[0]) + Steps(c, Callback(c, s, calls[0]).0, calls[1..])
  }

  lemma CallbackSteps(c: Setup, s: Playout, call: Call)
    requires Sized(c, s) && |s.window| <= PERIODS
    ensures Callback(c, s, call).0.window == LastOf(s.window + StepsOf(c, s, call), PERIODS)
  {
    hide TakeAll, Block;
    TakeAllGains(c, s, call.datagrams);
    assert s.window + [] == s.window;
  }

  /** The loop integrates the last 500 detector steps, whatever has happened since it was preset. */
  lemma {:induction false} WindowIsLastSteps(c: Setup, s: Playout, calls: seq<Call>)
    requires Sized(c, s) && |s.window| <= PERIODS
    ensures CallAll(c, s, calls).window == LastOf(s.window + Steps(c, s, calls), PERIODS)
    decreases |calls|
  {
    hide Callback, StepsOf;
    if calls == [] {
      assert s.window + [] == s.window;
    } else {
      var next, steps := Callback(c, s, calls[0]).0, StepsOf(c, s, calls[0]);
      var rest := Steps(c, next, calls[1..]);
      CallbackSteps(c, s, calls[0]);
      WindowIsLastSteps(c, next, calls[1..]);
      LastOfLast(s.window + steps, rest, PERIODS);
      assert s.window + steps + rest == s.window + (steps + rest);
    }
  }

  // ---------------------------------------------------------------- what is heard is what was sent

  function PacketIn(d: Datagram): seq<Packet> {
    if d.size > RUNT then [d.packet] else []
  }

  /** The packets that reach the receiver over a run. */
  function Arrived(ds: seq<Datagram>): seq<Packet> {
    if ds == [] then [] else PacketIn(ds[0]) + Arrived(ds[1..])
  }

  function AllArrived(calls: seq<Call>): seq<Packet> {
    if calls == [] then []
    else (if Plays(calls[0]) then Arrived(calls[0].datagrams) else []) + AllArrived(calls[1..])
  }

  /** What decoding and resampling a frame start from, besides their own state: the loop's offset, and the
      sequence number that the decoder is given. */
  datatype Input = Input(frame: seq<bv8>, offset: real, last: uint16)

  function InputsOf(s: Playout, d: Datagram): seq<Input> {
    if Decodes(s.recv, d) then [Input(d.packet.frame, Mean(s.window), Listen(s.recv, d).last)] else []
  }

  /** The bytes of one datagram that the ring accepted. */
  function PiecesOf(c: Setup, s: Playout, d: Datagram): seq<seq<bv8>>
    requires Sized(c, s)
  {
    if Decodes(s.recv, d) then [Take(c, s, d).ring[|s.ring|..]] else []
  }

  function Inputs(c: Setup, s: Playout, ds: seq<Datagram>): seq<Input>
    requires Sized(c, s)
    decreases |ds|
  {
    if ds == [] then [] else InputsOf(s, ds[0]) + Inputs(c, Take(c, s, ds[0]), ds[1..])
  }

  function Pieces(c: Setup, s: Playout, ds: seq<Datagram>): seq<seq<bv8>>
    requires Sized(c, s)
    decreases |ds|
  {
    if ds == [] then [] else PiecesOf(c, s, ds[0]) + Pieces(c, Take(c, s, ds[0]), ds[1..])
  }

  /** Everything that is decoded over a run, and what the ring takes of each. */
  function AllInputs(c: Setup, s: Playout, calls: seq<Call>): seq<Input>
    requires Sized(c, s)
    decreases |calls|
  {
    if calls == [] then []
    else
      (if Plays(calls[0]) then Inputs(c, s, calls[0].datagrams) else [])
      + AllInputs(c, Callback(c, s, calls[0]).0, calls[1..])
  }

  function AllPieces(c: Setup, s: Playout, calls: seq<Call>): seq<seq<bv8>>
    requires Sized(c, s)
    decreases |calls|
  {
    if calls == [] then []
    else
      (if Plays(calls[0]) then Pieces(c, s, calls[0].datagrams) else [])
      + AllPieces(c, Callback(c, s, calls[0]).0, calls[1..])
  }

  lemma TakePieces(c: Setup, s: Playout, d: Datagram)
    requires Sized(c, s)
    ensures Concat(PiecesOf(c, s, d)) == Take(c, s, d).ring[|s.ring|..]
  {
    hide Receive, Accepts, Mean;
    assert PiecesOf(c, s, d) != [] ==> PiecesOf(c, s, d)[1..] == [];
  }

  lemma {:induction false} PiecesGained(c: Setup, s: Playout, ds: seq<Datagram>)
    requires Sized(c, s)
    ensures Concat(Pieces(c, s, ds)) == Gained(c, s, ds)
    decreases |ds|
  {
    hide Take, PiecesOf, Concat;
    ConcatNone<bv8>();
    if ds != [] {
      TakePieces(c, s, ds[0]);
      PiecesGained(c, Take(c, s, ds[0]), ds[1..]);
      ConcatJoin(PiecesOf(c, s, ds[0]), Pieces(c, Take(c, s, ds[0]), ds[1..]));
    }
  }

  lemma ConcatNone<T>()
    ensures Concat<T>([]) == []
  {
  }

  /** All pieces together are all bytes accepted. */
  lemma {:induction false} PiecesAccepted(c: Setup, s: Playout, calls: seq<Call>)
    requires Sized(c, s)
    ensures Concat(AllPieces(c, s, calls)) == AllAccepted(c, s, calls)
    decreases |calls|
  {
    hide Callback, Concat, Pieces, Gained;
    ConcatNone<bv8>();
    if calls != [] {
      var call, next := calls[0], Callback(c, s, calls[0]).0;
      var pieces := if Plays(call) then Pieces(c, s, call.datagrams) else [];
      PiecesGained(c, s, call.datagrams);
      PiecesAccepted(c, next, calls[1..]);
      ConcatJoin(pieces, AllPieces(c, next, calls[1..]));
    }
  }

  function FramesOf(ins: seq<Input>): seq<seq<bv8>> {
    if ins == [] then [] else [ins[0].frame] + FramesOf(ins[1..])
  }

  lemma {:induction false} FramesOfJoin(a: seq<Input>, b: seq<Input>)
    ensures FramesOf(a + b) == FramesOf(a) + FramesOf(b)
  {
    if a == [] {
      assert a + b == b;
    } else {
      FramesOfJoin(a[1..], b);
      assert (a + b)[0] == a[0] && (a + b)[1..] == a[1..] + b;
      Regroup([a[0].frame], FramesOf(a[1..]), FramesOf(b));
    }
  }

  function IfAny(frame: seq<bv8>): seq<seq<bv8>> {
    if frame == [] then [] else [frame]
  }

  /** Frames with something in them; the others are not decoded. */
  function NonEmpty(frames: seq<seq<bv8>>): seq<seq<bv8>> {
    if frames == [] then [] else IfAny(frames[0]) + NonEmpty(frames[1..])
  }

  lemma {:induction false} NonEmptyJoin(a: seq<seq<bv8>>, b: seq<seq<bv8>>)
    ensures NonEmpty(a + b) == NonEmpty(a) + NonEmpty(b)
  {
    hide IfAny;
    if a == [] {
      assert a + b == b;
    } else {
      NonEmptyJoin(a[1..], b);
      assert (a + b)[0] == a[0] && (a + b)[1..] == a[1..] + b;
      Regroup(IfAny(a[0]), NonEmpty(a[1..]), NonEmpty(b));
    }
  }

  /** One after the other: the packets join, and so do the frames to decode. */
  lemma JoinArrivals(r: Recv, a: seq<Packet>, b: seq<Packet>)
    ensures ReceiveAll(r, a + b) == ReceiveAll(ReceiveAll(r, a), b)
    ensures NonEmpty(Frames(r, a + b)) == NonEmpty(Frames(r, a)) + NonEmpty(Frames(ReceiveAll(r, a), b))
  {
    hide Receive, Accepts, Frames, NonEmpty;
    FoldJoin(Receive, r, a, b);
    FramesJoin(r, a, b);
    NonEmptyJoin(Frames(r, a), Frames(ReceiveAll(r, a), b));
  }

  lemma OneArrival(s: Playout, d: Datagram)
    ensures FramesOf(InputsOf(s, d)) == NonEmpty(Frames(s.recv, Arrived([d])))
    ensures Listen(s.recv, d) == ReceiveAll(s.recv, Arrived([d]))
  {
    hide Receive, Accepts, Mean;
    if d.size > RUNT {
      assert Arrived([d]) == [d.packet];
      FoldOne(Receive, s.recv, d.packet);
      assert Frames(s.recv, [d.packet]) == if Accepts(s.recv, d.packet) then [d.packet.frame] else [];
    }
  }

  lemma NothingArrives(r: Recv)
    ensures NonEmpty(Frames(r, [])) == [] && ReceiveAll(r, []) == r
  {
  }

  lemma ArrivedHead(ds: seq<Datagram>)
    requires ds != []
    ensures Arrived(ds) == Arrived([ds[0]]) + Arrived(ds[1..])
  {
    hide PacketIn;
    assert [ds[0]][1..] == [];
  }

  lemma {:induction false} InputsArrived(c: Setup, s: Playout, ds: seq<Datagram>)
    requires Sized(c, s)
    ensures FramesOf(Inputs(c, s, ds)) == NonEmpty(Frames(s.recv, Arrived(ds)))
    ensures TakeAll(c, s, ds).recv == ReceiveAll(s.recv, Arrived(ds))
    decreases |ds|
  {
    hide InputsOf, Frames, NonEmpty, Fold, Mean, Listen, Decodes, FramesOf, Arrived;
    NothingArrives(s.recv);
    if ds == [] {
      NoInputs();
    } else {
      var next := Take(c, s, ds[0]);
      OneArrival(s, ds[0]);
      InputsArrived(c, next, ds[1..]);
      ArrivedHead(ds);
      JoinArrivals(s.recv, Arrived([ds[0]]), Arrived(ds[1..]));
      FramesOfJoin(InputsOf(s, ds[0]), Inputs(c, next, ds[1..]));
    }
  }

  lemma NoInputs()
    ensures FramesOf([]) == [] && Arrived([]) == []
  {
  }

  /** What is decoded over a run are the frames that the receiver delivers, in order. */
  lemma {:induction false} AllInputsArrived(c: Setup, s: Playout, calls: seq<Call>)
    requires Sized(c, s)
    ensures FramesOf(AllInputs(c, s, calls)) == NonEmpty(Frames(s.recv, AllArrived(calls)))
    decreases |calls|
  {
    hide Receive, Accepts, Emit, Frames, NonEmpty, Fold, Inputs, Arrived, TakeAll;
    NothingArrives(s.recv);
    if calls != [] {
      var call, next := calls[0], Callback(c, s, calls[0]).0;
      var arrived := if Plays(call) then Arrived(call.datagrams) else [];
      var ins := if Plays(call) then Inputs(c, s, call.datagrams) else [];
      EmitKeepsRecv(c, TakeAll(c, s, call.datagrams), call);
      InputsArrived(c, s, call.datagrams);
      AllInputsArrived(c, next, calls[1..]);
      JoinArrivals(s.recv, arrived, AllArrived(calls[1..]));
      FramesOfJoin(ins, AllInputs(c, next, calls[1..]));
    }
  }

  lemma EmitKeepsRecv(c: Setup, s: Playout, call: Call)
    ensures Emit(c, s, call).0.recv == s.recv
  {
    hide Block, LastOf;
  }

  /** Every offset is within one integrator step. */
  ghost predicate OffsetsBounded(ins: seq<Input>) {
    forall i :: 0 <= i < |ins| ==> -STEP <= ins[i].offset <= STEP
  }

  lemma {:induction false} InputsBounded(c: Setup, s: Playout, ds: seq<Datagram>)
    requires Sized(c, s) && PllBounded(s)
    ensures OffsetsBounded(Inputs(c, s, ds))
    decreases |ds|
  {
    hide Decodes, Mean, Listen;
    if ds != [] {
      MeanBounded(s.window, STEP);
      InputsBounded(c, Take(c, s, ds[0]), ds[1..]);
    }
  }

  lemma {:induction false} AllInputsBounded(c: Setup, s: Playout, calls: seq<Call>)
    requires Sized(c, s) && PllBounded(s)
    ensures OffsetsBounded(AllInputs(c, s, calls))
    decreases |calls|
  {
    hide Emit, TakeAll, Within, Inputs;
    if calls != [] {
      InputsBounded(c, s, calls[0].datagrams);
      TakeAllBounded(c, s, calls[0].datagrams);
      EmitBounded(c, TakeAll(c, s, calls[0].datagrams), calls[0]);
      AllInputsBounded(c, Callback(c, s, calls[0]).0, calls[1..]);
    }
  }

  // ---------------------------------------------------------------- a decoder with a state of its own

  function DecoderAfter<D>(decode: (D, Input) -> (D, seq<bv8>), d: D, ins: seq<Input>): D
    decreases |ins|
  {
    if ins == [] then d else DecoderAfter(decode, decode(d, ins[0]).0, ins[1..])
  }

  /** What the decoder and resampler make of each input, one after the other. */
  function Sounds<D>(decode: (D, Input) -> (D, seq<bv8>), d: D, ins: seq<Input>): (sounds: seq<seq<bv8>>)
    ensures |sounds| == |ins|
    decreases |ins|
  {
    if ins == [] then [] else [decode(d, ins[0]).1] + Sounds(decode, decode(d, ins[0]).0, ins[1..])
  }

  lemma {:induction false} SoundsJoin<D>(decode: (D, Input) -> (D, seq<bv8>), d: D, a: seq<Input>, b: seq<Input>)
    ensures Sounds(decode, d, a + b) == Sounds(decode, d, a) + Sounds(decode, DecoderAfter(decode, d, a), b)
    ensures DecoderAfter(decode, d, a + b) == DecoderAfter(decode, DecoderAfter(decode, d, a), b)
    decreases |a|
  {
    if a == [] {
      assert a + b == b;
    } else {
      SoundsJoin(decode, decode(d, a[0]).0, a[1..], b);
      assert (a + b)[0] == a[0] && (a + b)[1..] == a[1..] + b;
    }
  }

  /** Each datagram that is decoded carries what the decoder then makes of it. */
  ghost predicate DecodedBy<D>(decode: (D, Input) -> (D, seq<bv8>), d: D, c: Setup, s: Playout, ds: seq<Datagram>)
    requires Sized(c, s)
    decreases |ds|
  {
    ds == [] || (
      && (Decodes(s.recv, ds[0]) ==> ds[0].pcm == decode(d, InputsOf(s, ds[0])[0]).1)
      && DecodedBy(decode, DecoderAfter(decode, d, InputsOf(s, ds[0])), c, Take(c, s, ds[0]), ds[1..]))
  }

  ghost predicate RunDecodedBy<D>(decode: (D, Input) -> (D, seq<bv8>), d: D, c: Setup, s: Playout, calls: seq<Call>)
    requires Sized(c, s)
    decreases |calls|
  {
    calls == [] || (
      var ds := if Plays(calls[0]) then calls[0].datagrams else [];
      && DecodedBy(decode, d, c, s, ds)
      && RunDecodedBy(decode, DecoderAfter(decode, d, Inputs(c, s, ds)), c, Callback(c, s, calls[0]).0, calls[1..]))
  }

  /** The ring has room for each datagram that is decoded. */
  predicate Roomy(c: Setup, s: Playout, ds: seq<Datagram>)
    requires Sized(c, s)
    decreases |ds|
  {
    ds == [] || (
      && (Decodes(s.recv, ds[0]) ==> |s.ring| + |ds[0].pcm| <= c.capacity)
      && Roomy(c, Take(c, s, ds[0]), ds[1..]))
  }

  predicate RoomyRun(c: Setup, s: Playout, calls: seq<Call>)
    requires Sized(c, s)
    decreases |calls|
  {
    calls == [] || (
      && (Plays(calls[0]) ==> Roomy(c, s, calls[0].datagrams))
      && RoomyRun(c, Callback(c, s, calls[0]).0, calls[1..]))
  }

  /** Each piece is the beginning of its sound. */
  ghost predicate Beginnings(pieces: seq<seq<bv8>>, sounds: seq<seq<bv8>>) {
    |pieces| == |sounds| && forall i :: 0 <= i < |pieces| ==> pieces[i] <= sounds[i]
  }

  lemma BeginningsJoin(a: seq<seq<bv8>>, b: seq<seq<bv8>>, x: seq<seq<bv8>>, y: seq<seq<bv8>>)
    requires Beginnings(a, x) && Beginnings(b, y)
    ensures Beginnings(a + b, x + y) && (a + b == x + y <==> a == x && b == y)
  {
    if a + b == x + y {
      assert a == (a + b)[..|a|] && x == (x + y)[..|x|] && b == (a + b)[|a|..] && y == (x + y)[|x|..];
    }
  }

  lemma OnePiece<D>(decode: (D, Input) -> (D, seq<bv8>), d: D, c: Setup, s: Playout, x: Datagram)
    requires Sized(c, s) && (Decodes(s.recv, x) ==> x.pcm == decode(d, InputsOf(s, x)[0]).1)
    ensures var sounds := Sounds(decode, d, InputsOf(s, x));
            && Beginnings(PiecesOf(c, s, x), sounds)
            && (PiecesOf(c, s, x) == sounds <==> (Decodes(s.recv, x) ==> |s.ring| + |x.pcm| <= c.capacity))
  {
    hide Receive, Accepts, Mean;
    if Decodes(s.recv, x) {
      var fits := Min(|x.pcm|, c.capacity - |s.ring|);
      assert Take(c, s, x).ring[|s.ring|..] == x.pcm[..fits];
      assert Sounds(decode, d, InputsOf(s, x)) == [x.pcm];
      assert x.pcm[..fits] == x.pcm <==> fits == |x.pcm|;
    }
  }

  lemma {:induction false} PiecesAreSounds<D>(decode: (D, Input) -> (D, seq<bv8>), d: D, c: Setup, s: Playout,
                                              ds: seq<Datagram>)
    requires Sized(c, s) && DecodedBy(decode, d, c, s, ds)
    ensures var sounds := Sounds(decode, d, Inputs(c, s, ds));
            Beginnings(Pieces(c, s, ds), sounds) && (Pieces(c, s, ds) == sounds <==> Roomy(c, s, ds))
    decreases |ds|
  {
    hide Take, InputsOf, PiecesOf, Decodes, Beginnings;
    NoPieces();
    if ds != [] {
      var next, ins := Take(c, s, ds[0]), InputsOf(s, ds[0]);
      var d1 := DecoderAfter(decode, d, ins);
      OnePiece(decode, d, c, s, ds[0]);
      PiecesAreSounds(decode, d1, c, next, ds[1..]);
      SoundsJoin(decode, d, ins, Inputs(c, next, ds[1..]));
      BeginningsJoin(PiecesOf(c, s, ds[0]), Pieces(c, next, ds[1..]),
                     Sounds(decode, d, ins), Sounds(decode, d1, Inputs(c, next, ds[1..])));
    }
  }

  lemma NoPieces()
    ensures Beginnings([], [])
  {
  }

  /** Over any run the ring takes the beginning of each sound, and all of each exactly when it has room. */
  lemma {:induction false} RunPieces<D>(decode: (D, Input) -> (D, seq<bv8>), d: D, c: Setup, s: Playout,
                                        calls: seq<Call>)
    requires Sized(c, s) && RunDecodedBy(decode, d, c, s, calls)
    ensures var sounds := Sounds(decode, d, AllInputs(c, s, calls));
            Beginnings(AllPieces(c, s, calls), sounds) && (AllPieces(c, s, calls) == sounds <==> RoomyRun(c, s, calls))
    decreases |calls|
  {
    hide Callback, Inputs, Pieces, DecodedBy, Roomy, Beginnings;
    NoPieces();
    if calls != [] {
      var next := Callback(c, s, calls[0]).0;
      var ds := if Plays(calls[0]) then calls[0].datagrams else [];
      var d1 := DecoderAfter(decode, d, Inputs(c, s, ds));
      NoDatagrams(c, s);
      PiecesAreSounds(decode, d, c, s, ds);
      RunPieces(decode, d1, c, next, calls[1..]);
      SoundsJoin(decode, d, Inputs(c, s, ds), AllInputs(c, next, calls[1..]));
      BeginningsJoin(Pieces(c, s, ds), AllPieces(c, next, calls[1..]),
                     Sounds(decode, d, Inputs(c, s, ds)), Sounds(decode, d1, AllInputs(c, next, calls[1..])));
    }
  }

  lemma NoDatagrams(c: Setup, s: Playout)
    requires Sized(c, s)
    ensures Inputs(c, s, []) == [] && Pieces(c, s, []) == [] && Roomy(c, s, [])
  {
  }

  /** End to end, for any decoder and resampler with a state of their own. A sender's stream arrives over any
      callbacks, each packet any number of times in a row: what is heard and then what is in the ring is what
      was in the ring and then, of the sound of every frame sent but those where the 16-bit number wraps, the
      beginning that the ring had room for, which is all of it exactly when it always had room. */
  lemma SentIsHeard<D>(decode: (D, Input) -> (D, seq<bv8>), d: D, c: Setup, s: Playout, calls: seq<Call>,
                       h: Header, interval: uint32, frames: seq<seq<bv8>>, times: seq<nat>)
    requires Sized(c, s) && PllBounded(s) && RunDecodedBy(decode, d, c, s, calls)
    requires Wire.WordValue(h.ssrc) != s.recv.ssrc && frames != []
    requires |times| == |Sent(h, interval, frames)| && AtLeastOnce(times)
    requires AllArrived(calls) == Redundant(Sent(h, interval, frames), times)
    ensures var ins, pieces := AllInputs(c, s, calls), AllPieces(c, s, calls);
            && AllHeard(c, s, calls) + CallAll(c, s, calls).ring == s.ring + Concat(pieces)
            && Beginnings(pieces, Sounds(decode, d, ins))
            && (pieces == Sounds(decode, d, ins) <==> RoomyRun(c, s, calls))
            && FramesOf(ins) == NonEmpty([frames[0]] + ButWraps(h.seqNo + 1, frames[1..]))
            && OffsetsBounded(ins)
  {
    hide Wire.WordValue, Frames, NonEmpty, AllAccepted, AllHeard, CallAll, ButWraps, Sent, AllArrived, RunDecodedBy,
         RoomyRun, Concat, AllInputs, AllPieces, Beginnings, OffsetsBounded, FramesOf, Sounds, Redundant, PllBounded;
    RunConserves(c, s, calls);
    PiecesAccepted(c, s, calls);
    AllInputsArrived(c, s, calls);
    AllInputsBounded(c, s, calls);
    RunPieces(decode, d, c, s, calls);
    RedundantStream(s.recv, h, interval, frames, times);
  }
}
