/**
 * The phase-locked loop of lib/codec.cpp in plain terms: which way it pulls, and what the resampler is asked for.
 * A ring below the setpoint must make more samples of a frame, one at it or above must make fewer.
 */
module PhaseLocks {
  import opened MeterAverages
  import opened Receiver
  import opened Playouts

  // ---------------------------------------------------------------- one datagram

  /** A datagram of more than eight octets, in order, with a frame: the loop's mean is what it is resampled with, and
      of its sound the ring takes what fits. Any other leaves the offset and the ring as they are. */
  lemma DatagramTaken(c: Setup, s: Playout, d: Datagram)
    requires Sized(c, s)
    ensures var t, p := Take(c, s, d), d.packet;
            && t.window == s.window && t.locked == s.locked
            && (d.size > 8 && (p.ssrc == s.recv.ssrc ==> p.seqNo == s.recv.lo + 1) && p.frame != [] ==>
                  && t.offset == Mean(s.window)
                  && s.ring <= t.ring && t.ring[|s.ring|..] <= d.pcm
                  && (|t.ring| == |s.ring| + |d.pcm| || (|t.ring| == c.capacity && |s.ring| + |d.pcm| > c.capacity)))
            && (!(d.size > 8 && (p.ssrc == s.recv.ssrc ==> p.seqNo == s.recv.lo + 1) && p.frame != []) ==>
                  t.offset == s.offset && t.ring == s.ring)
            && t.recv == if d.size > 8 then Receive(s.recv, p) else s.recv
  {
    hide Receive, Mean;
  }

  /** After any datagrams the offset is the mean, if a frame was decoded, and what it was, if none was. */
  lemma {:induction false} OffsetFollowsMean(c: Setup, s: Playout, ds: seq<Datagram>)
    requires Sized(c, s)
    ensures TakeAll(c, s, ds).offset == if Inputs(c, s, ds) != [] then Mean(s.window) else s.offset
    ensures TakeAll(c, s, ds).window == s.window
    ensures forall i :: 0 <= i < |Inputs(c, s, ds)| ==> Inputs(c, s, ds)[i].offset == Mean(s.window)
    decreases |ds|
  {
    hide Mean, Decodes, Listen;
    if ds != [] {
      OffsetFollowsMean(c, Take(c, s, ds[0]), ds[1..]);
    }
  }

  // ---------------------------------------------------------------- one callback

  /** What the ring holds when the callback looks at it. */
  function Filled(c: Setup, s: Playout, call: Call): nat
    requires Sized(c, s)
  {
    |s.ring| + |Gained(c, s, call.datagrams)|
  }

  /** Less than the setpoint. */
  predicate Low(c: Setup, s: Playout, call: Call)
    requires Sized(c, s)
  {
    Filled(c, s, call) < 2 * call.frames * c.channels * c.setpoint
  }

  /** The callback has an output, is not in loopback, and is not filling the ring before sound. */
  predicate Counts(c: Setup, s: Playout, call: Call)
    requires Sized(c, s)
  {
    !call.loopback && call.hasOutput && (s.locked || !Low(c, s, call))
  }

  /** The loop keeps 500 steps. */
  function Appended(w: seq<real>, step: real): seq<real> {
    (if |w| < 500 then w else w[1..]) + [step]
  }

  /** A callback that counts adds one step, upwards exactly when the ring is low; any other adds none. */
  lemma DetectorStep(c: Setup, s: Playout, call: Call)
    requires Sized(c, s) && |s.window| <= 500
    ensures Callback(c, s, call).0.window ==
            if Counts(c, s, call) then Appended(s.window, if Low(c, s, call) then 400.0 else -400.0) else s.window
  {
    hide TakeAll, Gained;
    TakeAllGains(c, s, call.datagrams);
  }

  /** The offset after a callback, and all that it is resampled with in it. */
  lemma OffsetAfter(c: Setup, s: Playout, call: Call)
    requires Sized(c, s)
    ensures var ins := if !call.loopback && call.hasOutput then Inputs(c, s, call.datagrams) else [];
            && Callback(c, s, call).0.offset == (if ins != [] then Mean(s.window) else s.offset)
            && forall i :: 0 <= i < |ins| ==> ins[i].offset == Mean(s.window)
  {
    hide Mean, TakeAll, Inputs, Prefilling, Detector;
    OffsetFollowsMean(c, s, call.datagrams);
  }

  /** In loopback nothing is received or played: a datagram only silences the output and loses the lock. */
  lemma LoopbackOnlyMutes(c: Setup, s: Playout, call: Call)
    requires Sized(c, s)
    ensures call.loopback ==>
              && Callback(c, s, call).0 == s.(locked := s.locked && call.datagrams == [])
              && Callback(c, s, call).1 == if call.datagrams == [] then Untouched else Muted
    ensures !call.loopback && !call.hasOutput ==> Callback(c, s, call) == (s, Untouched)
  {
  }

  // ---------------------------------------------------------------- over runs

  /** Every callback of the run that counts finds the ring low, or every one finds it not low. */
  predicate AllOn(c: Setup, s: Playout, calls: seq<Call>, low: bool)
    requires Sized(c, s)
    decreases |calls|
  {
    calls == [] || (
      && (Counts(c, s, calls[0]) ==> Low(c, s, calls[0]) == low)
      && AllOn(c, Callback(c, s, calls[0]).0, calls[1..], low))
  }

  function CountedIn(c: Setup, s: Playout, calls: seq<Call>): nat
    requires Sized(c, s)
    decreases |calls|
  {
    if calls == [] then 0
    else (if Counts(c, s, calls[0]) then 1 else 0) + CountedIn(c, Callback(c, s, calls[0]).0, calls[1..])
  }

  /** The last `k` steps are `x`. */
  ghost predicate Tail(w: seq<real>, k: nat, x: real) {
    forall i :: 0 <= i < |w| && i >= |w| - k ==> w[i] == x
  }

  lemma TailGrows(w: seq<real>, k: nat, x: real)
    requires |w| <= 500 && Tail(w, k, x)
    ensures Tail(Appended(w, x), k + 1, x) && |Appended(w, x)| == if |w| < 500 then |w| + 1 else 500
  {
  }

  lemma {:induction false} WindowFills(c: Setup, s: Playout, calls: seq<Call>, low: bool, k: nat)
    requires Sized(c, s) && |s.window| <= 500 && AllOn(c, s, calls, low)
    requires Tail(s.window, k, if low then 400.0 else -400.0)
    ensures var w, n := CallAll(c, s, calls).window, CountedIn(c, s, calls);
            && Tail(w, k + n, if low then 400.0 else -400.0)
            && |w| == if |s.window| + n < 500 then |s.window| + n else 500
    decreases |calls|
  {
    hide Callback, Counts, Low, Tail, Appended;
    if calls != [] {
      var next := Callback(c, s, calls[0]).0;
      DetectorStep(c, s, calls[0]);
      TailGrows(s.window, k, if low then 400.0 else -400.0);
      WindowFills(c, next, calls[1..], low, if Counts(c, s, calls[0]) then k + 1 else k);
    }
  }

  lemma MeanOfSame(w: seq<real>, x: real)
    requires w != [] && Tail(w, |w|, x)
    ensures Mean(w) == x
  {
    SumRepeated(w, x);
    assert Times(x, |w|) == x * (|w| as real);
  }

  /** After 500 callbacks that count, all of them low, the loop asks for its whole step more; all of them not low,
      for its whole step less. So it does for every frame decoded in the next callback, and the field says so. */
  lemma LoopPullsBack(c: Setup, s: Playout, calls: seq<Call>, low: bool, call: Call, rate: real)
    requires Sized(c, s) && |s.window| <= 500 && AllOn(c, s, calls, low) && CountedIn(c, s, calls) >= 500
    requires rate > 0.0 && !call.loopback && call.hasOutput
    ensures var end := CallAll(c, s, calls);
            var ins := Inputs(c, end, call.datagrams);
            && (forall i :: 0 <= i < |ins| ==>
                  && ins[i].offset == (if low then 400.0 else -400.0)
                  && Ratio(rate, ins[i].offset) == (if low then (rate + 400.0) / rate else (rate - 400.0) / rate)
                  && (if low then Ratio(rate, ins[i].offset) > 1.0 else Ratio(rate, ins[i].offset) < 1.0))
            && (ins != [] ==> Callback(c, end, call).0.offset == if low then 400.0 else -400.0)
  {
    hide Callback, Counts, Low, Tail, Inputs, Mean, Ratio, CallAll, AllOn, CountedIn;
    var x := if low then 400.0 else -400.0;
    var end, n := CallAll(c, s, calls), CountedIn(c, s, calls);
    NoTail(s.window, x);
    WindowFills(c, s, calls, low, 0);
    TailOfAll(end.window, n, x);
    MeanOfSame(end.window, x);
    OffsetAfter(c, end, call);
    RatioOfStep(rate, x);
  }

  lemma NoTail(w: seq<real>, x: real)
    ensures Tail(w, 0, x)
  {
  }

  lemma TailOfAll(w: seq<real>, k: nat, x: real)
    requires Tail(w, k, x) && k >= |w|
    ensures Tail(w, |w|, x)
  {
  }

  lemma RatioOfStep(rate: real, x: real)
    requires rate > 0.0 && (x == 400.0 || x == -400.0)
    ensures Ratio(rate, x) == (rate + x) / rate
    ensures x == 400.0 ==> Ratio(rate, x) > 1.0
    ensures x == -400.0 ==> Ratio(rate, x) < 1.0
  {
    var q := (rate + x) / rate;
    assert q * rate == rate + x;
    assert (q - 1.0) * rate == x;
  }
}
