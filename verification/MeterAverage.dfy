/** lib/meteraverage.cpp: the running mean of the last values added. Rounding is not modelled. */
module MeterAverages {

  function Sum(s: seq<real>): real {
    if s == [] then 0.0 else s[0] + Sum(s[1..])
  }

  lemma {:induction false} SumAppend(s: seq<real>, v: real)
    ensures Sum(s + [v]) == Sum(s) + v
  {
    if s == [] {
      assert [] + [v] == [v];
      assert [v][1..] == [];
    } else {
      SumAppend(s[1..], v);
      assert (s + [v])[1..] == s[1..] + [v];
    }
  }

  ghost predicate Within(s: seq<real>, bound: real) {
    forall i :: 0 <= i < |s| ==> -bound <= s[i] <= bound
  }

  function Times(a: real, n: nat): real {
    a * (n as real)
  }

  lemma TimesNext(a: real, n: nat)
    ensures Times(a, 0) == 0.0 && Times(a, n + 1) == Times(a, n) + a
  {
    assert (n + 1) as real == n as real + 1.0;
  }

  lemma {:induction false} SumBounded(s: seq<real>, bound: real)
    requires Within(s, bound)
    ensures -Times(bound, |s|) <= Sum(s) <= Times(bound, |s|)
  {
    hide Times;
    TimesNext(bound, if s == [] then 0 else |s| - 1);
    if s != [] {
      SumBounded(s[1..], bound);
    }
  }

  lemma {:induction false} SumRepeated(s: seq<real>, value: real)
    requires forall i :: 0 <= i < |s| ==> s[i] == value
    ensures Sum(s) == Times(value, |s|)
  {
    hide Times;
    TimesNext(value, if s == [] then 0 else |s| - 1);
    if s != [] {
      SumRepeated(s[1..], value);
    }
  }

  /** The last `n` elements, or all of them when there are fewer. */
  function LastOf<T>(s: seq<T>, n: nat): (r: seq<T>)
    ensures |r| == if |s| > n then n else |s|
  {
    if |s| > n then s[|s| - n..] else s
  }

  /** `n` equal values. */
  function Level(n: nat, value: real): (s: seq<real>)
    ensures |s| == n && forall i :: 0 <= i < n ==> s[i] == value
  {
    seq(n, _ => value)
  }

  function Mean(s: seq<real>): real {
    if |s| == 0 then 0.0 else Sum(s) / (|s| as real)
  }

  /** A window of values after some more have been added to it. */
  function AddAll(window: seq<real>, maxsize: nat, values: seq<real>): seq<real>
    decreases |values|
  {
    if values == [] then window
    else AddAll(LastOf(window + [values[0]], maxsize), maxsize, values[1..])
  }

  lemma LastOfLast(a: seq<real>, b: seq<real>, n: nat)
    ensures LastOf(LastOf(a, n) + b, n) == LastOf(a + b, n)
  {
  }

  /** Adding values one at a time keeps the last ones of everything ever added. */
  lemma {:induction false} AddAllKeepsTheLast(window: seq<real>, maxsize: nat, values: seq<real>)
    requires |window| <= maxsize
    ensures AddAll(window, maxsize, values) == LastOf(window + values, maxsize)
    decreases |values|
  {
    if values == [] {
      assert window + values == window;
    } else {
      var next := LastOf(window + [values[0]], maxsize);
      AddAllKeepsTheLast(next, maxsize, values[1..]);
      LastOfLast(window + [values[0]], values[1..], maxsize);
      assert window + [values[0]] + values[1..] == window + values;
    }
  }

  lemma NotNegative(a: real, n: real)
    requires n > 0.0 && a * n >= 0.0
    ensures a >= 0.0
  {
    assert a < 0.0 ==> a * n < 0.0;
  }

  lemma QuotientBounded(sum: real, n: real, bound: real)
    requires n > 0.0 && -(bound * n) <= sum <= bound * n
    ensures -bound <= sum / n <= bound
  {
    var q := sum / n;
    assert q * n == sum;
    assert (bound - q) * n == bound * n - sum >= 0.0;
    assert (bound + q) * n == bound * n + sum >= 0.0;
    NotNegative(bound - q, n);
    NotNegative(bound + q, n);
  }

  /** The mean of values within a bound is within it. */
  lemma MeanBounded(s: seq<real>, bound: real)
    requires bound >= 0.0 && Within(s, bound)
    ensures -bound <= Mean(s) <= bound
  {
    if s != [] {
      SumBounded(s, bound);
      QuotientBounded(Sum(s), |s| as real, bound);
    }
  }

  class MeterAverage {
    const maxsize: nat
    var total: real
    var values: seq<real>

    /** The running total is the sum of the queue, which never holds more than `maxsize`. */
    ghost predicate Valid()
      reads this
    {
      total == Sum(values) && |values| <= maxsize
    }

    constructor (maxsize: nat)
      ensures Valid() && this.maxsize == maxsize && values == []
    {
      this.maxsize := maxsize;
      total := 0.0;
      values := [];
    }

    function Average(): (mean: real)
      requires Valid()
      reads this
      ensures mean == Mean(values)
    {
      if |values| == 0 then 0.0 else total / (|values| as real)
    }

    method AddValue(value: real)
      requires Valid()
      modifies this
      ensures Valid()
      ensures values == LastOf(old(values) + [value], maxsize)
    {
      SumAppend(values, value);
      total := total + value;
      values := values + [value];
      ghost var all := values;
      var size := |values| - maxsize;
      var i := 0;
      while i < size
        invariant size == |all| - maxsize <= 1
        invariant 0 <= i <= 1 && (size <= 0 ==> i == 0) && i <= |all|
        invariant values == all[i..] && total == Sum(values)
      {
        total := total - values[0];
        values := values[1..];
        i := i + 1;
      }
    }

    method Preset(value: real)
      requires Valid()
      modifies this
      ensures Valid()
      ensures values == Level(maxsize, value)
    {
      while |values| > 0
      {
        values := values[1..];
      }
      var i := 0;
      while i < maxsize
        invariant 0 <= i <= maxsize
        invariant |values| == i && forall j :: 0 <= j < i ==> values[j] == value
      {
        values := values + [value];
        i := i + 1;
      }
      SumRepeated(values, value);
      total := value * (maxsize as real);
    }
  }
}
