/** A run of a state machine: its steps taken one after the other. */
module Runs {

  function Fold<S, A>(step: (S, A) -> S, s: S, run: seq<A>): S
    decreases |run|
  {
    if run == [] then s else Fold(step, step(s, run[0]), run[1..])
  }

  lemma {:induction false} FoldJoin<S, A>(step: (S, A) -> S, s: S, run: seq<A>, more: seq<A>)
    ensures Fold(step, s, run + more) == Fold(step, Fold(step, s, run), more)
    decreases |run|
  {
    if run == [] {
      assert run + more == more;
    } else {
      FoldJoin(step, step(s, run[0]), run[1..], more);
      assert (run + more)[1..] == run[1..] + more;
    }
  }

  lemma FoldOne<S, A>(step: (S, A) -> S, s: S, a: A)
    ensures Fold(step, s, [a]) == step(s, a)
  {
  }

  /** The elements of a list of lists, in order. */
  function Concat<T>(parts: seq<seq<T>>): seq<T> {
    if parts == [] then [] else parts[0] + Concat(parts[1..])
  }

  lemma Regroup<T>(a: seq<T>, b: seq<T>, c: seq<T>)
    ensures a + (b + c) == (a + b) + c
  {
  }

  lemma {:induction false} ConcatJoin<T>(a: seq<seq<T>>, b: seq<seq<T>>)
    ensures Concat(a + b) == Concat(a) + Concat(b)
  {
    if a == [] {
      assert a + b == b;
    } else {
      ConcatJoin(a[1..], b);
      assert (a + b)[0] == a[0] && (a + b)[1..] == a[1..] + b;
      Regroup(a[0], Concat(a[1..]), Concat(b));
    }
  }
}
