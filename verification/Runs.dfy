/** Runs of a machine: a list of steps taken one after the other. */
module Runs {
  function Run<S, T>(next: (S, T) -> S, s: S, steps: seq<T>): S
    decreases |steps|
  {
    if steps == [] then s else Run(next, next(s, steps[0]), steps[1..])
  }

  lemma {:induction false} RunAppend<S, T>(next: (S, T) -> S, s: S, a: seq<T>, b: seq<T>)
    ensures Run(next, s, a + b) == Run(next, Run(next, s, a), b)
    decreases |a|
  {
    if a == [] {
      assert a + b == b;
    } else {
      RunAppend(next, next(s, a[0]), a[1..], b);
      assert (a + b)[1..] == a[1..] + b;
    }
  }

  lemma RunFour<S, T>(next: (S, T) -> S, s: S, steps: seq<T>)
    requires |steps| == 4
    ensures Run(next, s, steps) == next(next(next(next(s, steps[0]), steps[1]), steps[2]), steps[3])
  {
    var s1 := next(s, steps[0]);
    var s2 := next(s1, steps[1]);
    var s3 := next(s2, steps[2]);
    assert steps[1..][1..] == steps[2..] && steps[2..][1..] == steps[3..] && steps[3..][1..] == [];
    assert Run(next, s, steps) == Run(next, s1, steps[1..]) == Run(next, s2, steps[2..]) == Run(next, s3, steps[3..]);
    assert Run(next, s3, steps[3..]) == Run(next, next(s3, steps[3]), []);
  }
}
