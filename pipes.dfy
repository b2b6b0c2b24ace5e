/**
 * The `for step in steps: value = step.apply(value)` loop that both the filter
 * pipeline (`_filter_words`) and the formatter pipeline (`main`) run: each
 * step sees the full output of the step before it.
 */
module Pipes {

  /** The value after running `steps` in order, starting from `x`. */
  function Pipe<S, T>(steps: seq<S>, x: T, apply: (S, T) -> T): T
    decreases |steps|
  {
    if steps == [] then x
    else apply(steps[|steps| - 1], Pipe(steps[..|steps| - 1], x, apply))
  }

  /** Running `a` and then `b` is running `a + b`. */
  lemma {:induction false} PipeConcat<S, T>(a: seq<S>, b: seq<S>, x: T, apply: (S, T) -> T)
    ensures Pipe(a + b, x, apply) == Pipe(b, Pipe(a, x, apply), apply)
    decreases |b|
  {
    if b == [] {
      assert a + b == a;
    } else {
      assert (a + b)[..|a + b| - 1] == a + b[..|b| - 1];
      PipeConcat(a, b[..|b| - 1], x, apply);
    }
  }

  /**
   * A reflexive, transitive relation that holds between every step's output and
   * its input also holds between the pipeline's output and its input.
   */
  lemma {:induction false} PipeRelates<S, T>(steps: seq<S>, x: T, apply: (S, T) -> T, rel: (T, T) -> bool)
    requires forall y :: rel(y, y)
    requires forall y1, y2, y3 :: rel(y1, y2) && rel(y2, y3) ==> rel(y1, y3)
    requires forall s, y :: rel(apply(s, y), y)
    ensures rel(Pipe(steps, x, apply), x)
    decreases |steps|
  {
    if steps != [] {
      var mid := Pipe(steps[..|steps| - 1], x, apply);
      PipeRelates(steps[..|steps| - 1], x, apply, rel);
      assert rel(apply(steps[|steps| - 1], mid), mid);
    }
  }

  /** The loop itself: each step applied in turn to the value so far. */
  method RunSteps<S, T>(steps: seq<S>, x: T, apply: (S, T) -> T) returns (y: T)
    ensures y == Pipe(steps, x, apply)
  {
    y := x;
    for i := 0 to |steps|
      invariant y == Pipe(steps[..i], x, apply)
    {
      assert steps[..i + 1][..i] == steps[..i];
      y := apply(steps[i], y);
    }
    assert steps[..|steps|] == steps;
  }
}
