/** Stream layers as state transformers: each input yields some outputs and a new state. */
module Streams {
  import opened Types

  /** The stream a layer reads from: the items that are ready, and whether the producer is gone. */
  class Source<T> {
    var queue: seq<T>
    var closed: bool

    constructor ()
      ensures queue == [] && !closed
    {
      queue, closed := [], false;
    }

    method PollNext() returns (r: Poll<T>)
      modifies this`queue
      ensures match r
              case Item(x) => old(queue) == [x] + queue
              case Finished => old(queue) == queue == [] && closed
              case Pending => old(queue) == queue == [] && !closed
    {
      if queue == [] {
        return if closed then Finished else Pending;
      }
      r := Item(queue[0]);
      queue := queue[1..];
    }
  }

  function Oks<T>(xs: seq<T>): (items: seq<Result<T>>) {
    seq(|xs|, i requires 0 <= i < |xs| => Ok(xs[i]))
  }

  /** Everything a layer in state `s` yields for a queue of inputs, and the state it ends in. */
  function Run<S, I, O>(step: (S, I) -> (seq<O>, S), s: S, inputs: seq<I>): (r: (seq<O>, S))
    decreases |inputs|
  {
    if inputs == [] then ([], s)
    else
      var first := step(s, inputs[0]);
      var rest := Run(step, first.1, inputs[1..]);
      (first.0 + rest.0, rest.1)
  }

  /** Later inputs only extend what was yielded before. */
  lemma {:induction false} RunAppend<S, I, O>(step: (S, I) -> (seq<O>, S), s: S, a: seq<I>, b: seq<I>)
    ensures Run(step, s, a + b).0 == Run(step, s, a).0 + Run(step, Run(step, s, a).1, b).0
    ensures Run(step, s, a + b).1 == Run(step, Run(step, s, a).1, b).1
    decreases |a|
  {
    if a == [] {
      assert a + b == b;
    } else {
      RunAppend(step, step(s, a[0]).1, a[1..], b);
      assert (a + b)[1..] == a[1..] + b;
    }
  }

  /** Two layers in series: the second runs over whatever the first yields. */
  function Compose<S, T, I, M, O>(f: (S, I) -> (seq<M>, S), g: (T, M) -> (seq<O>, T)): ((S, T), I) -> (seq<O>, (S, T)) {
    (st: (S, T), x: I) =>
      var mid := f(st.0, x);
      var out := Run(g, st.1, mid.0);
      (out.0, (mid.1, out.1))
  }

  /** Polling the second layer over everything the first yields is running the composed layer. */
  lemma {:induction false} ComposeRuns<S, T, I, M, O>(f: (S, I) -> (seq<M>, S), g: (T, M) -> (seq<O>, T), s: S, t: T,
                                                      inputs: seq<I>)
    ensures var first := Run(f, s, inputs);
            var second := Run(g, t, first.0);
            var both := Run(Compose(f, g), (s, t), inputs);
            both.0 == second.0 && both.1 == (first.1, second.1)
    decreases |inputs|
  {
    if inputs != [] {
      var mid := f(s, inputs[0]);
      var out := Run(g, t, mid.0);
      ComposeRuns(f, g, mid.1, out.1, inputs[1..]);
      RunAppend(g, t, mid.0, Run(f, mid.1, inputs[1..]).0);
    }
  }
}
