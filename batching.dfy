/**
 * Batch scheduling shared by the three Python loops of the form
 *
 *   for i in range(0, len(xs), size):
 *       handle xs[i:i + size]
 *       if i + size < len(xs): sleep(pause)
 *
 * The schedule is a sequence of steps: the batches in order, with a pause
 * between two consecutive batches and none after the last.
 */
module Batching {
  import opened Results

  /** The ValueError Python raises for `range(0, n, 0)`. */
  const ZeroStepMessage: string := "range() arg 3 must not be zero"

  datatype Step<T> = Batch(items: seq<T>) | Pause(seconds: nat)

  function Min(a: int, b: int): int {
    if a < b then a else b
  }

  /** The consecutive slices `xs[i:i+size]` for `i` in `range(from, |xs|, size)`. */
  function ChunksFrom<T>(xs: seq<T>, size: nat, from: nat): seq<seq<T>>
    requires size > 0
    decreases |xs| - from
  {
    if from >= |xs| then [] else [xs[from..Min(from + size, |xs|)]] + ChunksFrom(xs, size, from + size)
  }

  function Chunks<T>(xs: seq<T>, size: nat): seq<seq<T>>
    requires size > 0
  {
    ChunksFrom(xs, size, 0)
  }

  function Flatten<T>(xss: seq<seq<T>>): seq<T> {
    if xss == [] then [] else xss[0] + Flatten(xss[1..])
  }

  /** The steps taken for the slices from offset `from` on. */
  function StepsFrom<T>(xs: seq<T>, size: nat, pause: nat, from: nat): seq<Step<T>>
    requires size > 0
    decreases |xs| - from
  {
    if from >= |xs| then []
    else
      [Batch(xs[from..Min(from + size, |xs|)])]
      + (if from + size < |xs| then [Pause(pause)] else [])
      + StepsFrom(xs, size, pause, from + size)
  }

  /**
   * The whole schedule for a configured step: `range` with step 0 raises, a
   * negative step gives an empty range, a positive one gives the slices.
   */
  function Schedule<T>(xs: seq<T>, step: int, pause: nat): (r: Result<seq<Step<T>>, string>)
    ensures step == 0 <==> r.Err?
    ensures step < 0 ==> r == Ok([])
  {
    if step == 0 then Err(ZeroStepMessage)
    else if step < 0 then Ok([])
    else Ok(StepsFrom(xs, step, pause, 0))
  }

  function Batches<T>(steps: seq<Step<T>>): seq<seq<T>> {
    if steps == [] then []
    else if steps[0].Batch? then [steps[0].items] + Batches(steps[1..])
    else Batches(steps[1..])
  }

  /** The slices cover the input exactly, in order. */
  lemma {:induction false} ChunksCover<T>(xs: seq<T>, size: nat, from: nat)
    requires size > 0 && from <= |xs|
    ensures Flatten(ChunksFrom(xs, size, from)) == xs[from..]
    decreases |xs| - from
  {
    if from < |xs| {
      var end := Min(from + size, |xs|);
      if from + size < |xs| {
        ChunksCover(xs, size, from + size);
      } else {
        assert ChunksFrom(xs, size, from + size) == [];
      }
      var c := ChunksFrom(xs, size, from);
      assert c[1..] == ChunksFrom(xs, size, from + size);
      assert xs[from..end] + xs[end..] == xs[from..];
    }
  }

  /** Every slice but the last holds exactly `size` items; the last holds between 1 and `size`. */
  lemma {:induction false} ChunkSizes<T>(xs: seq<T>, size: nat, from: nat, k: nat)
    requires size > 0 && k < |ChunksFrom(xs, size, from)|
    ensures 0 < |ChunksFrom(xs, size, from)[k]| <= size
    ensures k < |ChunksFrom(xs, size, from)| - 1 ==> |ChunksFrom(xs, size, from)[k]| == size
    decreases |xs| - from
  {
    var rest := ChunksFrom(xs, size, from + size);
    if k > 0 {
      ChunkSizes(xs, size, from + size, k - 1);
      assert ChunksFrom(xs, size, from)[k] == rest[k - 1];
    } else if |rest| > 0 {
      assert from + size < |xs|;
    }
  }

  /** "batch (pause batch)*": batches separated by single pauses, none at either end. */
  predicate Spaced<T>(s: seq<Step<T>>, pause: nat) {
    s == [] || (s[0].Batch? && (|s| == 1 || (|s| >= 3 && s[1] == Pause(pause) && Spaced(s[2..], pause))))
  }

  /**
   * The schedule holds the slices in order, with exactly one pause between two
   * consecutive slices and none after the last.
   */
  lemma {:induction false} StepsShape<T>(xs: seq<T>, size: nat, pause: nat, from: nat)
    requires size > 0
    ensures Batches(StepsFrom(xs, size, pause, from)) == ChunksFrom(xs, size, from)
    ensures Spaced(StepsFrom(xs, size, pause, from), pause)
    decreases |xs| - from
  {
    if from < |xs| {
      StepsShape(xs, size, pause, from + size);
      var s := StepsFrom(xs, size, pause, from);
      var rest := StepsFrom(xs, size, pause, from + size);
      var b := Batch(xs[from..Min(from + size, |xs|)]);
      if from + size < |xs| {
        assert s == [b, Pause(pause)] + rest;
        assert rest != [];
        assert s[1..] == [Pause(pause)] + rest;
        assert s[1..][1..] == rest;
        assert s[2..] == rest;
      } else {
        assert ChunksFrom(xs, size, from + size) == [];
        assert s == [b];
      }
    }
  }

  /** Concatenating the scheduled batches gives the input back. */
  lemma ScheduleCovers<T>(xs: seq<T>, size: nat, pause: nat)
    requires size > 0
    ensures Flatten(Batches(StepsFrom(xs, size, pause, 0))) == xs
  {
    StepsShape(xs, size, pause, 0);
    ChunksCover(xs, size, 0);
  }
  // ------------------------------------------------------------ the loop

  /** The state after handling `xs` one item after another. */
  function Fold<T, S>(handle: (S, T) -> S, init: S, xs: seq<T>): S {
    if xs == [] then init else handle(Fold(handle, init, xs[..|xs| - 1]), xs[|xs| - 1])
  }

  lemma FoldStep<T, S>(handle: (S, T) -> S, init: S, xs: seq<T>, x: T)
    ensures Fold(handle, init, xs + [x]) == handle(Fold(handle, init, xs), x)
  {
    assert (xs + [x])[..|xs|] == xs;
  }

  /** The steps from one offset: its slice, a pause unless it is the last, then the rest. */
  lemma StepsUnfold<T>(xs: seq<T>, size: nat, pause: nat, from: nat)
    requires size > 0 && from < |xs|
    ensures StepsFrom(xs, size, pause, from) ==
      Lead(xs, size, pause, from) + StepsFrom(xs, size, pause, Min(from + size, |xs|))
  {
    if from + size >= |xs| {
      assert StepsFrom(xs, size, pause, from + size) == [];
      assert StepsFrom(xs, size, pause, |xs|) == [];
    }
  }

  /** The slice at `from` and the pause that follows it when more slices come. */
  function Lead<T>(xs: seq<T>, size: nat, pause: nat, from: nat): seq<Step<T>>
    requires size > 0 && from < |xs|
  {
    [Batch(xs[from..Min(from + size, |xs|)])] + (if from + size < |xs| then [Pause(pause)] else [])
  }

  /** Handles `xs[from..to]` one item after another, starting from the state after `xs[..from]`. */
  method HandleSlice<T, S>(xs: seq<T>, from: nat, to: nat, handle: (S, T) -> S, init: S, state: S)
    returns (s: S)
    requires from <= to <= |xs|
    requires state == Fold(handle, init, xs[..from])
    ensures s == Fold(handle, init, xs[..to])
  {
    s := state;
    for k := from to to
      invariant s == Fold(handle, init, xs[..k])
    {
      FoldStep(handle, init, xs[..k], xs[k]);
      assert xs[..k] + [xs[k]] == xs[..k + 1];
      s := handle(s, xs[k]);
    }
  }

  /**
   * The chunked loop itself: each item of each slice is handled in order,
   * and the steps taken (slices and pauses) are recorded. Items of one slice
   * run concurrently in the code; here they run in slice order.
   */
  method RunBatches<T, S>(xs: seq<T>, step: int, pause: nat, handle: (S, T) -> S, init: S)
    returns (r: Result<(S, seq<Step<T>>), string>)
    ensures step == 0 ==> r == Err(ZeroStepMessage)
    ensures step < 0 ==> r == Ok((init, []))
    ensures step > 0 ==> r == Ok((Fold(handle, init, xs), StepsFrom(xs, step, pause, 0)))
  {
    if step == 0 {
      return Err(ZeroStepMessage);
    }
    if step < 0 {
      return Ok((init, []));
    }
    var state := init;
    var steps: seq<Step<T>> := [];
    var i: nat := 0;
    while i < |xs|
      invariant i <= |xs|
      invariant state == Fold(handle, init, xs[..i])
      invariant steps + StepsFrom(xs, step, pause, i) == StepsFrom(xs, step, pause, 0)
      decreases |xs| - i
    {
      var end := Min(i + step, |xs|);
      state := HandleSlice(xs, i, end, handle, init, state);
      var lead := Lead(xs, step, pause, i);
      StepsUnfold(xs, step, pause, i);
      assert steps + (lead + StepsFrom(xs, step, pause, end)) == (steps + lead) + StepsFrom(xs, step, pause, end);
      steps := steps + lead;
      i := end;
    }
    assert xs[..i] == xs;
    assert steps + [] == steps;
    return Ok((state, steps));
  }
}
