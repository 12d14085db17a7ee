/** Runs of a state machine, as sequences of states. */
module Runs {

  ghost predicate Follows<W(!new), S(!new)>(next: (W, S) -> W, ws: seq<W>, steps: seq<S>, i: nat) {
    i < |steps| && i + 1 < |ws| && ws[i + 1] == next(ws[i], steps[i])
  }

  ghost predicate IsRun<W(!new), S(!new)>(next: (W, S) -> W, first: W, ws: seq<W>, steps: seq<S>) {
    && |ws| == |steps| + 1 && ws[0] == first
    && forall i {:trigger Follows(next, ws, steps, i)} :: 0 <= i < |steps| ==> Follows(next, ws, steps, i)
  }

  /** Every sequence of steps has a run. */
  lemma {:induction false} RunExists<W(!new), S(!new)>(next: (W, S) -> W, first: W, steps: seq<S>) returns (ws: seq<W>)
    ensures IsRun(next, first, ws, steps)
  {
    if steps == [] {
      ws := [first];
    } else {
      var n := |steps| - 1;
      var before := RunExists(next, first, steps[..n]);
      ws := before + [next(before[n], steps[n])];
      forall i | 0 <= i < |steps| ensures Follows(next, ws, steps, i) {
        assert i < n ==> Follows(next, before, steps[..n], i);
      }
    }
  }
}
