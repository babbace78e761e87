/** Concatenating what a function yields for each element of a sequence. */
module Seqs {

  /** `f(xs[0]) + f(xs[1]) + ...`: the shape of a loop that appends each element's results. */
  function ConcatMap<T, U>(xs: seq<T>, f: T --> seq<U>): seq<U>
    requires forall i | 0 <= i < |xs| :: f.requires(xs[i])
    decreases |xs|
  {
    if xs == [] then [] else ConcatMap(xs[..|xs| - 1], f) + f(xs[|xs| - 1])
  }

  /** One more element, as a loop over `xs` takes it. */
  lemma {:induction false} ConcatMapStep<T, U>(xs: seq<T>, f: T --> seq<U>, j: int)
    requires 0 <= j < |xs|
    requires forall i | 0 <= i < |xs| :: f.requires(xs[i])
    ensures ConcatMap(xs[..j + 1], f) == ConcatMap(xs[..j], f) + f(xs[j])
  {
    assert xs[..j + 1][..j] == xs[..j];
  }

  /** The results for `xs + ys` are those for `xs` followed by those for `ys`. */
  lemma {:induction false} ConcatMapAppend<T, U>(xs: seq<T>, ys: seq<T>, f: T --> seq<U>)
    requires forall i | 0 <= i < |xs| :: f.requires(xs[i])
    requires forall i | 0 <= i < |ys| :: f.requires(ys[i])
    ensures forall i | 0 <= i < |xs + ys| :: f.requires((xs + ys)[i])
    ensures ConcatMap(xs + ys, f) == ConcatMap(xs, f) + ConcatMap(ys, f)
    decreases |ys|
  {
    assert forall i | 0 <= i < |xs + ys| :: (xs + ys)[i] == if i < |xs| then xs[i] else ys[i - |xs|];
    if ys == [] {
      assert xs + ys == xs;
    } else {
      var init := ys[..|ys| - 1];
      assert (xs + ys)[..|xs + ys| - 1] == xs + init;
      assert (xs + ys)[|xs + ys| - 1] == ys[|ys| - 1];
      ConcatMapAppend(xs, init, f);
    }
  }
}
