/** Runs of a deterministic machine over an input sequence, and order-preserving filters. */
module Runs {

  /** State after feeding `xs` one by one. */
  ghost function End<S, I, O>(step: (S, I) -> (S, O), s: S, xs: seq<I>): S
    decreases |xs|
  {
    if xs == [] then s else End(step, step(s, xs[0]).0, xs[1..])
  }

  /** Outputs, one per input. */
  ghost function Outs<S, I, O>(step: (S, I) -> (S, O), s: S, xs: seq<I>): (r: seq<O>)
    ensures |r| == |xs|
    decreases |xs|
  {
    if xs == [] then [] else [step(s, xs[0]).1] + Outs(step, step(s, xs[0]).0, xs[1..])
  }

  lemma {:induction false} RunSplit<S, I, O>(step: (S, I) -> (S, O), s: S, xs: seq<I>, ys: seq<I>)
    ensures End(step, s, xs + ys) == End(step, End(step, s, xs), ys)
    ensures Outs(step, s, xs + ys) == Outs(step, s, xs) + Outs(step, End(step, s, xs), ys)
    decreases |xs|
  {
    if xs == [] {
      assert xs + ys == ys;
    } else {
      assert (xs + ys)[1..] == xs[1..] + ys;
      RunSplit(step, step(s, xs[0]).0, xs[1..], ys);
    }
  }

  lemma {:induction false} RunSnoc<S, I, O>(step: (S, I) -> (S, O), s: S, xs: seq<I>, x: I)
    ensures End(step, s, xs + [x]) == step(End(step, s, xs), x).0
    ensures Outs(step, s, xs + [x]) == Outs(step, s, xs) + [step(End(step, s, xs), x).1]
  {
    RunSplit(step, s, xs, [x]);
    var t := End(step, s, xs);
    assert [x][1..] == [];
    assert End(step, t, [x]) == End(step, step(t, x).0, []);
  }

  /** The elements satisfying `p`, in order. */
  function Keep<T>(p: T -> bool, xs: seq<T>): seq<T> {
    if xs == [] then [] else (if p(xs[0]) then [xs[0]] else []) + Keep(p, xs[1..])
  }

  lemma {:induction false} RunCons<S, I, O>(step: (S, I) -> (S, O), s: S, x: I, xs: seq<I>)
    ensures End(step, s, [x] + xs) == End(step, step(s, x).0, xs)
    ensures Outs(step, s, [x] + xs) == [step(s, x).1] + Outs(step, step(s, x).0, xs)
  {
    assert ([x] + xs)[1..] == xs;
  }

  lemma {:induction false} KeepCons<T>(p: T -> bool, x: T, xs: seq<T>)
    ensures Keep(p, [x] + xs) == (if p(x) then [x] else []) + Keep(p, xs)
  {
    assert ([x] + xs)[1..] == xs;
  }

  lemma {:induction false} Assoc<T>(a: seq<T>, b: seq<T>, c: seq<T>)
    ensures a + (b + c) == (a + b) + c
  {
  }

  lemma {:induction false} KeepSplit<T>(p: T -> bool, xs: seq<T>, ys: seq<T>)
    ensures Keep(p, xs + ys) == Keep(p, xs) + Keep(p, ys)
  {
    if xs == [] {
      assert xs + ys == ys;
    } else {
      assert (xs + ys)[1..] == xs[1..] + ys;
      KeepSplit(p, xs[1..], ys);
      Assoc(if p(xs[0]) then [xs[0]] else [], Keep(p, xs[1..]), Keep(p, ys));
    }
  }
}
