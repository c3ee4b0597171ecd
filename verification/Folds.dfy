/** Left folds: the state a machine is in after a sequence of inputs. */
module Folds {

  function Fold<S, T>(f: (S, T) -> S, s: S, xs: seq<T>): S
    decreases xs
  {
    if xs == [] then s else Fold(f, f(s, xs[0]), xs[1..])
  }

  lemma {:induction false} FoldConcat<S, T>(f: (S, T) -> S, s: S, xs: seq<T>, ys: seq<T>)
    ensures Fold(f, s, xs + ys) == Fold(f, Fold(f, s, xs), ys)
    decreases xs
  {
    if xs == [] {
      assert xs + ys == ys;
    } else {
      FoldConcat(f, f(s, xs[0]), xs[1..], ys);
      assert (xs + ys)[1..] == xs[1..] + ys;
    }
  }

  lemma FoldOne<S, T>(f: (S, T) -> S, s: S, x: T)
    ensures Fold(f, s, [x]) == f(s, x)
  {
    assert [x][1..] == [];
  }

  /** The last input is the last step. */
  lemma FoldSnoc<S, T>(f: (S, T) -> S, s: S, xs: seq<T>, x: T)
    ensures Fold(f, s, xs + [x]) == f(Fold(f, s, xs), x)
  {
    FoldConcat(f, s, xs, [x]);
    FoldOne(f, Fold(f, s, xs), x);
  }

  lemma FoldConcat4<S, T>(f: (S, T) -> S, s: S, a: seq<T>, b: seq<T>, c: seq<T>, d: seq<T>)
    ensures Fold(f, s, a + b + c + d) == Fold(f, Fold(f, Fold(f, Fold(f, s, a), b), c), d)
  {
    FoldConcat(f, s, a, b);
    FoldConcat(f, s, a + b, c);
    FoldConcat(f, s, a + b + c, d);
  }

  lemma Assoc<T>(a: seq<T>, b: seq<T>, c: seq<T>)
    ensures (a + b) + c == a + (b + c)
  {
  }
}
