/** Runs of a state machine: folding steps over a state, and what every such run keeps. */
module Traces {

  function Fold<S, A>(s: S, steps: seq<A>, next: (S, A) -> S): S
    decreases |steps|
  {
    if steps == [] then s else Fold(next(s, steps[0]), steps[1..], next)
  }

  /** What holds at the start and is kept by every step holds wherever a run leads. */
  lemma {:induction false} FoldKeeps<S(!new), A(!new)>(s: S, steps: seq<A>, next: (S, A) -> S, inv: S -> bool)
    requires inv(s)
    requires forall t, a :: inv(t) ==> inv(next(t, a))
    ensures inv(Fold(s, steps, next))
    decreases |steps|
  {
    if steps != [] {
      FoldKeeps(next(s, steps[0]), steps[1..], next, inv);
    }
  }

  /** A flag that one kind of step sets and none clears is set exactly when it was, or a step of that kind was taken. */
  lemma {:induction false} FoldSets<S(!new), A(!new)>(s: S, steps: seq<A>, next: (S, A) -> S, flag: S -> bool, sets: A -> bool)
    requires forall t, a :: flag(next(t, a)) <==> flag(t) || sets(a)
    ensures flag(Fold(s, steps, next)) <==> flag(s) || exists a <- steps :: sets(a)
    decreases |steps|
  {
    if steps != [] {
      FoldSets(next(s, steps[0]), steps[1..], next, flag, sets);
      assert steps == [steps[0]] + steps[1..];
    }
  }

  lemma {:induction false} FoldAppend<S, A>(s: S, a: seq<A>, b: seq<A>, next: (S, A) -> S)
    ensures Fold(s, a + b, next) == Fold(Fold(s, a, next), b, next)
    decreases |a|
  {
    if a == [] {
      assert a + b == b;
    } else {
      assert (a + b)[1..] == a[1..] + b;
      FoldAppend(next(s, a[0]), a[1..], b, next);
    }
  }

  lemma FoldOne<S, A>(s: S, a: A, next: (S, A) -> S)
    ensures Fold(s, [a], next) == next(s, a)
  {
    assert [a][1..] == [];
    assert Fold(next(s, a), [], next) == next(s, a);
  }

  lemma FoldTwo<S, A>(s: S, a: A, b: A, next: (S, A) -> S)
    ensures Fold(s, [a, b], next) == next(next(s, a), b)
  {
    assert [a, b][1..] == [b] && [b][1..] == [];
    assert Fold(next(s, a), [b], next) == next(next(s, a), b);
  }
}
