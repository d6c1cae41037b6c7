/** Folding a list of updates over a state, when updates may be swapped. */
module Reordering {

  function Fold<S, E>(step: (S, E) -> S, s: S, es: seq<E>): S
    decreases |es|
  {
    if es == [] then s else Fold(step, step(s, es[0]), es[1..])
  }

  /** `swap(e, f)` says that, from any state satisfying the invariant, `e` and `f` commute. */
  ghost predicate Swappable<S(!new), E(!new)>(step: (S, E) -> S, inv: S -> bool, swap: (E, E) -> bool) {
    && (forall s, e {:trigger step(s, e)} :: inv(s) ==> inv(step(s, e)))
    && (forall s, e, f {:trigger step(step(s, e), f)} ::
          inv(s) && swap(e, f) ==> step(step(s, e), f) == step(step(s, f), e))
  }

  /** Any two list positions hold swappable updates. */
  ghost predicate AllSwap<E(!new)>(swap: (E, E) -> bool, es: seq<E>) {
    forall i, j :: 0 <= i < |es| && 0 <= j < |es| && i != j ==> swap(es[i], es[j])
  }

  lemma {:induction false} MoveToFront<S(!new), E(!new)>(
    step: (S, E) -> S, inv: S -> bool, swap: (E, E) -> bool, s: S, before: seq<E>, e: E, after: seq<E>)
    requires Swappable(step, inv, swap) && inv(s)
    requires forall i :: 0 <= i < |before| ==> swap(before[i], e)
    ensures Fold(step, s, before + [e] + after) == Fold(step, s, [e] + (before + after))
    decreases |before|
  {
    if before == [] {
      assert before + [e] + after == [e] + (before + after);
    } else {
      var f, rest := before[0], before[1..];
      MoveToFront(step, inv, swap, step(s, f), rest, e, after);
      assert (before + [e] + after)[1..] == rest + [e] + after;
      assert (before + [e] + after)[0] == f;
      assert ([e] + (rest + after))[1..] == rest + after;
      assert ([e] + (before + after))[1..] == before + after;
      assert (before + after)[1..] == rest + after && (before + after)[0] == f;
      assert step(step(s, f), e) == step(step(s, e), f);
    }
  }

  lemma Without<E>(xs: seq<E>, ys: seq<E>) returns (i: nat)
    requires xs != [] && multiset(xs) == multiset(ys)
    ensures i < |ys| && ys[i] == xs[0]
    ensures multiset(xs[1..]) == multiset(ys[..i] + ys[i + 1..])
  {
    assert xs[0] in multiset(ys);
    i :| 0 <= i < |ys| && ys[i] == xs[0];
    assert ys == ys[..i] + [ys[i]] + ys[i + 1..];
    assert xs == [xs[0]] + xs[1..];
    assert multiset(ys) == multiset(ys[..i]) + multiset{ys[i]} + multiset(ys[i + 1..]);
    assert multiset(xs) == multiset{xs[0]} + multiset(xs[1..]);
    assert multiset(xs[1..]) == multiset(xs) - multiset{xs[0]};
    assert multiset(ys[..i] + ys[i + 1..]) == multiset(ys) - multiset{ys[i]};
  }

  /** Swappable updates give one result for every order of the same updates. */
  lemma {:induction false} OrderFree<S(!new), E(!new)>(
    step: (S, E) -> S, inv: S -> bool, swap: (E, E) -> bool, s: S, xs: seq<E>, ys: seq<E>)
    requires Swappable(step, inv, swap) && inv(s)
    requires multiset(xs) == multiset(ys)
    requires AllSwap(swap, ys)
    ensures Fold(step, s, xs) == Fold(step, s, ys)
    decreases |xs|
  {
    if xs == [] {
      assert |multiset(ys)| == |ys|;
    } else {
      var i := Without(xs, ys);
      var before, after := ys[..i], ys[i + 1..];
      assert ys == before + [ys[i]] + after;
      MoveToFront(step, inv, swap, s, before, ys[i], after);
      assert ([ys[i]] + (before + after))[1..] == before + after;
      var rest := before + after;
      forall j, k | 0 <= j < |rest| && 0 <= k < |rest| && j != k
        ensures swap(rest[j], rest[k])
      {
        assert rest[j] == ys[if j < i then j else j + 1] && rest[k] == ys[if k < i then k else k + 1];
      }
      OrderFree(step, inv, swap, step(s, ys[i]), xs[1..], rest);
    }
  }
}
