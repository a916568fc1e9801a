module Sequences {
  predicate IsDistinct<T(==)>(xs: seq<T>) {
    forall i, j | 0 <= i < j < |xs| :: xs[i] != xs[j]
  }

  // r has one element for each position of xs at which p holds, in order: `at` lists the positions.
  ghost predicate PicksAt<T>(r: seq<T>, xs: seq<T>, p: T -> bool, at: seq<nat>) {
    && |at| == |r|
    && (forall k | 0 <= k < |r| :: at[k] < |xs| && r[k] == xs[at[k]])
    && (forall k, l | 0 <= k < l < |r| :: at[k] < at[l])
    && (forall i: nat | i < |xs| :: p(xs[i]) <==> i in at)
  }

  ghost predicate Picks<T>(r: seq<T>, xs: seq<T>, p: T -> bool) {
    exists at :: PicksAt(r, xs, p, at)
  }

  lemma PicksNone<T>(p: T -> bool)
    ensures Picks([], [], p)
  {
    assert PicksAt([], [], p, []);
  }

  lemma PicksOneMore<T>(r: seq<T>, xs: seq<T>, p: T -> bool, x: T)
    requires Picks(r, xs, p)
    ensures Picks(r + (if p(x) then [x] else []), xs + [x], p)
  {
    var at :| PicksAt(r, xs, p, at);
    if p(x) {
      PicksLast(r, xs, p, x, at);
    } else {
      SkipsLast(r, xs, p, x, at);
      assert r + [] == r;
    }
  }

  lemma PicksLast<T>(r: seq<T>, xs: seq<T>, p: T -> bool, x: T, at: seq<nat>)
    requires PicksAt(r, xs, p, at) && p(x)
    ensures PicksAt(r + [x], xs + [x], p, at + [|xs|])
  {
    var at' := at + [|xs|];
    assert at'[|at|] == |xs|;
    forall i: nat | i < |xs|
      ensures i in at' <==> i in at
    {
      assert i in at' ==> exists k :: 0 <= k < |at'| && at'[k] == i;
    }
    assert |xs| in at';
  }

  lemma SkipsLast<T>(r: seq<T>, xs: seq<T>, p: T -> bool, x: T, at: seq<nat>)
    requires PicksAt(r, xs, p, at) && !p(x)
    ensures PicksAt(r, xs + [x], p, at)
  {
    assert |xs| !in at;
  }
}
