/** Picking elements from a list in order, as a function and by positions. */
module Listing {

  /** The elements that satisfy `p`, in order. */
  function Kept<T>(xs: seq<T>, p: T -> bool): seq<T> {
    if xs == [] then [] else
      var n := |xs| - 1;
      Kept(xs[..n], p) + if p(xs[n]) then [xs[n]] else []
  }

  lemma KeptBehind<T>(xs: seq<T>, x: T, p: T -> bool)
    ensures Kept(xs + [x], p) == Kept(xs, p) + if p(x) then [x] else []
  {
    assert (xs + [x])[..|xs|] == xs;
  }

  lemma {:induction false} KeptConcat<T>(a: seq<T>, b: seq<T>, p: T -> bool)
    ensures Kept(a + b, p) == Kept(a, p) + Kept(b, p)
    decreases |b|
  {
    if b == [] {
      assert a + b == a;
    } else {
      var n := |b| - 1;
      var last := if p(b[n]) then [b[n]] else [];
      KeptConcat(a, b[..n], p);
      KeptBehind(a + b[..n], b[n], p);
      assert a + b == (a + b[..n]) + [b[n]];
      hide Kept;
      assert (Kept(a, p) + Kept(b[..n], p)) + last == Kept(a, p) + (Kept(b[..n], p) + last);
    }
  }

  lemma KeptInFront<T>(x: T, xs: seq<T>, p: T -> bool)
    ensures Kept([x] + xs, p) == (if p(x) then [x] else []) + Kept(xs, p)
  {
    KeptConcat([x], xs, p);
  }

  /** `at` holds, in order, exactly the positions of the elements that satisfy `p`. */
  ghost predicate Selects<T(!new)>(xs: seq<T>, p: T -> bool, at: seq<nat>) {
    && (forall k | 0 <= k < |at| :: at[k] < |xs| && p(xs[at[k]]))
    && (forall j, k | 0 <= j < k < |at| :: at[j] < at[k])
    && (forall i | 0 <= i < |xs| && p(xs[i]) :: i in at)
  }

  lemma SelectsBehind<T(!new)>(xs: seq<T>, x: T, p: T -> bool, at: seq<nat>)
    requires Selects(xs, p, at)
    ensures Selects(xs + [x], p, if p(x) then at + [|xs|] else at)
  {
    var all, at' := xs + [x], if p(x) then at + [|xs|] else at;
    forall i | 0 <= i < |all| && p(all[i]) ensures i in at' {
      if i < |xs| {
        assert xs[i] == all[i];
      } else {
        assert at'[|at|] == i;
      }
    }
  }

  /** The elements at those positions. */
  ghost predicate Reads<T(!new)>(xs: seq<T>, at: seq<nat>, ys: seq<T>) {
    |ys| == |at| && forall k | 0 <= k < |at| :: at[k] < |xs| && ys[k] == xs[at[k]]
  }

  lemma ReadsBehind<T(!new)>(xs: seq<T>, x: T, at: seq<nat>, ys: seq<T>)
    requires Reads(xs, at, ys)
    ensures Reads(xs + [x], at, ys) && Reads(xs + [x], at + [|xs|], ys + [x])
  {
  }

  /** What is kept: the element at each such position, one after another, and nothing else. */
  lemma {:induction false} KeptSelects<T(!new)>(xs: seq<T>, p: T -> bool) returns (at: seq<nat>)
    ensures Selects(xs, p, at) && Reads(xs, at, Kept(xs, p))
  {
    hide Selects, Reads, Kept;
    if xs == [] {
      NothingSelected(p);
      at := [];
    } else {
      var n := |xs| - 1;
      var init, x := xs[..n], xs[n];
      assert xs == init + [x] && |init| == n;
      var before := KeptSelects(init, p);
      KeptBehind(init, x, p);
      SelectsBehind(init, x, p, before);
      ReadsBehind(init, x, before, Kept(init, p));
      if p(x) {
        at := before + [n];
      } else {
        assert Kept(init, p) + [] == Kept(init, p);
        at := before;
      }
    }
  }

  lemma NothingSelected<T(!new)>(p: T -> bool)
    ensures Selects([], p, []) && Reads([], [], Kept([], p))
  {
  }
}
