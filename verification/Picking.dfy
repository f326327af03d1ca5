/** Sub-sequences told by positions: which are picked, that none is picked twice, and in what order. */
module Picking {

  ghost predicate Increasing(ks: seq<nat>) { forall i, j | 0 <= i < j < |ks| :: ks[i] < ks[j] }

  /** `ys` holds the elements of `xs` at just those positions that `p` accepts, in order; `ks` lists the positions. */
  ghost predicate PicksAt<T>(xs: seq<T>, p: nat -> bool, ks: seq<nat>, ys: seq<T>) {
    && Increasing(ks) && (forall k: nat :: k in ks <==> k < |xs| && p(k))
    && |ys| == |ks| && forall m | 0 <= m < |ks| :: ks[m] < |xs| && ys[m] == xs[ks[m]]
  }

  ghost predicate Picks<T>(xs: seq<T>, p: nat -> bool, ys: seq<T>) { exists ks :: PicksAt(xs, p, ks, ys) }

  lemma PickNone<T>(p: nat -> bool)
    ensures Picks<T>([], p, [])
  {
    assert PicksAt<T>([], p, [], []);
  }

  lemma PickOneMore<T>(xs: seq<T>, x: T, p: nat -> bool, ys: seq<T>)
    requires Picks(xs, p, ys)
    ensures Picks(xs + [x], p, if p(|xs|) then ys + [x] else ys)
  {
    var ks :| PicksAt(xs, p, ks, ys);
    if p(|xs|) {
      PickedAfter(xs, x, p, ks, ys);
    } else {
      assert PicksAt(xs + [x], p, ks, ys);
    }
  }

  lemma PickedAfter<T>(xs: seq<T>, x: T, p: nat -> bool, ks: seq<nat>, ys: seq<T>)
    requires PicksAt(xs, p, ks, ys) && p(|xs|)
    ensures PicksAt(xs + [x], p, ks + [|xs|], ys + [x])
  {
    var n := |xs|;
    var all, picked, more := xs + [x], ys + [x], ks + [n];
    assert forall k: nat :: k in more <==> k in ks || k == n;
    assert Increasing(more);
    forall m | 0 <= m < |more| ensures more[m] < |all| && picked[m] == all[more[m]] {
      if m < |ks| {
        assert more[m] == ks[m] && picked[m] == ys[m];
      }
    }
  }

  /** Only what `p` says of positions in the sequence matters. */
  lemma PickAlike<T>(xs: seq<T>, p: nat -> bool, q: nat -> bool, ys: seq<T>)
    requires Picks(xs, p, ys) && forall k: nat | k < |xs| :: p(k) <==> q(k)
    ensures Picks(xs, q, ys)
  {
    var ks :| PicksAt(xs, p, ks, ys);
    assert PicksAt(xs, q, ks, ys);
  }

  // ---- Positions in a list of lists ----

  datatype Place = Place(list: nat, at: nat)

  predicate Earlier(a: Place, b: Place) { a.list < b.list || (a.list == b.list && a.at < b.at) }

  ghost predicate InOrder(ps: seq<Place>) { forall i, j | 0 <= i < j < |ps| :: Earlier(ps[i], ps[j]) }
}
