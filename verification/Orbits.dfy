/** Orbits of a permutation of [0, size): following it from a point below
    `range` comes back below `range`, and the first return is undone by the
    first return of the inverse permutation. */
module Orbits {

  datatype Permutation = Permutation(size: nat, to: nat -> nat, from: nat -> nat) {
    /** Names the points at which Valid is to be used. */
    predicate Has(x: nat) {
      x < size
    }

    ghost predicate Valid() {
      && (forall x: nat {:trigger Has(x)} | Has(x) :: to(x) < size && from(to(x)) == x)
      && (forall x: nat {:trigger Has(x)} | Has(x) :: from(x) < size && to(from(x)) == x)
    }

    function Back(): Permutation {
      Permutation(size, from, to)
    }
  }

  // ---- Orbits

  function Iterate(c: Permutation, k: nat, x: nat): nat {
    if k == 0 then x else c.to(Iterate(c, k - 1, x))
  }

  /** The first k steps from x all end at or above `range`. */
  ghost predicate StaysOut(c: Permutation, range: nat, x: nat, k: nat) {
    k == 0 || (StaysOut(c, range, x, k - 1) && Iterate(c, k, x) >= range)
  }

  /** The orbit of x leaves [0, range) at once and is first back, at y, after k steps. */
  ghost predicate FirstReturn(c: Permutation, range: nat, x: nat, y: nat, k: nat) {
    1 <= k && StaysOut(c, range, x, k - 1) && Iterate(c, k, x) == y < range
  }

  lemma {:induction false} StaysOutAt(c: Permutation, range: nat, x: nat, k: nat, j: nat)
    requires StaysOut(c, range, x, k) && 1 <= j <= k
    ensures Iterate(c, j, x) >= range && StaysOut(c, range, x, j - 1)
  {
    if j < k {
      StaysOutAt(c, range, x, k - 1, j);
    }
  }

  lemma {:induction false} IterateBound(c: Permutation, k: nat, x: nat)
    requires c.Valid()
    requires x < c.size
    ensures Iterate(c, k, x) < c.size
  {
    if k > 0 {
      IterateBound(c, k - 1, x);
      assert c.Has(Iterate(c, k - 1, x));
    }
  }

  /** j steps of the inverse take back the last j of k steps. */
  lemma {:induction false} IterateBack(c: Permutation, j: nat, k: nat, x: nat)
    requires c.Valid()
    requires x < c.size && j <= k
    ensures Iterate(c.Back(), j, Iterate(c, k, x)) == Iterate(c, k - j, x)
    decreases j
  {
    if j > 0 {
      IterateBack(c, j - 1, k, x);
      IterateBound(c, k - j, x);
      assert c.Has(Iterate(c, k - j, x));
      assert Iterate(c, k - (j - 1), x) == c.to(Iterate(c, k - j, x));
    }
  }

  lemma {:induction false} BackStaysOut(c: Permutation, range: nat, x: nat, k: nat, j: nat)
    requires c.Valid()
    requires x < c.size && j < k && StaysOut(c, range, x, k - 1)
    ensures StaysOut(c.Back(), range, Iterate(c, k, x), j)
    decreases j
  {
    if j > 0 {
      BackStaysOut(c, range, x, k, j - 1);
      IterateBack(c, j, k, x);
      StaysOutAt(c, range, x, k - 1, k - j);
    }
  }

  /** The first return of the inverse retraces the first return. */
  lemma ReturnReverses(c: Permutation, range: nat, x: nat, y: nat, k: nat)
    requires c.Valid()
    requires x < range <= c.size && FirstReturn(c, range, x, y, k)
    ensures FirstReturn(c.Back(), range, y, x, k)
  {
    IterateBack(c, k, k, x);
    BackStaysOut(c, range, x, k, k - 1);
  }

  lemma ReturnUnique(c: Permutation, range: nat, x: nat, y: nat, k: nat, y': nat, k': nat)
    requires FirstReturn(c, range, x, y, k) && FirstReturn(c, range, x, y', k')
    ensures y == y' && k == k'
  {
    if k < k' {
      StaysOutAt(c, range, x, k' - 1, k);
    } else if k' < k {
      StaysOutAt(c, range, x, k - 1, k');
    }
  }

  // ---- Every orbit returns

  ghost function Visited(c: Permutation, x: nat, m: nat): set<nat> {
    if m == 0 then {} else Visited(c, x, m - 1) + {Iterate(c, m, x)}
  }

  lemma {:induction false} VisitedAt(c: Permutation, x: nat, m: nat, y: nat) returns (j: nat)
    requires y in Visited(c, x, m)
    ensures 1 <= j <= m && y == Iterate(c, j, x)
  {
    if y == Iterate(c, m, x) {
      j := m;
    } else {
      j := VisitedAt(c, x, m - 1, y);
    }
  }

  lemma NoRepeat(c: Permutation, range: nat, x: nat, j: nat, m: nat)
    requires c.Valid()
    requires x < range <= c.size && 1 <= j < m
    requires Iterate(c, m - j, x) >= range
    ensures Iterate(c, m, x) != Iterate(c, j, x)
  {
    IterateBack(c, j, m, x);
    IterateBack(c, j, j, x);
  }

  /** As long as the walk stays out of range it visits new points. */
  lemma {:induction false} VisitedDistinct(c: Permutation, range: nat, x: nat, m: nat)
    requires c.Valid()
    requires x < range <= c.size && StaysOut(c, range, x, m)
    ensures |Visited(c, x, m)| == m
    ensures forall y | y in Visited(c, x, m) :: range <= y < c.size
  {
    if m > 0 {
      VisitedDistinct(c, range, x, m - 1);
      IterateBound(c, m, x);
      if Iterate(c, m, x) in Visited(c, x, m - 1) {
        var j := VisitedAt(c, x, m - 1, Iterate(c, m, x));
        StaysOutAt(c, range, x, m, m - j);
        NoRepeat(c, range, x, j, m);
      }
    }
  }

  lemma {:induction false} IntervalSize(s: set<nat>, lo: nat, hi: nat)
    requires lo <= hi && forall y | y in s :: lo <= y < hi
    ensures |s| <= hi - lo
    decreases hi
  {
    if lo == hi {
      assert s == {};
    } else {
      IntervalSize(s - {hi - 1}, lo, hi - 1);
    }
  }

  /** A walk cannot stay out of range for more than 2^n - range steps. */
  lemma OutsideBound(c: Permutation, range: nat, x: nat, m: nat)
    requires c.Valid()
    requires x < range <= c.size && StaysOut(c, range, x, m)
    ensures m <= c.size - range
  {
    VisitedDistinct(c, range, x, m);
    IntervalSize(Visited(c, x, m), range, c.size);
  }

  lemma {:induction false} Returns(c: Permutation, range: nat, x: nat, m: nat)
    requires c.Valid()
    requires x < range <= c.size && StaysOut(c, range, x, m)
    ensures exists y, k :: FirstReturn(c, range, x, y, k)
    decreases c.size - m
  {
    OutsideBound(c, range, x, m);
    var y := Iterate(c, m + 1, x);
    if y < range {
      assert FirstReturn(c, range, x, y, m + 1);
    } else {
      Returns(c, range, x, m + 1);
    }
  }

  // ---- A walk in progress

  /** After k steps from x the walk is at z, and it was out of range in between. */
  ghost predicate Reaches(c: Permutation, range: nat, x: nat, z: nat, k: nat) {
    k > 0 && z == Iterate(c, k, x) < c.size && StaysOut(c, range, x, k - 1)
  }

  lemma ReachesFirst(c: Permutation, range: nat, x: nat, z: nat)
    requires c.Valid() && x < c.size && z == c.to(x)
    ensures Reaches(c, range, x, z, 1)
  {
    assert c.Has(x);
    assert Iterate(c, 1, x) == c.to(Iterate(c, 0, x));
  }

  /** One step more, from a point out of range. */
  lemma ReachesNext(c: Permutation, range: nat, x: nat, z: nat, next: nat, k: nat) returns (k': nat)
    requires c.Valid() && x < range <= c.size && Reaches(c, range, x, z, k) && z >= range && next == c.to(z)
    ensures k' == k + 1 && k < c.size && Reaches(c, range, x, next, k')
  {
    OutsideBound(c, range, x, k);
    assert c.Has(z);
    k' := k + 1;
  }

  lemma ReachesEnd(c: Permutation, range: nat, x: nat, z: nat, k: nat)
    requires Reaches(c, range, x, z, k) && z < range
    ensures FirstReturn(c, range, x, z, k)
  {
  }
}
