/** Pseudorandom sets of the incremental scheme: a key, a shift for slot 0 and
    a list of (range, count) slots. Slot i holds the images of 0, ..., count-1
    under its own small-domain permutation, moved behind the earlier ranges. */
module PirSets {
  import opened Counting
  import opened Keys
  import opened PrpFamily

  datatype Slot = Slot(range: nat, count: nat)

  datatype SetDesc = SetDesc(sk: Key, shift: nat, aux: seq<Slot>)

  /** The sum of the ranges of the first n slots. */
  function Accum(aux: seq<Slot>, n: nat): nat
    requires n <= |aux|
  {
    if n == 0 then 0 else Accum(aux, n - 1) + aux[n - 1].range
  }

  /** The sum of the counts of the first n slots. */
  function Total(aux: seq<Slot>, n: nat): nat
    requires n <= |aux|
  {
    if n == 0 then 0 else Total(aux, n - 1) + aux[n - 1].count
  }

  /** The shift lies inside slot 0. */
  predicate Laid(d: SetDesc) {
    |d.aux| > 0 && d.shift < d.aux[0].range
  }

  predicate Fits(d: SetDesc) {
    && Laid(d)
    && forall i | 0 <= i < |d.aux| :: d.aux[i].count <= d.aux[i].range
  }

  /** The bookkeeping of a set in a database of dbrange blocks. */
  predicate WellFormed(d: SetDesc, dbrange: nat, setsize: nat) {
    && Fits(d)
    && Accum(d.aux, |d.aux|) == dbrange
    && Total(d.aux, |d.aux|) == setsize
  }

  function SlotKey(f: Family, mk: Key, sk: Key, slot: nat): Key {
    if slot == 0 then sk else f.kdf(mk, sk, slot)
  }

  // ---- Rotation of slot 0

  function Rotate(y: nat, shift: nat, range: nat): (z: nat)
    requires y < range && shift < range
    ensures z < range
  {
    (y + shift) % range
  }

  function RotateBack(z: nat, shift: nat, range: nat): (y: nat)
    requires z < range && shift < range
    ensures y < range
  {
    (z + range - shift) % range
  }

  lemma ModSmall(v: nat, range: nat)
    requires v < 2 * range
    ensures v % range == if v < range then v else v - range
  {
    if v >= range {
      assert v == 1 * range + (v - range);
      QuotientIsOne(v / range, v % range, v, range);
    }
  }

  lemma QuotientIsOne(q: nat, r: nat, v: nat, range: nat)
    requires range <= v < 2 * range && r < range && v == q * range + r
    ensures q == 1 && r == v - range
  {
    MulAtLeast(q, 2, range);
  }

  lemma MulAtLeast(q: nat, k: nat, m: nat)
    ensures q >= k ==> q * m >= k * m
  {
  }

  lemma RotateInverse(y: nat, shift: nat, range: nat)
    requires y < range && shift < range
    ensures RotateBack(Rotate(y, shift, range), shift, range) == y
    ensures Rotate(RotateBack(y, shift, range), shift, range) == y
  {
    ModSmall(y + shift, range);
    ModSmall(Rotate(y, shift, range) + range - shift, range);
    ModSmall(y + range - shift, range);
    ModSmall(RotateBack(y, shift, range) + shift, range);
  }

  // ---- The permutation of one slot

  /** The x-th member of a slot, counted from the start of the slot's range. */
  ghost function Local(f: Family, mk: Key, d: SetDesc, slot: nat, x: nat): (z: nat)
    requires f.Valid() && Laid(d) && slot < |d.aux| && x < d.aux[slot].range
    ensures z < d.aux[slot].range
  {
    var range, key := d.aux[slot].range, SlotKey(f, mk, d.sk, slot);
    assert f.At(x, range, key);
    var y := f.walk(x, range, key);
    if d.shift != 0 && slot == 0 then Rotate(y, d.shift, range) else y
  }

  /** Which x gives the member z of a slot. */
  ghost function LocalInv(f: Family, mk: Key, d: SetDesc, slot: nat, z: nat): (x: nat)
    requires f.Valid() && Laid(d) && slot < |d.aux| && z < d.aux[slot].range
    ensures x < d.aux[slot].range
  {
    var range, key := d.aux[slot].range, SlotKey(f, mk, d.sk, slot);
    var y := if d.shift != 0 && slot == 0 then RotateBack(z, d.shift, range) else z;
    assert f.At(y, range, key);
    f.unwalk(y, range, key)
  }

  lemma LocalInverse(f: Family, mk: Key, d: SetDesc, slot: nat, x: nat)
    requires f.Valid() && Laid(d) && slot < |d.aux| && x < d.aux[slot].range
    ensures LocalInv(f, mk, d, slot, Local(f, mk, d, slot, x)) == x
    ensures Local(f, mk, d, slot, LocalInv(f, mk, d, slot, x)) == x
  {
    var range, key := d.aux[slot].range, SlotKey(f, mk, d.sk, slot);
    assert f.At(x, range, key);
    if d.shift != 0 && slot == 0 {
      RotateInverse(f.walk(x, range, key), d.shift, range);
      RotateInverse(x, d.shift, range);
      assert f.At(RotateBack(x, d.shift, range), range, key);
    }
  }

  /** The database index of the x-th member of a slot. */
  ghost function Index(f: Family, mk: Key, d: SetDesc, slot: nat, x: nat): nat
    requires f.Valid() && Laid(d) && slot < |d.aux| && x < d.aux[slot].range
  {
    Accum(d.aux, slot) + Local(f, mk, d, slot, x)
  }

  // ---- Expansion

  /** The members number lo, ..., hi-1 of one slot. */
  ghost function SlotSet(f: Family, mk: Key, d: SetDesc, slot: nat, lo: nat, hi: nat): set<nat>
    requires f.Valid() && Laid(d) && slot < |d.aux| && lo <= hi <= d.aux[slot].range
  {
    if lo == hi then {} else SlotSet(f, mk, d, slot, lo, hi - 1) + {Index(f, mk, d, slot, hi - 1)}
  }

  /** The indices that the first n slots contribute. */
  ghost function ExpandTo(f: Family, mk: Key, d: SetDesc, n: nat): set<nat>
    requires f.Valid() && Fits(d) && n <= |d.aux|
  {
    if n == 0 then {} else ExpandTo(f, mk, d, n - 1) + SlotSet(f, mk, d, n - 1, 0, d.aux[n - 1].count)
  }

  /** The set of database indices that the description stands for. */
  ghost function Expansion(f: Family, mk: Key, d: SetDesc): set<nat>
    requires f.Valid() && Fits(d)
  {
    ExpandTo(f, mk, d, |d.aux|)
  }

  predicate InSlot(aux: seq<Slot>, slot: nat, idx: nat)
    requires slot < |aux|
  {
    Accum(aux, slot) <= idx < Accum(aux, slot) + aux[slot].range
  }

  lemma {:induction false} SlotMember(f: Family, mk: Key, d: SetDesc, slot: nat, lo: nat, hi: nat, idx: nat)
    requires f.Valid() && Laid(d) && slot < |d.aux| && lo <= hi <= d.aux[slot].range
    ensures idx in SlotSet(f, mk, d, slot, lo, hi) <==>
      InSlot(d.aux, slot, idx) && lo <= LocalInv(f, mk, d, slot, idx - Accum(d.aux, slot)) < hi
    decreases hi
  {
    if lo < hi {
      SlotMember(f, mk, d, slot, lo, hi - 1, idx);
      LocalInverse(f, mk, d, slot, hi - 1);
      if InSlot(d.aux, slot, idx) {
        LocalInverse(f, mk, d, slot, idx - Accum(d.aux, slot));
      }
    }
  }

  lemma {:induction false} AccumMonotone(aux: seq<Slot>, m: nat, n: nat)
    requires m <= n <= |aux|
    ensures Accum(aux, m) <= Accum(aux, n)
    decreases n
  {
    if m < n {
      AccumMonotone(aux, m, n - 1);
    }
  }

  lemma InSlotUnique(aux: seq<Slot>, slot: nat, slot': nat, idx: nat)
    requires slot < |aux| && slot' < |aux| && InSlot(aux, slot, idx) && InSlot(aux, slot', idx)
    ensures slot == slot'
  {
    if slot < slot' {
      AccumMonotone(aux, slot + 1, slot');
    } else if slot' < slot {
      AccumMonotone(aux, slot' + 1, slot);
    }
  }

  /** Membership, slot by slot. */
  lemma {:induction false} ExpandMember(f: Family, mk: Key, d: SetDesc, n: nat, slot: nat, idx: nat)
    requires f.Valid() && Fits(d) && n <= |d.aux| && slot < |d.aux| && InSlot(d.aux, slot, idx)
    ensures idx in ExpandTo(f, mk, d, n) <==>
      slot < n && LocalInv(f, mk, d, slot, idx - Accum(d.aux, slot)) < d.aux[slot].count
  {
    if n > 0 {
      ExpandMember(f, mk, d, n - 1, slot, idx);
      SlotMember(f, mk, d, n - 1, 0, d.aux[n - 1].count, idx);
      if InSlot(d.aux, n - 1, idx) {
        InSlotUnique(d.aux, slot, n - 1, idx);
      }
    }
  }

  lemma {:induction false} ExpandBound(f: Family, mk: Key, d: SetDesc, n: nat, idx: nat)
    requires f.Valid() && Fits(d) && n <= |d.aux| && idx in ExpandTo(f, mk, d, n)
    ensures idx < Accum(d.aux, n)
  {
    if idx in SlotSet(f, mk, d, n - 1, 0, d.aux[n - 1].count) {
      SlotMember(f, mk, d, n - 1, 0, d.aux[n - 1].count, idx);
    } else {
      ExpandBound(f, mk, d, n - 1, idx);
    }
  }

  lemma SlotsDisjoint(f: Family, mk: Key, d: SetDesc, n: nat)
    requires f.Valid() && Fits(d) && n < |d.aux|
    ensures ExpandTo(f, mk, d, n) !! SlotSet(f, mk, d, n, 0, d.aux[n].count)
  {
    forall idx | idx in ExpandTo(f, mk, d, n)
      ensures idx !in SlotSet(f, mk, d, n, 0, d.aux[n].count)
    {
      ExpandBound(f, mk, d, n, idx);
      SlotMember(f, mk, d, n, 0, d.aux[n].count, idx);
    }
  }

  lemma SlotNext(f: Family, mk: Key, d: SetDesc, slot: nat, lo: nat, hi: nat)
    requires f.Valid() && Laid(d) && slot < |d.aux| && lo <= hi < d.aux[slot].range
    ensures Index(f, mk, d, slot, hi) !in SlotSet(f, mk, d, slot, lo, hi)
  {
    SlotMember(f, mk, d, slot, lo, hi, Index(f, mk, d, slot, hi));
    LocalInverse(f, mk, d, slot, hi);
  }

  // ---- Members by their walks

  /** Ranges and counts add up over a split of the slots. */
  lemma {:induction false} SumsSplit(a: seq<Slot>, b: seq<Slot>, n: nat)
    requires n <= |b|
    ensures Accum(a + b, |a| + n) == Accum(a, |a|) + Accum(b, n)
    ensures Total(a + b, |a| + n) == Total(a, |a|) + Total(b, n)
  {
    if n > 0 {
      SumsSplit(a, b, n - 1);
    } else {
      SumsOfPrefix(a, b, |a|);
    }
  }

  lemma {:induction false} SumsOfPrefix(a: seq<Slot>, b: seq<Slot>, n: nat)
    requires n <= |a|
    ensures Accum(a + b, n) == Accum(a, n) && Total(a + b, n) == Total(a, n)
  {
    if n > 0 {
      SumsOfPrefix(a, b, n - 1);
    }
  }

  /** The index that the x-th walk of a slot leads to: slot 0 is walked under the key of
      the set and moved by its shift, every other slot under its derived key, and the
      ranges before the slot are added. */
  ghost predicate WalksTo(f: Family, mk: Key, d: SetDesc, slot: nat, x: nat, idx: nat)
    requires slot < |d.aux|
  {
    var range := d.aux[slot].range;
    range > 0 && idx == Accum(d.aux, slot) +
      if slot == 0 then (f.walk(x, range, d.sk) + d.shift) % range else f.walk(x, range, f.kdf(mk, d.sk, slot))
  }

  lemma IndexByWalk(f: Family, mk: Key, d: SetDesc, slot: nat, x: nat)
    requires f.Valid() && Laid(d) && slot < |d.aux| && x < d.aux[slot].range
    ensures WalksTo(f, mk, d, slot, x, Index(f, mk, d, slot, x))
  {
    var range := d.aux[slot].range;
    assert f.At(x, range, SlotKey(f, mk, d.sk, slot));
    if slot == 0 && d.shift == 0 {
      ModSmall(f.walk(x, range, d.sk), range);
    }
  }

  /** The expansion holds the indices that the first count walks of each slot lead to. */
  lemma ExpansionByWalks(f: Family, mk: Key, d: SetDesc, idx: nat)
    requires f.Valid() && Fits(d)
    ensures idx in Expansion(f, mk, d) <==>
      exists slot: nat, x: nat :: slot < |d.aux| && x < d.aux[slot].count && WalksTo(f, mk, d, slot, x, idx)
  {
    if idx in Expansion(f, mk, d) {
      ExpandBound(f, mk, d, |d.aux|, idx);
      var slot := SlotOfIndex(d.aux, |d.aux|, idx);
      ExpandMember(f, mk, d, |d.aux|, slot, idx);
      var x := LocalInv(f, mk, d, slot, idx - Accum(d.aux, slot));
      LocalInverse(f, mk, d, slot, idx - Accum(d.aux, slot));
      IndexByWalk(f, mk, d, slot, x);
    }
    forall slot: nat, x: nat | slot < |d.aux| && x < d.aux[slot].count && WalksTo(f, mk, d, slot, x, idx)
      ensures idx in Expansion(f, mk, d)
    {
      WalkedMember(f, mk, d, slot, x, idx);
    }
  }

  lemma WalkedMember(f: Family, mk: Key, d: SetDesc, slot: nat, x: nat, idx: nat)
    requires f.Valid() && Fits(d) && slot < |d.aux| && x < d.aux[slot].count && WalksTo(f, mk, d, slot, x, idx)
    ensures idx in Expansion(f, mk, d)
  {
    IndexByWalk(f, mk, d, slot, x);
    LocalInverse(f, mk, d, slot, x);
    ExpandMember(f, mk, d, |d.aux|, slot, idx);
  }

  // ---- Size: members of a set are distinct

  lemma {:induction false} SlotSize(f: Family, mk: Key, d: SetDesc, slot: nat, lo: nat, hi: nat)
    requires f.Valid() && Laid(d) && slot < |d.aux| && lo <= hi <= d.aux[slot].range
    ensures |SlotSet(f, mk, d, slot, lo, hi)| == hi - lo
    decreases hi
  {
    if lo < hi {
      SlotSize(f, mk, d, slot, lo, hi - 1);
      SlotNext(f, mk, d, slot, lo, hi - 1);
      OneMoreSize(SlotSet(f, mk, d, slot, lo, hi - 1), SlotSet(f, mk, d, slot, lo, hi),
        Index(f, mk, d, slot, hi - 1), true);
    }
  }

  lemma DisjointSize(s: set<nat>, t: set<nat>)
    requires s !! t
    ensures |s + t| == |s| + |t|
  {
  }

  /** The last of n slots adds as many indices as its count says. */
  lemma SlotAdds(f: Family, mk: Key, d: SetDesc, n: nat, s: set<nat>, before: set<nat>)
    requires f.Valid() && Fits(d) && 0 < n <= |d.aux|
    requires s == ExpandTo(f, mk, d, n) && before == ExpandTo(f, mk, d, n - 1)
    ensures |s| == |before| + d.aux[n - 1].count
  {
    SlotsDisjoint(f, mk, d, n - 1);
    SlotSize(f, mk, d, n - 1, 0, d.aux[n - 1].count);
    DisjointSize(before, SlotSet(f, mk, d, n - 1, 0, d.aux[n - 1].count));
  }

  lemma {:induction false} ExpandSize(f: Family, mk: Key, d: SetDesc, n: nat, s: set<nat>)
    requires f.Valid() && Fits(d) && n <= |d.aux| && s == ExpandTo(f, mk, d, n)
    ensures |s| == Total(d.aux, n)
    decreases n
  {
    if n > 0 {
      ExpandSize(f, mk, d, n - 1, ExpandTo(f, mk, d, n - 1));
      SlotAdds(f, mk, d, n, s, ExpandTo(f, mk, d, n - 1));
    }
  }

  /** Every set has exactly setsize distinct indices, all in the database. */
  lemma ExpansionSize(f: Family, mk: Key, d: SetDesc, dbrange: nat, setsize: nat)
    requires f.Valid() && WellFormed(d, dbrange, setsize)
    ensures |Expansion(f, mk, d)| == setsize
    ensures forall idx | idx in Expansion(f, mk, d) :: idx < dbrange
  {
    ExpandSize(f, mk, d, |d.aux|, Expansion(f, mk, d));
    forall idx | idx in Expansion(f, mk, d)
      ensures idx < dbrange
    {
      ExpandBound(f, mk, d, |d.aux|, idx);
    }
  }

  lemma {:induction false} SlotOfIndex(aux: seq<Slot>, n: nat, idx: nat) returns (slot: nat)
    requires n <= |aux| && idx < Accum(aux, n)
    ensures slot < n && InSlot(aux, slot, idx)
  {
    if idx >= Accum(aux, n - 1) {
      slot := n - 1;
    } else {
      slot := SlotOfIndex(aux, n - 1, idx);
    }
  }
}
