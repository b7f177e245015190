/** The expansion loop of a query as it is written: a slot whose count exceeds the
    database size is skipped, and its range is then not added to the offset of the
    slots behind it. */
module PirReach {
  import opened Keys
  import opened PirSets
  import opened PrpFamily

  /** The offset that the loop keeps, after the first n slots. */
  function Base(aux: seq<Slot>, dbrange: nat, n: nat): nat
    requires n <= |aux|
  {
    if n == 0 then 0 else Base(aux, dbrange, n - 1) + (if aux[n - 1].count > dbrange then 0 else aux[n - 1].range)
  }

  /** The first n members of a slot, placed at an offset. */
  ghost function Moved(f: Family, mk: Key, d: SetDesc, slot: nat, base: nat, n: nat): set<nat>
    requires f.Valid() && Laid(d) && slot < |d.aux| && n <= d.aux[slot].range
  {
    if n == 0 then {} else Moved(f, mk, d, slot, base, n - 1) + {base + Local(f, mk, d, slot, n - 1)}
  }

  /** No walk of the loop fails: every count is in range or skipped. */
  predicate Expandable(d: SetDesc, dbrange: nat) {
    Laid(d) && forall i | 0 <= i < |d.aux| :: d.aux[i].count <= d.aux[i].range || d.aux[i].count > dbrange
  }

  ghost function ReachTo(f: Family, mk: Key, d: SetDesc, dbrange: nat, n: nat): set<nat>
    requires f.Valid() && Expandable(d, dbrange) && n <= |d.aux|
  {
    if n == 0 then {}
    else if d.aux[n - 1].count > dbrange then ReachTo(f, mk, d, dbrange, n - 1)
    else
      ReachTo(f, mk, d, dbrange, n - 1)
      + Moved(f, mk, d, n - 1, Base(d.aux, dbrange, n - 1), d.aux[n - 1].count)
  }

  /** What the loop inserts into the set of a query. */
  ghost function Reached(f: Family, mk: Key, d: SetDesc, dbrange: nat): set<nat>
    requires f.Valid() && Expandable(d, dbrange)
  {
    ReachTo(f, mk, d, dbrange, |d.aux|)
  }

  lemma {:induction false} MovedIsSlotSet(f: Family, mk: Key, d: SetDesc, slot: nat, n: nat)
    requires f.Valid() && Laid(d) && slot < |d.aux| && n <= d.aux[slot].range
    ensures Moved(f, mk, d, slot, Accum(d.aux, slot), n) == SlotSet(f, mk, d, slot, 0, n)
  {
    if n > 0 {
      MovedIsSlotSet(f, mk, d, slot, n - 1);
    }
  }

  /** The members of a placed slot. */
  lemma {:induction false} MovedMember(f: Family, mk: Key, d: SetDesc, slot: nat, base: nat, n: nat, idx: nat)
    requires f.Valid() && Laid(d) && slot < |d.aux| && n <= d.aux[slot].range
    ensures idx in Moved(f, mk, d, slot, base, n) <==>
      base <= idx < base + d.aux[slot].range && LocalInv(f, mk, d, slot, idx - base) < n
  {
    if n > 0 {
      MovedMember(f, mk, d, slot, base, n - 1, idx);
      LocalInverse(f, mk, d, slot, n - 1);
      if base <= idx < base + d.aux[slot].range {
        LocalInverse(f, mk, d, slot, idx - base);
      }
    }
  }

  lemma {:induction false} BaseBound(aux: seq<Slot>, dbrange: nat, n: nat)
    requires n <= |aux|
    ensures Base(aux, dbrange, n) <= Accum(aux, n)
  {
    if n > 0 {
      BaseBound(aux, dbrange, n - 1);
    }
  }

  lemma {:induction false} ReachBound(f: Family, mk: Key, d: SetDesc, dbrange: nat, n: nat, idx: nat)
    requires f.Valid() && Expandable(d, dbrange) && n <= |d.aux| && idx in ReachTo(f, mk, d, dbrange, n)
    ensures idx < Base(d.aux, dbrange, n)
  {
    if d.aux[n - 1].count <= dbrange && idx in Moved(f, mk, d, n - 1, Base(d.aux, dbrange, n - 1), d.aux[n - 1].count) {
      MovedMember(f, mk, d, n - 1, Base(d.aux, dbrange, n - 1), d.aux[n - 1].count, idx);
    } else {
      ReachBound(f, mk, d, dbrange, n - 1, idx);
    }
  }

  /** Without a wrapped count the loop computes the expansion. */
  lemma {:induction false} ReachIsExpand(f: Family, mk: Key, d: SetDesc, dbrange: nat, n: nat)
    requires f.Valid() && Fits(d) && Accum(d.aux, |d.aux|) <= dbrange && n <= |d.aux|
    ensures Expandable(d, dbrange)
    ensures Base(d.aux, dbrange, n) == Accum(d.aux, n)
    ensures ReachTo(f, mk, d, dbrange, n) == ExpandTo(f, mk, d, n)
  {
    if n > 0 {
      ReachIsExpand(f, mk, d, dbrange, n - 1);
      AccumMonotone(d.aux, n, |d.aux|);
      MovedIsSlotSet(f, mk, d, n - 1, d.aux[n - 1].count);
    }
  }

  lemma ReachedIsExpansion(f: Family, mk: Key, d: SetDesc, dbrange: nat, setsize: nat)
    requires f.Valid() && WellFormed(d, dbrange, setsize)
    ensures Expandable(d, dbrange) && Reached(f, mk, d, dbrange) == Expansion(f, mk, d)
  {
    ReachIsExpand(f, mk, d, dbrange, |d.aux|);
  }
}
