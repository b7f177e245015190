/** The client's search for a set that contains an index, which runs the inverse
    walks instead of expanding the sets. */
module PirSearch {
  import opened Keys
  import opened PirSets
  import opened PrpFamily

  /** The point that the search recovers in a slot: slot 0 is rotated back when
      the shift is not zero; in every other case the key is derived. */
  ghost function SearchInv(f: Family, mk: Key, d: SetDesc, slot: nat, idx: nat): nat
    requires Laid(d) && slot < |d.aux| && InSlot(d.aux, slot, idx)
  {
    var range := d.aux[slot].range;
    if d.shift != 0 && slot == 0 then f.unwalk(RotateBack(idx, d.shift, range), range, d.sk)
    else f.unwalk(idx - Accum(d.aux, slot), range, f.kdf(mk, d.sk, slot))
  }

  ghost predicate SlotAccepts(f: Family, mk: Key, d: SetDesc, slot: nat, idx: nat)
    requires Laid(d) && slot < |d.aux|
  {
    InSlot(d.aux, slot, idx) && SearchInv(f, mk, d, slot, idx) < d.aux[slot].count
  }

  /** The search takes the set for this index. */
  ghost predicate Accepts(f: Family, mk: Key, d: SetDesc, idx: nat)
    requires Laid(d)
  {
    exists slot | 0 <= slot < |d.aux| :: SlotAccepts(f, mk, d, slot, idx)
  }

  /** Outside slot 0, or with a shift, the search uses the key of the expansion. */
  predicate SearchUsesSetKey(d: SetDesc, idx: nat)
    requires Laid(d)
  {
    d.shift != 0 || idx >= d.aux[0].range
  }

  lemma AcceptsInSlot(f: Family, mk: Key, d: SetDesc, slot: nat, idx: nat)
    requires Laid(d) && slot < |d.aux| && InSlot(d.aux, slot, idx)
    ensures Accepts(f, mk, d, idx) <==> SearchInv(f, mk, d, slot, idx) < d.aux[slot].count
  {
    if Accepts(f, mk, d, idx) {
      var slot' :| 0 <= slot' < |d.aux| && SlotAccepts(f, mk, d, slot', idx);
      InSlotUnique(d.aux, slot, slot', idx);
    } else {
      assert !SlotAccepts(f, mk, d, slot, idx);
    }
  }

  lemma NotInAnySlot(f: Family, mk: Key, d: SetDesc, idx: nat)
    requires f.Valid() && Fits(d) && idx >= Accum(d.aux, |d.aux|)
    ensures idx !in Expansion(f, mk, d)
    ensures !Accepts(f, mk, d, idx)
  {
    if idx in Expansion(f, mk, d) {
      ExpandBound(f, mk, d, |d.aux|, idx);
    }
    if Accepts(f, mk, d, idx) {
      var slot :| 0 <= slot < |d.aux| && SlotAccepts(f, mk, d, slot, idx);
      AccumMonotone(d.aux, slot + 1, |d.aux|);
    }
  }

  /** The search accepts a set exactly when its expansion contains the index. */
  lemma SearchExact(f: Family, mk: Key, d: SetDesc, idx: nat)
    requires f.Valid() && Fits(d) && SearchUsesSetKey(d, idx)
    ensures Accepts(f, mk, d, idx) <==> idx in Expansion(f, mk, d)
  {
    if idx >= Accum(d.aux, |d.aux|) {
      NotInAnySlot(f, mk, d, idx);
    } else {
      var slot := SlotOfIndex(d.aux, |d.aux|, idx);
      AcceptsInSlot(f, mk, d, slot, idx);
      ExpandMember(f, mk, d, |d.aux|, slot, idx);
    }
  }

  /** In slot 0 with shift 0 the search asks about the derived key while the
      expansion uses the set key: the two agree exactly when both inverse walks
      fall on the same side of the count. */
  lemma SearchWithoutShift(f: Family, mk: Key, d: SetDesc, idx: nat)
    requires f.Valid() && Fits(d) && !SearchUsesSetKey(d, idx)
    ensures var slot := d.aux[0];
      && (Accepts(f, mk, d, idx) <==> f.unwalk(idx, slot.range, f.kdf(mk, d.sk, 0)) < slot.count)
      && (idx in Expansion(f, mk, d) <==> f.unwalk(idx, slot.range, d.sk) < slot.count)
  {
    AcceptsInSlot(f, mk, d, 0, idx);
    ExpandMember(f, mk, d, |d.aux|, 0, idx);
  }

  // ---- Which shifts make the search exact

  /** Whatever the primitives, the keys and the slots are, a search among sets
      with this shift accepts exactly the sets that contain the index. */
  ghost predicate SearchExactForShift(shift: nat) {
    forall p: Prims, f: Family, mk: Key, d: SetDesc, idx: nat
      | f.Realizes(p) && f.Valid() && Fits(d) && d.shift == shift ::
      Accepts(f, mk, d, idx) <==> idx in Expansion(f, mk, d)
  }
}
