/** What the server adds up for one set in a batch, for any pair of old and new
    slots; when the new set followed from the old one, it is the parity of the
    difference of their expansions. */
module PirReply {
  import opened Blocks
  import opened Keys
  import opened PirBatch
  import opened PirDiff
  import opened PirSets
  import opened PirWalks
  import opened PrpFamily

  /** The slots lie inside a database of n blocks, and the new ones extend the old ones. */
  predicate Covers(prev: SetDesc, cur: SetDesc, n: nat) {
    && |prev.aux| > 0
    && |cur.aux| == |prev.aux| + 1
    && (forall i | 0 <= i < |prev.aux| :: cur.aux[i].range == prev.aux[i].range)
    && Accum(cur.aux, |cur.aux|) <= n < MAX_RANGE
    && cur.shift == prev.shift < MAX_RANGE
    && cur.sk == prev.sk
  }

  /** Walking the members lo, ..., hi-1 of a slot never reaches the range. */
  predicate InRange(range: nat, lo: nat, hi: nat) {
    hi <= lo || hi <= range
  }

  /** The parity of the members lo, ..., hi-1 of one slot, as the loop walks them. */
  ghost function WalkParity(f: Family, db: seq<Block>, mk: Key, d: SetDesc, slot: nat, base: nat, lo: nat, hi: nat): Block
    requires f.Valid() && slot < |d.aux| && d.shift < MAX_RANGE
    requires base + d.aux[slot].range <= |db| < MAX_RANGE && InRange(d.aux[slot].range, lo, hi)
    decreases hi
  {
    if hi <= lo then ZERO
    else Xor(WalkParity(f, db, mk, d, slot, base, lo, hi - 1), db[base + Walked(f, mk, d, slot, hi - 1)])
  }

  lemma {:induction false} WalkParityIsParity(f: Family, db: seq<Block>, mk: Key, d: SetDesc, slot: nat, lo: nat, hi: nat)
    requires f.Valid() && Laid(d) && slot < |d.aux| && d.shift < MAX_RANGE && lo <= hi <= d.aux[slot].range
    requires Accum(d.aux, slot) + d.aux[slot].range <= |db| < MAX_RANGE
    ensures WalkParity(f, db, mk, d, slot, Accum(d.aux, slot), lo, hi) == Parity(db, SlotSet(f, mk, d, slot, lo, hi))
    decreases hi
  {
    if lo == hi {
      ParityEmpty(db);
    } else {
      WalkParityIsParity(f, db, mk, d, slot, lo, hi - 1);
      SlotNext(f, mk, d, slot, lo, hi - 1);
      WalkedIsLocal(f, mk, d, slot, hi - 1);
      ParityAdd(db, SlotSet(f, mk, d, slot, lo, hi - 1), Index(f, mk, d, slot, hi - 1));
    }
  }

  // ---- One set

  /** No walk of the reply fails. */
  predicate Walkable(prev: SetDesc, cur: SetDesc) {
    && |cur.aux| == |prev.aux| + 1
    && (forall i | 0 <= i < |prev.aux| :: InRange(prev.aux[i].range, cur.aux[i].count, prev.aux[i].count))
    && InRange(cur.aux[|prev.aux|].range, 0, cur.aux[|prev.aux|].count)
  }

  lemma SlotInside(prev: SetDesc, cur: SetDesc, n: nat, i: nat)
    requires Covers(prev, cur, n) && i <= |prev.aux|
    ensures Accum(cur.aux, i) == Accum(prev.aux, i)
    ensures Accum(cur.aux, i) + cur.aux[i].range <= n
  {
    SameRanges(prev.aux, cur.aux, i);
    AccumMonotone(cur.aux, i + 1, |cur.aux|);
  }

  /** The old slots: the members above the new counts. */
  ghost function OldSlots(f: Family, db: seq<Block>, mk: Key, prev: SetDesc, cur: SetDesc, n: nat): Block
    requires f.Valid() && Covers(prev, cur, |db|) && Walkable(prev, cur) && n <= |prev.aux|
  {
    if n == 0 then ZERO
    else
      SlotInside(prev, cur, |db|, n - 1);
      Xor(OldSlots(f, db, mk, prev, cur, n - 1),
        WalkParity(f, db, mk, prev, n - 1, Accum(prev.aux, n - 1), cur.aux[n - 1].count, prev.aux[n - 1].count))
  }

  ghost function DiffParity(f: Family, db: seq<Block>, mk: Key, prev: SetDesc, cur: SetDesc): Block
    requires f.Valid() && Covers(prev, cur, |db|) && Walkable(prev, cur)
  {
    var n := |prev.aux|;
    SlotInside(prev, cur, |db|, n);
    Xor(OldSlots(f, db, mk, prev, cur, n), WalkParity(f, db, mk, cur, n, Accum(prev.aux, n), 0, cur.aux[n].count))
  }

  // ---- Sets that followed

  lemma {:induction false} OldSlotsAreKicked(f: Family, db: seq<Block>, mk: Key, prev: SetDesc, cur: SetDesc, n: nat)
    requires f.Valid() && Covers(prev, cur, |db|) && Follows(prev, cur) && Walkable(prev, cur) && n <= |prev.aux|
    ensures OldSlots(f, db, mk, prev, cur, n) == Parity(db, KickedTo(f, mk, prev, cur, n))
  {
    if n == 0 {
      ParityEmpty(db);
    } else {
      OldSlotsAreKicked(f, db, mk, prev, cur, n - 1);
      SlotInside(prev, cur, |db|, n - 1);
      WalkParityIsParity(f, db, mk, prev, n - 1, cur.aux[n - 1].count, prev.aux[n - 1].count);
      KickedDisjoint(f, mk, prev, cur, n - 1);
      ParityUnion(db, KickedTo(f, mk, prev, cur, n - 1),
        SlotSet(f, mk, prev, n - 1, cur.aux[n - 1].count, prev.aux[n - 1].count));
    }
  }

  lemma KickedDisjoint(f: Family, mk: Key, prev: SetDesc, cur: SetDesc, i: nat)
    requires f.Valid() && Follows(prev, cur) && i < |prev.aux|
    ensures KickedTo(f, mk, prev, cur, i) !! SlotSet(f, mk, prev, i, cur.aux[i].count, prev.aux[i].count)
  {
    KickedSplits(f, mk, prev, cur, i, ExpandTo(f, mk, prev, i), ExpandTo(f, mk, cur, i), KickedTo(f, mk, prev, cur, i));
    SlotSplit(f, mk, prev, i, 0, cur.aux[i].count, prev.aux[i].count);
    SlotsDisjoint(f, mk, prev, i);
  }

  /** A set that followed is walked without failure, and the reply is the parity of
      the indices that enter or leave it. */
  lemma DiffParityIsDifference(f: Family, db: seq<Block>, mk: Key, prev: SetDesc, cur: SetDesc)
    requires f.Valid() && Covers(prev, cur, |db|) && Follows(prev, cur)
    ensures Walkable(prev, cur)
    ensures DiffParity(f, db, mk, prev, cur) == Parity(db, Difference(f, mk, prev, cur))
  {
    var n := |prev.aux|;
    OldSlotsAreKicked(f, db, mk, prev, cur, n);
    SlotInside(prev, cur, |db|, n);
    WalkParityIsParity(f, db, mk, cur, n, 0, cur.aux[n].count);
    DifferenceIsSymmetric(f, mk, prev, cur);
    ParityUnion(db, KickedTo(f, mk, prev, cur, n), Entering(f, mk, cur));
  }
}
