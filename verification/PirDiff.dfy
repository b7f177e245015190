/** The difference of a set before and after a batch, which the server turns
    into the parity update that the client adds to its hint. */
module PirDiff {
  import opened Blocks
  import opened Keys
  import opened PirBatch
  import opened PirSets
  import opened PrpFamily

  /** `cur` is `prev` after a batch: the same key and shift, the same slots with
      smaller counts, and one slot more. */
  predicate Follows(prev: SetDesc, cur: SetDesc) {
    && Fits(prev)
    && Fits(cur)
    && cur.sk == prev.sk
    && cur.shift == prev.shift
    && |cur.aux| == |prev.aux| + 1
    && forall i | 0 <= i < |prev.aux| ::
      cur.aux[i].range == prev.aux[i].range && cur.aux[i].count <= prev.aux[i].count
  }

  lemma BatchFollows(d: SetDesc, falls: seq<nat>, nbrAdd: nat)
    requires Fits(d) && DrawsInRange(d.aux, falls) && |falls| <= nbrAdd && |falls| <= UINT32_SIZE
    requires Admissible(d.aux, falls)
    ensures Follows(d, AfterBatch(d, falls, nbrAdd))
  {
  }

  /** The indices that leave the first n slots. */
  ghost function KickedTo(f: Family, mk: Key, prev: SetDesc, cur: SetDesc, n: nat): set<nat>
    requires f.Valid() && Follows(prev, cur) && n <= |prev.aux|
  {
    if n == 0 then {}
    else
      KickedTo(f, mk, prev, cur, n - 1)
      + SlotSet(f, mk, prev, n - 1, cur.aux[n - 1].count, prev.aux[n - 1].count)
  }

  /** The indices that enter with the new slot. */
  ghost function Entering(f: Family, mk: Key, cur: SetDesc): set<nat>
    requires f.Valid() && Fits(cur)
  {
    SlotSet(f, mk, cur, |cur.aux| - 1, 0, cur.aux[|cur.aux| - 1].count)
  }

  ghost function Difference(f: Family, mk: Key, prev: SetDesc, cur: SetDesc): set<nat>
    requires f.Valid() && Follows(prev, cur)
  {
    KickedTo(f, mk, prev, cur, |prev.aux|) + Entering(f, mk, cur)
  }

  lemma {:induction false} SlotSetSame(f: Family, mk: Key, prev: SetDesc, cur: SetDesc, slot: nat, lo: nat, hi: nat)
    requires f.Valid() && Follows(prev, cur) && slot < |prev.aux| && lo <= hi <= prev.aux[slot].range
    ensures SlotSet(f, mk, cur, slot, lo, hi) == SlotSet(f, mk, prev, slot, lo, hi)
    decreases hi
  {
    if lo < hi {
      SlotSetSame(f, mk, prev, cur, slot, lo, hi - 1);
      SameRanges(prev.aux, cur.aux, slot);
    }
  }

  lemma {:induction false} SlotSplit(f: Family, mk: Key, d: SetDesc, slot: nat, lo: nat, mid: nat, hi: nat)
    requires f.Valid() && Fits(d) && slot < |d.aux| && lo <= mid <= hi <= d.aux[slot].range
    ensures SlotSet(f, mk, d, slot, lo, hi) == SlotSet(f, mk, d, slot, lo, mid) + SlotSet(f, mk, d, slot, mid, hi)
    ensures SlotSet(f, mk, d, slot, lo, mid) !! SlotSet(f, mk, d, slot, mid, hi)
    decreases hi
  {
    if mid < hi {
      SlotSplit(f, mk, d, slot, lo, mid, hi - 1);
      SlotNext(f, mk, d, slot, lo, hi - 1);
    }
  }

  /** A set splits into the part that stays and the part that leaves. */
  predicate Splits(whole: set<nat>, stay: set<nat>, leave: set<nat>) {
    whole == stay + leave && stay !! leave
  }

  lemma SplitUnion(whole: set<nat>, stay: set<nat>, leave: set<nat>,
      u: set<nat>, a: set<nat>, b: set<nat>, v: set<nat>, c: set<nat>, d: set<nat>)
    requires whole == u + v && stay == a + c && leave == b + d
    requires Splits(u, a, b) && Splits(v, c, d) && u !! v
    ensures Splits(whole, stay, leave)
  {
  }

  lemma KickedNext(f: Family, mk: Key, prev: SetDesc, cur: SetDesc, i: nat,
      whole: set<nat>, stay: set<nat>, leave: set<nat>, u: set<nat>, a: set<nat>, b: set<nat>)
    requires f.Valid() && Follows(prev, cur) && i < |prev.aux|
    requires whole == ExpandTo(f, mk, prev, i + 1) && stay == ExpandTo(f, mk, cur, i + 1)
    requires leave == KickedTo(f, mk, prev, cur, i + 1)
    requires u == ExpandTo(f, mk, prev, i) && a == ExpandTo(f, mk, cur, i) && b == KickedTo(f, mk, prev, cur, i)
    requires Splits(u, a, b)
    ensures Splits(whole, stay, leave)
  {
    SlotSplits(f, mk, prev, cur, i);
    SlotsDisjoint(f, mk, prev, i);
    SplitUnion(whole, stay, leave, u, a, b, SlotSet(f, mk, prev, i, 0, prev.aux[i].count),
      SlotSet(f, mk, cur, i, 0, cur.aux[i].count), SlotSet(f, mk, prev, i, cur.aux[i].count, prev.aux[i].count));
  }

  /** Before the new slot, the old set is the new one and what was kicked out. */
  lemma {:induction false} KickedSplits(f: Family, mk: Key, prev: SetDesc, cur: SetDesc, n: nat,
      whole: set<nat>, stay: set<nat>, leave: set<nat>)
    requires f.Valid() && Follows(prev, cur) && n <= |prev.aux|
    requires whole == ExpandTo(f, mk, prev, n) && stay == ExpandTo(f, mk, cur, n)
    requires leave == KickedTo(f, mk, prev, cur, n)
    ensures Splits(whole, stay, leave)
    decreases n
  {
    if n > 0 {
      var i := n - 1;
      var u, a, b := ExpandTo(f, mk, prev, i), ExpandTo(f, mk, cur, i), KickedTo(f, mk, prev, cur, i);
      KickedSplits(f, mk, prev, cur, i, u, a, b);
      KickedNext(f, mk, prev, cur, i, whole, stay, leave, u, a, b);
    }
  }

  /** One old slot: what stays and what leaves. */
  lemma SlotSplits(f: Family, mk: Key, prev: SetDesc, cur: SetDesc, i: nat)
    requires f.Valid() && Follows(prev, cur) && i < |prev.aux|
    ensures Splits(SlotSet(f, mk, prev, i, 0, prev.aux[i].count),
      SlotSet(f, mk, cur, i, 0, cur.aux[i].count), SlotSet(f, mk, prev, i, cur.aux[i].count, prev.aux[i].count))
  {
    SlotSplit(f, mk, prev, i, 0, cur.aux[i].count, prev.aux[i].count);
    SlotSetSame(f, mk, prev, cur, i, 0, cur.aux[i].count);
  }

  /** What the server adds up is the symmetric difference of the two expansions. */
  lemma DifferenceIsSymmetric(f: Family, mk: Key, prev: SetDesc, cur: SetDesc)
    requires f.Valid() && Follows(prev, cur)
    ensures Difference(f, mk, prev, cur) == SymDiff(Expansion(f, mk, prev), Expansion(f, mk, cur))
    ensures KickedTo(f, mk, prev, cur, |prev.aux|) !! Entering(f, mk, cur)
  {
    var n := |prev.aux|;
    KickedSplits(f, mk, prev, cur, n, Expansion(f, mk, prev), ExpandTo(f, mk, cur, n), KickedTo(f, mk, prev, cur, n));
    SlotsDisjoint(f, mk, cur, n);
    forall idx | idx in Expansion(f, mk, prev)
      ensures idx !in Entering(f, mk, cur)
    {
      ExpandBound(f, mk, prev, n, idx);
      SlotMember(f, mk, cur, n, 0, cur.aux[n].count, idx);
      SameRanges(prev.aux, cur.aux, n);
    }
    DifferenceOfSets(Expansion(f, mk, prev), ExpandTo(f, mk, cur, n), KickedTo(f, mk, prev, cur, n),
      Entering(f, mk, cur));
  }

  lemma DifferenceOfSets(old_: set<nat>, kept: set<nat>, out: set<nat>, entering: set<nat>)
    requires old_ == kept + out && kept !! out && old_ !! entering
    ensures out + entering == SymDiff(old_, kept + entering)
  {
  }

  /** Adding the parity of the difference turns the old hint into the new one. */
  lemma DifferenceUpdatesParity(f: Family, mk: Key, prev: SetDesc, cur: SetDesc, db: seq<Block>)
    requires f.Valid() && Follows(prev, cur)
    ensures Xor(Parity(db, Expansion(f, mk, prev)), Parity(db, Difference(f, mk, prev, cur)))
      == Parity(db, Expansion(f, mk, cur))
  {
    DifferenceIsSymmetric(f, mk, prev, cur);
    var s, t := Expansion(f, mk, prev), Expansion(f, mk, cur);
    ParitySymDiff(db, s, t);
    XorCancels(Parity(db, t), Parity(db, s));
  }
}
