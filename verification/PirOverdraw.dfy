/** What becomes of a set when a batch draws a slot more often than its count: the
    count wraps, the next query skips the slot, and the slots behind it move. */
module PirOverdraw {
  import opened Keys
  import opened PirBatch
  import opened PirReach
  import opened PirSets
  import opened PrpFamily

  /** One batch that keeps all sums below 2^31. */
  ghost predicate OneBatch(d: SetDesc, falls: seq<nat>, nbrAdd: nat, dbrange: nat, setsize: nat) {
    && WellFormed(d, dbrange, setsize) && DrawsInRange(d.aux, falls)
    && |falls| <= setsize <= dbrange && |falls| <= nbrAdd && dbrange + nbrAdd < MAX_RANGE
  }

  /** The guard of the query's expansion skips exactly the overdrawn slots. */
  lemma SkippedIffOverdrawn(d: SetDesc, falls: seq<nat>, nbrAdd: nat, dbrange: nat, setsize: nat, i: nat)
    requires OneBatch(d, falls, nbrAdd, dbrange, setsize) && i < |d.aux|
    ensures var aux := AfterBatch(d, falls, nbrAdd).aux;
      && (aux[i].count > dbrange + nbrAdd <==> Hits(d.aux, falls, i) > d.aux[i].count)
      && (aux[i].count > dbrange + nbrAdd || aux[i].count <= aux[i].range)
  {
    AccumMonotone(d.aux, i + 1, |d.aux|);
  }

  /** No walk of a query fails after the batch, whatever the draws were. */
  lemma StaysExpandable(d: SetDesc, falls: seq<nat>, nbrAdd: nat, dbrange: nat, setsize: nat)
    requires OneBatch(d, falls, nbrAdd, dbrange, setsize)
    ensures Expandable(AfterBatch(d, falls, nbrAdd), dbrange + nbrAdd)
    ensures var aux := AfterBatch(d, falls, nbrAdd).aux; Accum(aux, |aux|) == dbrange + nbrAdd
  {
    var aux := AfterBatch(d, falls, nbrAdd).aux;
    forall i | 0 <= i < |aux| ensures aux[i].count <= aux[i].range || aux[i].count > dbrange + nbrAdd {
      if i < |d.aux| {
        SkippedIffOverdrawn(d, falls, nbrAdd, dbrange, setsize, i);
      }
    }
    SameRanges(d.aux, aux, |d.aux|);
  }

  // ---- Offsets

  /** The ranges of the skipped slots among the first n. */
  function Skipped(aux: seq<Slot>, dbrange: nat, n: nat): nat
    requires n <= |aux|
  {
    if n == 0 then 0 else Skipped(aux, dbrange, n - 1) + (if aux[n - 1].count > dbrange then aux[n - 1].range else 0)
  }

  lemma {:induction false} BaseFallsShort(aux: seq<Slot>, dbrange: nat, n: nat)
    requires n <= |aux|
    ensures Base(aux, dbrange, n) + Skipped(aux, dbrange, n) == Accum(aux, n)
  {
    if n > 0 {
      BaseFallsShort(aux, dbrange, n - 1);
    }
  }

  /** A query places every member of a slot below its database index by exactly the
      ranges that were skipped before the slot. */
  lemma MembersMoveDown(f: Family, mk: Key, d: SetDesc, dbrange: nat, slot: nat, x: nat)
    requires f.Valid() && Laid(d) && slot < |d.aux| && x < d.aux[slot].range
    ensures Base(d.aux, dbrange, slot) + Local(f, mk, d, slot, x) + Skipped(d.aux, dbrange, slot) ==
      Index(f, mk, d, slot, x)
  {
    BaseFallsShort(d.aux, dbrange, slot);
  }

  /** After the second batch that draws slot 1 twice, the query asks for index 2, which
      belongs to that slot, and misses index 4, which the new slot holds. */
  lemma WrongOffsets(f: Family, mk: Key, sk: Key)
    requires f.Valid()
    ensures var d := AfterBatch(SetDesc(sk, 0, [Slot(2, 1), Slot(1, 1)]), [1, 1], 2);
      && Expandable(d, 5)
      && 2 in Reached(f, mk, d, 5) && 4 !in Reached(f, mk, d, 5)
      && 4 in SlotSet(f, mk, d, 2, 0, d.aux[2].count)
  {
    SecondBatchMayWrap(sk);
    var d := AfterBatch(SetDesc(sk, 0, [Slot(2, 1), Slot(1, 1)]), [1, 1], 2);
    WrongOffsetsAt(f, mk, d);
  }

  lemma OffsetStep(aux: seq<Slot>, dbrange: nat, n: nat)
    requires n < |aux|
    ensures Base(aux, dbrange, n + 1) == Base(aux, dbrange, n) + (if aux[n].count > dbrange then 0 else aux[n].range)
    ensures Accum(aux, n + 1) == Accum(aux, n) + aux[n].range
  {
  }

  lemma WrongOffsetsAt(f: Family, mk: Key, d: SetDesc)
    requires f.Valid() && d.shift == 0 && d.aux == [Slot(2, 1), Slot(1, UINT32_SIZE - 1), Slot(2, 2)]
    ensures Expandable(d, 5)
    ensures 2 in Reached(f, mk, d, 5) && 4 !in Reached(f, mk, d, 5)
    ensures 4 in SlotSet(f, mk, d, 2, 0, d.aux[2].count)
  {
    OffsetStep(d.aux, 5, 0);
    OffsetStep(d.aux, 5, 1);
    OffsetStep(d.aux, 5, 2);
    MovedMember(f, mk, d, 2, 2, 2, 2);
    SlotMember(f, mk, d, 2, 0, 2, 4);
    if 4 in Reached(f, mk, d, 5) {
      ReachBound(f, mk, d, 5, 3, 4);
    }
  }

  // ---- The sum of the counts

  /** How many of the first n slots are drawn more often than their count. */
  function Overdrawn(aux: seq<Slot>, falls: seq<nat>, n: nat): nat
    requires DrawsInRange(aux, falls) && n <= |aux|
  {
    if n == 0 then 0 else Overdrawn(aux, falls, n - 1) + (if Hits(aux, falls, n - 1) > aux[n - 1].count then 1 else 0)
  }

  lemma {:induction false} OverdrawnTotal(aux: seq<Slot>, falls: seq<nat>, n: nat)
    requires DrawsInRange(aux, falls) && |falls| <= UINT32_SIZE && n <= |aux|
    ensures Total(Kicked(aux, falls), n) + HitsBelow(aux, falls, n) ==
      Total(aux, n) + UINT32_SIZE * Overdrawn(aux, falls, n)
  {
    if n > 0 {
      OverdrawnTotal(aux, falls, n - 1);
    }
  }

  /** After the batch the counts sum to setsize and 2^32 for every overdrawn slot. With
      one of them the sum no longer fits the 32-bit word that the next batch converts it to. */
  lemma CountsAfterBatch(d: SetDesc, falls: seq<nat>, nbrAdd: nat, dbrange: nat, setsize: nat)
    requires OneBatch(d, falls, nbrAdd, dbrange, setsize)
    ensures var aux := AfterBatch(d, falls, nbrAdd).aux;
      && Total(aux, |aux|) == setsize + UINT32_SIZE * Overdrawn(d.aux, falls, |d.aux|)
  {
    var kicked := Kicked(d.aux, falls);
    SumsOfPrefix(kicked, [Slot(nbrAdd, |falls|)], |kicked|);
    OverdrawnTotal(d.aux, falls, |d.aux|);
    HitsSum(d.aux, falls);
  }

  lemma {:induction false} OverdrawnIff(aux: seq<Slot>, falls: seq<nat>, n: nat)
    requires DrawsInRange(aux, falls) && n <= |aux|
    ensures Overdrawn(aux, falls, n) == 0 <==> forall i | 0 <= i < n :: Hits(aux, falls, i) <= aux[i].count
  {
    if n > 0 {
      OverdrawnIff(aux, falls, n - 1);
    }
  }

  /** The sum of the counts fits a 32-bit word exactly when the draws are admissible. */
  lemma SumFitsIff(d: SetDesc, falls: seq<nat>, nbrAdd: nat, dbrange: nat, setsize: nat)
    requires OneBatch(d, falls, nbrAdd, dbrange, setsize)
    ensures var aux := AfterBatch(d, falls, nbrAdd).aux;
      Total(aux, |aux|) < UINT32_SIZE <==> Admissible(d.aux, falls)
  {
    CountsAfterBatch(d, falls, nbrAdd, dbrange, setsize);
    OverdrawnIff(d.aux, falls, |d.aux|);
  }
}
