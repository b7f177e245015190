/** One batch of additions: how the draws change the slot counts, and which
    database indices enter and leave a set. */
module PirBatch {
  import opened Counting
  import opened Keys
  import opened PirSets

  const UINT32_SIZE: nat := 0x1_0000_0000

  /** Database sizes up to here keep every 32-bit sum of the source exact. */
  const MAX_RANGE: nat := 0x8000_0000

  /** Addition in a 32-bit register. */
  function Add32(a: nat, b: nat): (c: nat)
    ensures a + b < UINT32_SIZE ==> c == a + b
  {
    (a + b) % UINT32_SIZE
  }

  /** `c--` in a 32-bit register. */
  function Dec32(c: nat): nat {
    if c == 0 then UINT32_SIZE - 1 else c - 1
  }

  // ---- Draws

  /** The slot, among the first n, that a draw falls into: the counts lie side by side. */
  function SlotOf(aux: seq<Slot>, n: nat, fall: nat): (slot: nat)
    requires n <= |aux| && fall < Total(aux, n)
    ensures slot < n && Total(aux, slot) <= fall < Total(aux, slot + 1)
  {
    if fall >= Total(aux, n - 1) then n - 1 else SlotOf(aux, n - 1, fall)
  }

  lemma {:induction false} TotalMonotone(aux: seq<Slot>, m: nat, n: nat)
    requires m <= n <= |aux|
    ensures Total(aux, m) <= Total(aux, n)
    decreases n
  {
    if m < n {
      TotalMonotone(aux, m, n - 1);
    }
  }

  lemma SlotOfUnique(aux: seq<Slot>, fall: nat, slot: nat)
    requires slot < |aux| && Total(aux, slot) <= fall < Total(aux, slot + 1)
    ensures fall < Total(aux, |aux|) && SlotOf(aux, |aux|, fall) == slot
  {
    TotalMonotone(aux, slot + 1, |aux|);
    var other := SlotOf(aux, |aux|, fall);
    if other < slot {
      TotalMonotone(aux, other + 1, slot);
    } else if slot < other {
      TotalMonotone(aux, slot + 1, other);
    }
  }

  predicate DrawsInRange(aux: seq<Slot>, falls: seq<nat>) {
    forall i | 0 <= i < |falls| :: falls[i] < Total(aux, |aux|)
  }

  /** How many of the draws fall into a slot. */
  function Hits(aux: seq<Slot>, falls: seq<nat>, slot: nat): (h: nat)
    requires DrawsInRange(aux, falls)
    ensures h <= |falls|
  {
    if falls == [] then 0
    else
      var n := |falls| - 1;
      Hits(aux, falls[..n], slot) + (if SlotOf(aux, |aux|, falls[n]) == slot then 1 else 0)
  }

  /** A draw never falls into a slot whose count is zero. */
  lemma {:induction false} EmptySlotNotHit(aux: seq<Slot>, falls: seq<nat>, slot: nat)
    requires DrawsInRange(aux, falls) && slot < |aux| && aux[slot].count == 0
    ensures Hits(aux, falls, slot) == 0
  {
    if falls != [] {
      EmptySlotNotHit(aux, falls[..|falls| - 1], slot);
    }
  }

  /** `count--` done h times in a 32-bit register. */
  function Decremented(count: nat, h: nat): nat
    requires h <= UINT32_SIZE
  {
    if h <= count then count - h else UINT32_SIZE + count - h
  }

  lemma DecrementedModulo(count: nat, h: nat)
    requires count < UINT32_SIZE && h <= UINT32_SIZE
    ensures Decremented(count, h) == (count - h) % UINT32_SIZE
  {
    if h > count {
      assert (count - h) % UINT32_SIZE == (UINT32_SIZE + count - h) % UINT32_SIZE;
    }
  }

  /** The slots after the draws of one batch. */
  function Kicked(aux: seq<Slot>, falls: seq<nat>): (r: seq<Slot>)
    requires DrawsInRange(aux, falls) && |falls| <= UINT32_SIZE
    ensures |r| == |aux|
    ensures forall i | 0 <= i < |r| :: r[i] == Slot(aux[i].range, Decremented(aux[i].count, Hits(aux, falls, i)))
  {
    seq(|aux|, i requires 0 <= i < |aux| => Slot(aux[i].range, Decremented(aux[i].count, Hits(aux, falls, i))))
  }

  /** One draw more decrements the count of the slot that it falls into. */
  lemma KickedStep(aux: seq<Slot>, falls: seq<nat>, i: nat)
    requires i < |falls| < UINT32_SIZE && DrawsInRange(aux, falls)
    requires forall j | 0 <= j < |aux| :: aux[j].count < UINT32_SIZE
    ensures var r, slot := Kicked(aux, falls[..i]), SlotOf(aux, |aux|, falls[i]);
      Kicked(aux, falls[..i + 1]) ==
      r[slot := Slot(r[slot].range, Dec32(r[slot].count))]
  {
    var r, r', slot := Kicked(aux, falls[..i]), Kicked(aux, falls[..i + 1]), SlotOf(aux, |aux|, falls[i]);
    forall j | 0 <= j < |aux|
      ensures r'[j] == if j == slot then Slot(r[j].range, Dec32(r[j].count)) else r[j]
    {
      HitsNext(aux, falls, i, j);
      DecrementedNext(aux[j].count, Hits(aux, falls[..i], j));
    }
    SeqUpdate(r, r', slot, Slot(r[slot].range, Dec32(r[slot].count)));
  }

  lemma HitsNext(aux: seq<Slot>, falls: seq<nat>, i: nat, j: nat)
    requires i < |falls| && DrawsInRange(aux, falls)
    ensures Hits(aux, falls[..i + 1], j) == Hits(aux, falls[..i], j) + (if SlotOf(aux, |aux|, falls[i]) == j then 1 else 0)
  {
    assert falls[..i + 1][..i] == falls[..i];
  }

  lemma SeqUpdate(r: seq<Slot>, r': seq<Slot>, k: nat, x: Slot)
    requires k < |r| == |r'| && forall j | 0 <= j < |r| :: r'[j] == if j == k then x else r[j]
    ensures r' == r[k := x]
  {
  }

  lemma DecrementedNext(count: nat, h: nat)
    requires count < UINT32_SIZE && h < UINT32_SIZE
    ensures Decremented(count, h + 1) == Dec32(Decremented(count, h))
  {
  }

  lemma KickedNone(aux: seq<Slot>)
    ensures Kicked(aux, []) == aux
  {
  }

  /** A draw falls into slot i: the counts lie side by side. */
  predicate Into(aux: seq<Slot>, i: nat, fall: nat)
    requires i < |aux|
  {
    Total(aux, i) <= fall < Total(aux, i) + aux[i].count
  }

  /** Which draws fall into slot i. */
  ghost function DrawsInto(aux: seq<Slot>, falls: seq<nat>, i: nat): set<nat>
    requires i < |aux|
  {
    set j: nat | 0 <= j < |falls| && Into(aux, i, falls[j])
  }

  lemma IntoIsSlotOf(aux: seq<Slot>, i: nat, fall: nat)
    requires i < |aux| && fall < Total(aux, |aux|)
    ensures Into(aux, i, fall) <==> SlotOf(aux, |aux|, fall) == i
  {
    if Into(aux, i, fall) {
      SlotOfUnique(aux, fall, i);
    }
  }

  lemma {:induction false} HitsAreDraws(aux: seq<Slot>, falls: seq<nat>, i: nat)
    requires DrawsInRange(aux, falls) && i < |aux|
    ensures Hits(aux, falls, i) == |DrawsInto(aux, falls, i)|
  {
    if falls == [] {
      assert DrawsInto(aux, falls, i) == {};
    } else {
      var m := |falls| - 1;
      var rest, more := falls[..m], Into(aux, i, falls[m]);
      HitsAreDraws(aux, rest, i);
      IntoIsSlotOf(aux, i, falls[m]);
      assert DrawsInto(aux, falls, i) == if more then DrawsInto(aux, rest, i) + {m} else DrawsInto(aux, rest, i);
      OneMoreSize(DrawsInto(aux, rest, i), DrawsInto(aux, falls, i), m, more);
    }
  }

  /** The description after a batch of nbrAdd additions, of which |falls| enter the set. */
  function AfterBatch(d: SetDesc, falls: seq<nat>, nbrAdd: nat): SetDesc
    requires DrawsInRange(d.aux, falls) && |falls| <= UINT32_SIZE
  {
    SetDesc(d.sk, d.shift, Kicked(d.aux, falls) + [Slot(nbrAdd, |falls|)])
  }

  /** One slot after the batch. */
  lemma KickedCount(d: SetDesc, falls: seq<nat>, nbrAdd: nat, i: nat)
    requires DrawsInRange(d.aux, falls) && |falls| <= UINT32_SIZE && i < |d.aux| && d.aux[i].count < UINT32_SIZE
    ensures var cur := AfterBatch(d, falls, nbrAdd);
      && |cur.aux| == |d.aux| + 1 && cur.aux[i].range == d.aux[i].range
      && cur.aux[i].count == (d.aux[i].count - |DrawsInto(d.aux, falls, i)|) % UINT32_SIZE
  {
    HitsAreDraws(d.aux, falls, i);
    DecrementedModulo(d.aux[i].count, Hits(d.aux, falls, i));
  }

  /** No slot is drawn more often than its count. */
  ghost predicate Admissible(aux: seq<Slot>, falls: seq<nat>)
    requires DrawsInRange(aux, falls)
  {
    forall i | 0 <= i < |aux| :: Hits(aux, falls, i) <= aux[i].count
  }

  // ---- Bookkeeping after a batch

  function HitsBelow(aux: seq<Slot>, falls: seq<nat>, n: nat): nat
    requires DrawsInRange(aux, falls) && n <= |aux|
  {
    if n == 0 then 0 else HitsBelow(aux, falls, n - 1) + Hits(aux, falls, n - 1)
  }

  lemma {:induction false} HitsBelowLast(aux: seq<Slot>, falls: seq<nat>, n: nat)
    requires DrawsInRange(aux, falls) && n <= |aux| && falls != []
    ensures var m := |falls| - 1;
      HitsBelow(aux, falls, n) == HitsBelow(aux, falls[..m], n) + (if SlotOf(aux, |aux|, falls[m]) < n then 1 else 0)
  {
    if n > 0 {
      HitsBelowLast(aux, falls, n - 1);
    }
  }

  lemma {:induction false} HitsBelowNone(aux: seq<Slot>, n: nat)
    requires n <= |aux|
    ensures HitsBelow(aux, [], n) == 0
  {
    if n > 0 {
      HitsBelowNone(aux, n - 1);
    }
  }

  /** Every draw falls into exactly one slot. */
  lemma {:induction false} HitsSum(aux: seq<Slot>, falls: seq<nat>)
    requires DrawsInRange(aux, falls)
    ensures HitsBelow(aux, falls, |aux|) == |falls|
  {
    if falls == [] {
      HitsBelowNone(aux, |aux|);
    } else {
      HitsSum(aux, falls[..|falls| - 1]);
      HitsBelowLast(aux, falls, |aux|);
    }
  }

  lemma {:induction false} SameRanges(aux: seq<Slot>, aux': seq<Slot>, n: nat)
    requires n <= |aux| && n <= |aux'| && forall i | 0 <= i < n :: aux[i].range == aux'[i].range
    ensures Accum(aux', n) == Accum(aux, n)
  {
    if n > 0 {
      SameRanges(aux, aux', n - 1);
    }
  }

  lemma {:induction false} TotalAfter(aux: seq<Slot>, aux': seq<Slot>, falls: seq<nat>, n: nat)
    requires DrawsInRange(aux, falls) && n <= |aux| && n <= |aux'|
    requires forall i | 0 <= i < n :: aux'[i].count + Hits(aux, falls, i) == aux[i].count
    ensures Total(aux', n) + HitsBelow(aux, falls, n) == Total(aux, n)
  {
    if n > 0 {
      TotalAfter(aux, aux', falls, n - 1);
    }
  }

  lemma BatchKeeps(d: SetDesc, falls: seq<nat>, nbrAdd: nat, dbrange: nat, setsize: nat)
    requires WellFormed(d, dbrange, setsize) && DrawsInRange(d.aux, falls)
    requires |falls| <= setsize <= dbrange < MAX_RANGE && |falls| <= nbrAdd
    requires Admissible(d.aux, falls)
    ensures WellFormed(AfterBatch(d, falls, nbrAdd), dbrange + nbrAdd, setsize)
  {
    var n, aux' := |d.aux|, AfterBatch(d, falls, nbrAdd).aux;
    SameRanges(d.aux, aux', n);
    TotalAfter(d.aux, aux', falls, n);
    HitsSum(d.aux, falls);
  }

  lemma BatchBreaks(d: SetDesc, falls: seq<nat>, nbrAdd: nat, dbrange: nat, setsize: nat)
    requires WellFormed(d, dbrange, setsize) && DrawsInRange(d.aux, falls)
    requires |falls| <= setsize <= dbrange < MAX_RANGE
    requires WellFormed(AfterBatch(d, falls, nbrAdd), dbrange + nbrAdd, setsize)
    ensures Admissible(d.aux, falls)
  {
    var aux' := AfterBatch(d, falls, nbrAdd).aux;
    forall i | 0 <= i < |d.aux|
      ensures Hits(d.aux, falls, i) <= d.aux[i].count
    {
      assert aux'[i].count <= aux'[i].range;
      AccumMonotone(d.aux, i + 1, |d.aux|);
    }
  }

  /** The bookkeeping survives a batch exactly when no slot is drawn more often
      than its count; otherwise a count wraps around below zero. */
  lemma BatchKeepsIff(d: SetDesc, falls: seq<nat>, nbrAdd: nat, dbrange: nat, setsize: nat)
    requires WellFormed(d, dbrange, setsize) && DrawsInRange(d.aux, falls)
    requires |falls| <= setsize <= dbrange < MAX_RANGE && |falls| <= nbrAdd
    ensures WellFormed(AfterBatch(d, falls, nbrAdd), dbrange + nbrAdd, setsize) <==> Admissible(d.aux, falls)
  {
    if Admissible(d.aux, falls) {
      BatchKeeps(d, falls, nbrAdd, dbrange, setsize);
    }
    if WellFormed(AfterBatch(d, falls, nbrAdd), dbrange + nbrAdd, setsize) {
      BatchBreaks(d, falls, nbrAdd, dbrange, setsize);
    }
  }

  /** The first batch after preparation or a refresh is always admissible. */
  lemma FirstBatchAdmissible(d: SetDesc, falls: seq<nat>, dbrange: nat, setsize: nat)
    requires WellFormed(d, dbrange, setsize) && |d.aux| == 1
    requires DrawsInRange(d.aux, falls) && |falls| <= setsize
    ensures Admissible(d.aux, falls)
  {
    assert Total(d.aux, 1) == Total(d.aux, 0) + d.aux[0].count;
  }

  /** A second batch need not be: both draws hit the slot that holds one element,
      and its count becomes 2^32 - 1. */
  lemma SecondBatchMayWrap(sk: Key)
    ensures var d := SetDesc(sk, 0, [Slot(2, 1), Slot(1, 1)]);
      && WellFormed(d, 3, 2)
      && DrawsInRange(d.aux, [1, 1])
      && !Admissible(d.aux, [1, 1])
      && AfterBatch(d, [1, 1], 2).aux == [Slot(2, 1), Slot(1, UINT32_SIZE - 1), Slot(2, 2)]
  {
    var aux, falls := [Slot(2, 1), Slot(1, 1)], [1, 1];
    assert Accum(aux, 1) == 2 && Accum(aux, 2) == 3;
    assert Total(aux, 1) == 1 && Total(aux, 2) == 2;
    assert SlotOf(aux, 2, 1) == 1;
    assert falls[..1] == [1] && falls[..1][..0] == [];
    assert Hits(aux, [], 0) == 0 && Hits(aux, [], 1) == 0;
    assert Hits(aux, [1], 0) == 0 && Hits(aux, [1], 1) == 1;
    assert Hits(aux, falls, 0) == 0 && Hits(aux, falls, 1) == 2;
  }
}
