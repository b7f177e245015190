/** The server of the incremental scheme. */
module PirServer {
  import opened Blocks
  import opened Keys
  import opened OrderedSet
  import opened PirBatch
  import opened PirReply
  import opened PirSets
  import opened PirWalks
  import opened PrpFamily
  import opened Results

  /** A set before and after a batch, as the client sends it. */
  datatype DiffSetDesc = DiffSetDesc(sk: Key, shift: nat, auxPrev: seq<Slot>, auxCurr: seq<Slot>) {
    function Prev(): SetDesc {
      SetDesc(sk, shift, auxPrev)
    }

    function Curr(): SetDesc {
      SetDesc(sk, shift, auxCurr)
    }

    /** The reply for this set, over a database that holds all its slots. */
    ghost function Reply(f: Family, db: seq<Block>, mk: Key): Block
      requires f.Valid() && Covers(Prev(), Curr(), |db|) && Walkable(Prev(), Curr())
    {
      DiffParity(f, db, mk, Prev(), Curr())
    }
  }

  datatype UpdateQueryAdd = UpdateQueryAdd(nbrsets: nat, setsize: nat, mk: Key, diffsets: seq<DiffSetDesc>)

  // ---- The replies as functions

  /** The exclusive or of the blocks at a list of indices. */
  function XorAll(db: seq<Block>, q: seq<nat>): Block
    requires forall i | 0 <= i < |q| :: q[i] < |db|
  {
    if q == [] then ZERO else Xor(XorAll(db, q[..|q| - 1]), db[q[|q| - 1]])
  }

  /** Every listed index contributes its block once, in whatever order they are listed. */
  lemma {:induction false} XorAllSplit(db: seq<Block>, a: seq<nat>, b: seq<nat>)
    requires forall i | 0 <= i < |a| :: a[i] < |db|
    requires forall i | 0 <= i < |b| :: b[i] < |db|
    ensures XorAll(db, a + b) == Xor(XorAll(db, a), XorAll(db, b))
    ensures |b| == 1 ==> XorAll(db, b) == db[b[0]]
  {
    if b == [] {
      assert a + b == a;
      XorZero(XorAll(db, a));
    } else {
      var m := |b| - 1;
      XorAllSplit(db, a, b[..m]);
      assert (a + b)[..|a| + m] == a + b[..m];
      XorAssoc(XorAll(db, a), XorAll(db, b[..m]), db[b[m]]);
      XorZero(db[b[m]]);
    }
  }

  /** Over the indices that an iterator visits, that is the parity of the set. */
  lemma {:induction false} XorAllAscending(db: seq<Block>, s: set<nat>, n: nat)
    requires n <= |db|
    ensures XorAll(db, Ascending(s, n)) == ParityBelow(db, s, n)
  {
    if n > 0 {
      XorAllAscending(db, s, n - 1);
      if n - 1 in s {
        var q := Ascending(s, n - 1);
        assert (q + [n - 1])[..|q|] == q;
      }
    }
  }

  function OfflineIndex(y: nat, shift: nat, n: nat): (i: nat)
    requires n > 0
    ensures i < n
  {
    (y + shift) % n
  }

  /** What the offline loop has added up after m walks. */
  ghost function OfflineParity(f: Family, db: seq<Block>, sk: Key, shift: nat, m: nat): Block
    requires f.Valid() && m <= |db|
  {
    if m == 0 then ZERO
    else
      assert f.At(m - 1, |db|, sk);
      Xor(OfflineParity(f, db, sk, shift, m - 1), db[OfflineIndex(f.walk(m - 1, |db|, sk), shift, |db|)])
  }

  /** For a fresh set the offline parity is the parity of its expansion. */
  lemma OfflineParityIsExpansion(f: Family, mk: Key, db: seq<Block>, sk: Key, shift: nat, setsize: nat)
    requires f.Valid() && setsize <= |db| && shift < |db|
    ensures var d := SetDesc(sk, shift, [Slot(|db|, setsize)]);
      Fits(d) && OfflineParity(f, db, sk, shift, setsize) == Parity(db, Expansion(f, mk, d))
  {
    var d := SetDesc(sk, shift, [Slot(|db|, setsize)]);
    OfflinePrefix(f, mk, db, d, setsize);
    assert ExpandTo(f, mk, d, 1) == ExpandTo(f, mk, d, 0) + SlotSet(f, mk, d, 0, 0, setsize);
    assert ExpandTo(f, mk, d, 0) == {};
    assert Expansion(f, mk, d) == SlotSet(f, mk, d, 0, 0, setsize);
  }

  lemma {:induction false} OfflinePrefix(f: Family, mk: Key, db: seq<Block>, d: SetDesc, m: nat)
    requires f.Valid() && Fits(d) && |d.aux| == 1 && d.aux[0].range == |db| && m <= |db|
    ensures OfflineParity(f, db, d.sk, d.shift, m) == Parity(db, SlotSet(f, mk, d, 0, 0, m))
  {
    if m == 0 {
      ParityEmpty(db);
    } else {
      OfflinePrefix(f, mk, db, d, m - 1);
      SlotNext(f, mk, d, 0, 0, m - 1);
      assert f.At(m - 1, |db|, d.sk);
      var y := f.walk(m - 1, |db|, d.sk);
      ModSmall(y + d.shift, |db|);
      assert Local(f, mk, d, 0, m - 1) == (y + d.shift) % |db|;
      ParityAdd(db, SlotSet(f, mk, d, 0, 0, m - 1), Index(f, mk, d, 0, m - 1));
    }
  }

  // ---- The server

  class PIRServer {
    const p: Prims
    var dbrange: nat
    var setsize: nat
    var nbrsets: nat
    var db: seq<Block>

    constructor (p: Prims, dbrange: nat, setsize: nat, nbrsets: nat, db: seq<Block>)
      ensures this.p == p && this.dbrange == dbrange && this.setsize == setsize
      ensures this.nbrsets == nbrsets && this.db == db
    {
      this.p, this.dbrange, this.setsize, this.nbrsets, this.db := p, dbrange, setsize, nbrsets, db;
    }

    /** One parity for each set; it fails when a set is larger than the database. */
    method GenerateOfflineReply(sets: seq<SetDesc>, ghost f: Family) returns (r: Result<seq<Block>>)
      requires f.Realizes(p) && f.Valid()
      requires |sets| == nbrsets && |db| == dbrange < UINT32_SIZE
      ensures r.Err? <==> nbrsets > 0 && setsize > dbrange
      ensures r.Ok? ==> |r.value| == nbrsets
      ensures r.Ok? ==> forall s | 0 <= s < nbrsets ::
        r.value[s] == OfflineParity(f, db, sets[s].sk, sets[s].shift, setsize)
    {
      var parities: seq<Block> := [];
      for s := 0 to nbrsets
        invariant |parities| == s
        invariant s > 0 ==> setsize <= dbrange
        invariant forall i | 0 <= i < s ::
          setsize <= |db| && parities[i] == OfflineParity(f, db, sets[i].sk, sets[i].shift, setsize)
      {
        var parity := OfflineParityOf(sets[s], f);
        if parity.Err? {
          return Err(parity.error);
        }
        parities := parities + [parity.value];
      }
      return Ok(parities);
    }

    method OfflineParityOf(d: SetDesc, ghost f: Family) returns (r: Result<Block>)
      requires f.Realizes(p) && f.Valid()
      requires |db| == dbrange < UINT32_SIZE
      ensures r.Err? <==> setsize > dbrange
      ensures r.Ok? ==> r.value == OfflineParity(f, db, d.sk, d.shift, setsize)
    {
      var parity: Block := ZERO;
      for j := 0 to setsize
        invariant j <= dbrange
        invariant parity == OfflineParity(f, db, d.sk, d.shift, j)
      {
        var y := Walk(p, f, j, dbrange, d.sk);
        if y.Err? {
          return Err(y.error);
        }
        parity := Xor(parity, db[OfflineIndex(y.value, d.shift, dbrange)]);
      }
      return Ok(parity);
    }

    method GenerateOnlineReply(indices: seq<nat>) returns (parity: Block)
      requires forall i | 0 <= i < |indices| :: indices[i] < |db|
      ensures parity == XorAll(db, indices)
    {
      parity := ZERO;
      for i := 0 to |indices|
        invariant parity == XorAll(db, indices[..i])
      {
        assert indices[..i + 1][..i] == indices[..i];
        parity := Xor(parity, db[indices[i]]);
      }
      assert indices[..|indices|] == indices;
    }

    method AddElements(nbrAdd: nat, v: seq<Block>) returns (r: Result<()>)
      requires dbrange + nbrAdd < UINT32_SIZE
      modifies this
      ensures r.Ok? <==> nbrAdd == |v|
      ensures db == (if r.Ok? then old(db) + v else old(db))
      ensures dbrange == (if r.Ok? then old(dbrange) + nbrAdd else old(dbrange))
      ensures setsize == old(setsize) && nbrsets == old(nbrsets)
    {
      if nbrAdd != |v| {
        return Err(InvalidArgument("server additions error"));
      }
      for i := 0 to nbrAdd
        modifies this`db
        invariant db == old(db) + v[..i]
      {
        assert v[..i + 1] == v[..i] + [v[i]];
        db := db + [v[i]];
      }
      assert v[..nbrAdd] == v;
      dbrange := Add32(dbrange, nbrAdd);
      return Ok(());
    }

    /** For every set, what its walks add up to; it fails exactly when a walk does. */
    method BatchedAdditionReply(q: UpdateQueryAdd, ghost f: Family) returns (r: Result<seq<Block>>)
      requires f.Realizes(p) && f.Valid()
      requires |q.diffsets| == nbrsets
      requires forall s | 0 <= s < nbrsets :: Covers(q.diffsets[s].Prev(), q.diffsets[s].Curr(), |db|)
      ensures r.Ok? <==> forall s | 0 <= s < nbrsets :: Walkable(q.diffsets[s].Prev(), q.diffsets[s].Curr())
      ensures r.Ok? ==> |r.value| == nbrsets
      ensures r.Ok? ==> forall s | 0 <= s < nbrsets :: r.value[s] == q.diffsets[s].Reply(f, db, q.mk)
    {
      var parities: seq<Block> := [];
      for s := 0 to nbrsets
        invariant |parities| == s
        invariant forall i | 0 <= i < s ::
          Walkable(q.diffsets[i].Prev(), q.diffsets[i].Curr()) && parities[i] == q.diffsets[i].Reply(f, db, q.mk)
      {
        var parity := DiffReply(q.diffsets[s], q.mk, f);
        if parity.Err? {
          return Err(parity.error);
        }
        parities := parities + [parity.value];
      }
      return Ok(parities);
    }

    /** The reply for one set: the difference of the old slots, then the new slot. */
    method DiffReply(q: DiffSetDesc, mk: Key, ghost f: Family) returns (r: Result<Block>)
      requires f.Realizes(p) && f.Valid() && Covers(q.Prev(), q.Curr(), |db|)
      ensures r.Ok? <==> Walkable(q.Prev(), q.Curr())
      ensures r.Ok? ==> r.value == q.Reply(f, db, mk)
    {
      var kickSlot := |q.auxPrev|;
      var accumRange := 0;
      var parity: Block := ZERO;
      for i := 0 to kickSlot
        invariant accumRange == Accum(q.auxPrev, i)
        invariant forall j | 0 <= j < i :: InRange(q.auxPrev[j].range, q.auxCurr[j].count, q.auxPrev[j].count)
        invariant Walkable(q.Prev(), q.Curr()) ==> parity == OldSlots(f, db, mk, q.Prev(), q.Curr(), i)
      {
        SlotInside(q.Prev(), q.Curr(), |db|, i);
        var slotParity := XorSlot(q.Prev(), i, q.auxCurr[i].count, q.auxPrev[i].count, accumRange, mk, parity, f);
        if slotParity.Err? {
          return Err(slotParity.error);
        }
        parity := slotParity.value;
        accumRange := accumRange + q.auxPrev[i].range;
      }
      var newSlot := |q.auxCurr| - 1;
      SlotInside(q.Prev(), q.Curr(), |db|, newSlot);
      r := XorSlot(q.Curr(), newSlot, 0, q.auxCurr[newSlot].count, accumRange, mk, parity, f);
    }

    /** The members lo, ..., hi-1 of one slot, added to a parity. */
    method XorSlot(d: SetDesc, slot: nat, lo: nat, hi: nat, accum: nat, mk: Key, parity: Block, ghost f: Family)
      returns (r: Result<Block>)
      requires f.Realizes(p) && f.Valid()
      requires slot < |d.aux| && accum + d.aux[slot].range <= |db| < MAX_RANGE && d.shift < MAX_RANGE
      ensures r.Ok? <==> InRange(d.aux[slot].range, lo, hi)
      ensures r.Ok? ==> r.value == Xor(parity, WalkParity(f, db, mk, d, slot, accum, lo, hi))
    {
      var range := d.aux[slot].range;
      var ki := if slot == 0 then d.sk else p.kdf(mk, d.sk, slot);
      var sum := parity;
      var ell := lo;
      XorZero(parity);
      while ell < hi
        invariant lo <= ell && (ell <= hi || ell == lo) && InRange(range, lo, ell)
        invariant sum == Xor(parity, WalkParity(f, db, mk, d, slot, accum, lo, ell))
      {
        var y := SlotWalk(p, f, mk, d, slot, ki, ell);
        if y.Err? {
          return Err(y.error);
        }
        XorAssoc(parity, WalkParity(f, db, mk, d, slot, accum, lo, ell), db[accum + y.value]);
        sum := Xor(sum, db[accum + y.value]);
        ell := ell + 1;
      }
      return Ok(sum);
    }
  }
}
