/** The state of the incremental scheme and its steps: a query with recovery, a
    refresh with recovery, and one batch of additions. Coins and random draws
    are arguments of the steps. */
module PirState {
  import opened Bits
  import opened Blocks
  import opened Keys
  import opened OrderedSet
  import opened PirBatch
  import opened PirDiff
  import opened PirOverdraw
  import opened PirReach
  import opened PirReply
  import opened PirSearch
  import opened PirSets
  import opened PirWalks
  import opened PrpFamily

  datatype ClientState = ClientState(
    dbrange: nat, setsize: nat, nbrsets: nat, mk: Key,
    sets: seq<SetDesc>, parities: seq<Block>,
    setno: int, blk: Block)
  {
    predicate Sized() {
      2 <= setsize <= dbrange < MAX_RANGE
    }

    predicate Listed() {
      && 1 <= nbrsets == |sets| == |parities|
      && forall s | 0 <= s < nbrsets :: Laid(sets[s])
    }

    /** Enough to query and to refresh, also after counts have wrapped. */
    predicate Usable() {
      && Sized()
      && Listed()
      && forall s | 0 <= s < nbrsets ::
          Expandable(sets[s], dbrange) && Accum(sets[s].aux, |sets[s].aux|) <= dbrange
    }

    predicate Valid() {
      && Sized()
      && 1 <= nbrsets == |sets| == |parities|
      && forall s | 0 <= s < nbrsets :: WellFormed(sets[s], dbrange, setsize)
    }
  }

  lemma ValidIsUsable(c: ClientState)
    requires c.Valid()
    ensures c.Usable()
  {
  }

  datatype World = World(client: ClientState, db: seq<Block>) {
    predicate Valid() {
      client.Valid() && |db| == client.dbrange
    }
  }

  /** A new client: one slot per set and no hints. The number of the queried set is
      uninitialised, so that it is whatever the memory holds. */
  function NewClient(dbrange: nat, setsize: nat, nbrsets: nat, mk: Key, keys: nat -> Key, shifts: nat -> nat,
      setno: int): ClientState
    requires nbrsets > 0 ==> dbrange > 0
  {
    ClientState(dbrange, setsize, nbrsets, mk,
      seq(nbrsets, s requires 0 <= s < nbrsets => SetDesc(keys(s), shifts(s) % dbrange, [Slot(dbrange, setsize)])),
      seq(nbrsets, _ => ZERO), setno, ZERO)
  }

  // ---- Removing one index before a query is sent

  /** The coin of the probabilistic removal, and the draw used when it keeps the
      queried index and removes another one. */
  datatype Removal = Removal(keep: bool, draw: nat)

  /** The element that the iterator reaches after `draw % size` steps. */
  function Victim(s: set<nat>, n: nat, draw: nat): (v: nat)
    requires s != {} && Within(s, n)
    ensures v in s
  {
    AscendingSize(s, n);
    Ascending(s, n)[draw % |s|]
  }

  function AfterRemoval(s: set<nat>, n: nat, rm: Removal, idx: nat): set<nat>
    requires Within(s, n) && (rm.keep ==> s - {idx} != {})
  {
    if rm.keep then (s - {idx}) - {Victim(s - {idx}, n, rm.draw)} + {idx} else s - {idx}
  }

  /** What the query leaves out of the set, or adds to it. */
  function Omitted(s: set<nat>, n: nat, rm: Removal, idx: nat): set<nat>
    requires Within(s, n) && s - {idx} != {}
  {
    SymDiff(s, AfterRemoval(s, n, rm, idx))
  }

  /** The index that a query for a member leaves out. */
  function Dropped(s: set<nat>, n: nat, rm: Removal, idx: nat): nat
    requires Within(s, n) && s - {idx} != {}
  {
    if rm.keep then Victim(s - {idx}, n, rm.draw) else idx
  }

  /** A query for a member of the set leaves out exactly one index. */
  lemma OmittedMember(s: set<nat>, n: nat, rm: Removal, idx: nat)
    requires Within(s, n) && s - {idx} != {} && idx in s
    ensures Omitted(s, n, rm, idx) == {Dropped(s, n, rm, idx)}
    ensures Dropped(s, n, rm, idx) in s
    ensures |AfterRemoval(s, n, rm, idx)| == |s| - 1
  {
    var d := Dropped(s, n, rm, idx);
    if rm.keep {
      assert d in s && d != idx;
    }
    assert AfterRemoval(s, n, rm, idx) == s - {d};
    RemoveOne(s, d);
  }

  lemma RemoveOne(s: set<nat>, d: nat)
    requires d in s
    ensures SymDiff(s, s - {d}) == {d} && |s - {d}| == |s| - 1
  {
  }

  lemma AfterRemovalWithin(s: set<nat>, n: nat, rm: Removal, idx: nat)
    requires Within(s, n) && s - {idx} != {} && idx < n
    ensures Within(AfterRemoval(s, n, rm, idx), n)
  {
  }

  /** The reply to a query is the parity of the set, up to the parity of what was omitted. */
  lemma ReplyParity(db: seq<Block>, s: set<nat>, rm: Removal, idx: nat)
    requires Within(s, |db|) && s - {idx} != {}
    ensures Parity(db, AfterRemoval(s, |db|, rm, idx)) ==
      Xor(Parity(db, s), Parity(db, Omitted(s, |db|, rm, idx)))
  {
    var t := AfterRemoval(s, |db|, rm, idx);
    ParitySymDiff(db, s, t);
    XorCancels(Parity(db, t), Parity(db, s));
  }

  lemma TwoElements(s: set<nat>, idx: nat)
    requires |s| >= 2
    ensures s - {idx} != {}
  {
    if s - {idx} == {} {
      assert s <= {idx};
      SubsetSize(s, {idx});
    }
  }

  lemma {:induction false} SubsetSize(s: set<nat>, t: set<nat>)
    requires s <= t
    ensures |s| <= |t|
  {
    if s != {} {
      var x :| x in s;
      SubsetSize(s - {x}, t - {x});
    }
  }

  // ---- The sets of a valid state

  ghost function SetOf(f: Family, c: ClientState, s: nat): (r: set<nat>)
    requires f.Valid() && c.Valid() && s < c.nbrsets
    ensures Within(r, c.dbrange) && |r| == c.setsize
    ensures forall idx: nat :: r - {idx} != {}
  {
    var r := Expansion(f, c.mk, c.sets[s]);
    ExpansionSize(f, c.mk, c.sets[s], c.dbrange, c.setsize);
    assert forall idx: nat :: r - {idx} != {} by {
      forall idx: nat
        ensures r - {idx} != {}
      {
        TwoElements(r, idx);
      }
    }
    r
  }

  /** The indices that a query expands a set to. */
  ghost function QuerySet(f: Family, c: ClientState, s: nat): (r: set<nat>)
    requires f.Valid() && c.Usable() && s < c.nbrsets
    ensures Within(r, c.dbrange)
  {
    var d := c.sets[s];
    BaseBound(d.aux, c.dbrange, |d.aux|);
    assert Within(Reached(f, c.mk, d, c.dbrange), c.dbrange) by {
      forall idx | idx in Reached(f, c.mk, d, c.dbrange) ensures idx < c.dbrange {
        ReachBound(f, c.mk, d, c.dbrange, |d.aux|, idx);
      }
    }
    Reached(f, c.mk, d, c.dbrange)
  }

  lemma QuerySetIsSet(f: Family, c: ClientState, s: nat)
    requires f.Valid() && c.Valid() && s < c.nbrsets
    ensures c.Usable() && QuerySet(f, c, s) == SetOf(f, c, s)
  {
    ValidIsUsable(c);
    ReachedIsExpansion(f, c.mk, c.sets[s], c.dbrange, c.setsize);
  }

  lemma VictimRank(s: set<nat>, n: nat, draw: nat)
    requires s != {} && Within(s, n)
    ensures |Below(s, Victim(s, n, draw))| == draw % |s|
  {
    AscendingSize(s, n);
    AscendingRank(s, n, draw % |s|);
  }

  // ---- Query and recovery

  /** The number of the first set, from s on, that the search accepts, or -1. */
  ghost function FirstAccepting(f: Family, c: ClientState, idx: nat, s: nat): (r: int)
    requires c.Listed() && s <= c.nbrsets
    ensures -1 <= r < c.nbrsets
    ensures r >= 0 ==> s <= r && Accepts(f, c.mk, c.sets[r], idx)
    decreases c.nbrsets - s
  {
    if s == c.nbrsets then -1
    else if Accepts(f, c.mk, c.sets[s], idx) then s
    else FirstAccepting(f, c, idx, s + 1)
  }

  /** The set that a query uses; set 0 when the search fails. */
  ghost function Chosen(f: Family, c: ClientState, idx: nat): (s: nat)
    requires c.Listed()
    ensures s < c.nbrsets
  {
    var s := FirstAccepting(f, c, idx, 0);
    if s == -1 then 0 else s
  }

  ghost function AfterQuery(f: Family, w: World, idx: nat, rm: Removal): World
    requires f.Valid() && w.Valid()
  {
    var c := w.client;
    var s := Chosen(f, c, idx);
    var reply := Parity(w.db, AfterRemoval(SetOf(f, c, s), c.dbrange, rm, idx));
    w.(client := c.(setno := s, blk := Xor(reply, c.parities[s])))
  }

  // ---- Refresh and recovery

  /** A new set whose element number `r % setsize` is the refreshed index, if it is
      in the database. */
  ghost function FreshSet(f: Family, c: ClientState, idx: nat, newKey: Key, r: nat): (d: SetDesc)
    requires f.Valid() && c.Sized()
    ensures d.aux == [Slot(c.dbrange, c.setsize)] && d.shift < c.dbrange
  {
    assert f.At(r % c.setsize, c.dbrange, newKey);
    var y := f.walk(r % c.setsize, c.dbrange, newKey);
    SetDesc(newKey, RotateBack32(idx, y, c.dbrange), [Slot(c.dbrange, c.setsize)])
  }

  lemma OneSlotWellFormed(sk: Key, shift: nat, dbrange: nat, setsize: nat)
    requires setsize <= dbrange && shift < dbrange
    ensures WellFormed(SetDesc(sk, shift, [Slot(dbrange, setsize)]), dbrange, setsize)
  {
    var aux := [Slot(dbrange, setsize)];
    assert Accum(aux, 1) == dbrange && Total(aux, 1) == setsize;
  }

  lemma NewClientValid(dbrange: nat, setsize: nat, nbrsets: nat, mk: Key, keys: nat -> Key, shifts: nat -> nat,
      setno: int)
    requires 2 <= setsize <= dbrange < MAX_RANGE && 1 <= nbrsets
    ensures NewClient(dbrange, setsize, nbrsets, mk, keys, shifts, setno).Valid()
  {
    forall s | 0 <= s < nbrsets
      ensures WellFormed(SetDesc(keys(s), shifts(s) % dbrange, [Slot(dbrange, setsize)]), dbrange, setsize)
    {
      OneSlotWellFormed(keys(s), shifts(s) % dbrange, dbrange, setsize);
    }
  }

  /** Element number `r % setsize` of the fresh set is the index. */
  lemma FreshElementIs(f: Family, c: ClientState, idx: nat, newKey: Key, r: nat)
    requires f.Valid() && c.Sized() && idx < c.dbrange
    ensures var d := FreshSet(f, c, idx, newKey, r);
      d.sk == newKey && Index(f, c.mk, d, 0, r % c.setsize) == idx && LocalInv(f, c.mk, d, 0, idx) == r % c.setsize
  {
    var d, x := FreshSet(f, c, idx, newKey, r), r % c.setsize;
    assert f.At(x, c.dbrange, newKey);
    var y := f.walk(x, c.dbrange, newKey);
    RotateInverse(idx, y, c.dbrange);
    ModSmall(y + d.shift, c.dbrange);
    assert Local(f, c.mk, d, 0, x) == idx;
    LocalInverse(f, c.mk, d, 0, x);
  }

  /** The fresh set contains the index, as its element number `r % setsize`. */
  lemma FreshSetContains(f: Family, c: ClientState, idx: nat, newKey: Key, r: nat)
    requires f.Valid() && c.Valid() && idx < c.dbrange
    ensures var d := FreshSet(f, c, idx, newKey, r);
      WellFormed(d, c.dbrange, c.setsize) && idx in Expansion(f, c.mk, d)
    ensures var d := FreshSet(f, c, idx, newKey, r);
      d.sk == newKey && Index(f, c.mk, d, 0, r % c.setsize) == idx && LocalInv(f, c.mk, d, 0, idx) == r % c.setsize
  {
    var d := FreshSet(f, c, idx, newKey, r);
    OneSlotWellFormed(newKey, d.shift, c.dbrange, c.setsize);
    FreshElementIs(f, c, idx, newKey, r);
    ExpandMember(f, c.mk, d, 1, 0, idx);
  }

  /** Dividing twice and moving by n leaves the remainder. */
  lemma RemainderMoves(idx: nat, n: nat, q: nat, q': nat, e: nat)
    requires e < n && idx + n == n * q + (n * q' + e)
    ensures idx % n == e
  {
    assert n * q + n * q' == n * (q + q');
    if q + q' > 0 {
      assert n * (q + q') == n * (q + q' - 1) + n;
      QuotientUnique(idx, n, q + q' - 1, e);
    }
  }

  lemma RotatedModulo(idx: nat, y: nat, n: nat)
    requires y < n
    ensures (y + (idx + n - y) % n) % n == idx % n
  {
    var z := idx + n - y;
    var s := z % n;
    var e := (y + s) % n;
    assert z == n * (z / n) + s;
    assert y + s == n * ((y + s) / n) + e;
    RemainderMoves(idx, n, z / n, (y + s) / n, e);
  }

  lemma RotatedAround(idx: nat, y: nat, n: nat)
    requires y < n < MAX_RANGE && idx + n < UINT32_SIZE
    ensures (y + RotateBack32(idx, y, n)) % n == idx % n
  {
    RotatedBack(idx, y, n);
    RotatedModulo(idx, y, n);
  }

  /** The element number `r % setsize` of a fresh set is the index, around the end of the
      database if the index lies beyond it. */
  lemma FreshElement(f: Family, c: ClientState, idx: nat, newKey: Key, r: nat)
    requires f.Valid() && c.Sized() && idx + c.dbrange < UINT32_SIZE
    ensures var d, y := FreshSet(f, c, idx, newKey, r), f.walk(r % c.setsize, c.dbrange, newKey);
      y < c.dbrange && (y + d.shift) % c.dbrange == idx % c.dbrange
  {
    assert f.At(r % c.setsize, c.dbrange, newKey);
    RotatedAround(idx, f.walk(r % c.setsize, c.dbrange, newKey), c.dbrange);
  }

  ghost function AfterRefresh(f: Family, w: World, idx: nat, newKey: Key, r: nat, rm: Removal): World
    requires f.Valid() && w.Valid() && idx < w.client.dbrange && 0 <= w.client.setno < w.client.nbrsets
  {
    var c := w.client;
    var d := FreshSet(f, c, idx, newKey, r);
    FreshSetContains(f, c, idx, newKey, r);
    var c' := c.(sets := c.sets[c.setno := d]);
    var reply := Parity(w.db, AfterRemoval(SetOf(f, c', c.setno), c.dbrange, rm, idx));
    w.(client := c'.(parities := c.parities[c.setno := Xor(reply, c.blk)]))
  }

  // ---- One batch of additions

  /** The random choices of a batch: whether addition i enters set s, at which
      position, and the draws that kick elements out of set s. */
  datatype Draws = Draws(coin: (nat, nat) -> bool, pick: (nat, nat) -> nat, fall: (nat, nat) -> nat)

  /** The positions of set s that the first n additions are sampled into. */
  function Positions(dr: Draws, setsize: nat, n: nat, s: nat): set<nat>
    requires setsize > 0
  {
    if n == 0 then {}
    else Positions(dr, setsize, n - 1, s) + (if dr.coin(n - 1, s) then {dr.pick(n - 1, s) % setsize} else {})
  }

  /** Some addition is sampled into position x of set s. */
  ghost predicate PickedAt(dr: Draws, setsize: nat, n: nat, s: nat, x: nat)
    requires setsize > 0
  {
    exists i: nat :: i < n && dr.coin(i, s) && dr.pick(i, s) % setsize == x
  }

  /** The positions are exactly those that a coin let an addition into. */
  lemma {:induction false} PositionPicked(dr: Draws, setsize: nat, n: nat, s: nat, x: nat)
    requires setsize > 0
    ensures x in Positions(dr, setsize, n, s) <==> PickedAt(dr, setsize, n, s, x)
  {
    if n > 0 {
      PositionPicked(dr, setsize, n - 1, s, x);
      if PickedAt(dr, setsize, n - 1, s, x) {
        var i: nat :| i < n - 1 && dr.coin(i, s) && dr.pick(i, s) % setsize == x;
        assert PickedAt(dr, setsize, n, s, x);
      }
      if dr.coin(n - 1, s) && dr.pick(n - 1, s) % setsize == x {
        assert PickedAt(dr, setsize, n, s, x);
      }
    }
  }

  /** The positions of set s that some addition is sampled into. */
  ghost function Picked(dr: Draws, setsize: nat, n: nat, s: nat): set<nat>
    requires setsize > 0
  {
    set x: nat | 0 <= x < setsize && PickedAt(dr, setsize, n, s, x)
  }

  lemma PositionsArePicked(dr: Draws, setsize: nat, n: nat, s: nat)
    requires setsize > 0
    ensures Positions(dr, setsize, n, s) == Picked(dr, setsize, n, s)
  {
    PositionsBound(dr, setsize, n, s);
    forall x: nat ensures x in Positions(dr, setsize, n, s) <==> x in Picked(dr, setsize, n, s) {
      PositionPicked(dr, setsize, n, s, x);
    }
  }

  /** Sampling gives distinct positions, so at most min(setsize, nbrAdd) of them. */
  lemma {:induction false} PositionsBound(dr: Draws, setsize: nat, n: nat, s: nat)
    requires setsize > 0
    ensures |Positions(dr, setsize, n, s)| <= n
    ensures |Positions(dr, setsize, n, s)| <= setsize
    ensures Within(Positions(dr, setsize, n, s), setsize)
  {
    if n > 0 {
      PositionsBound(dr, setsize, n - 1, s);
    }
    assert Within(Positions(dr, setsize, n, s), setsize);
    WithinSize(Positions(dr, setsize, n, s), setsize);
  }

  lemma {:induction false} WithinSize(s: set<nat>, n: nat)
    requires Within(s, n)
    ensures |s| <= n
  {
    if n == 0 {
      assert s == {};
    } else {
      WithinSize(s - {n - 1}, n - 1);
    }
  }

  /** The draws against the slots of set s, one per sampled position. */
  function Falls(dr: Draws, setsize: nat, nbrAdd: nat, s: nat): (r: seq<nat>)
    requires setsize > 0
    ensures |r| == |Positions(dr, setsize, nbrAdd, s)|
    ensures forall i | 0 <= i < |r| :: r[i] == dr.fall(s, i) % setsize
  {
    seq(|Positions(dr, setsize, nbrAdd, s)|, i requires i >= 0 => dr.fall(s, i) % setsize)
  }

  /** In set s no slot is drawn more often than its count. */
  ghost predicate AdmissibleFor(c: ClientState, dr: Draws, nbrAdd: nat, s: nat)
    requires c.Valid() && s < c.nbrsets
  {
    Admissible(c.sets[s].aux, Falls(dr, c.setsize, nbrAdd, s))
  }

  ghost predicate AdmissibleDraws(c: ClientState, dr: Draws, nbrAdd: nat)
    requires c.Valid()
  {
    forall s | 0 <= s < c.nbrsets :: AdmissibleFor(c, dr, nbrAdd, s)
  }

  function NewSet(c: ClientState, dr: Draws, nbrAdd: nat, s: nat): SetDesc
    requires c.Valid() && s < c.nbrsets
  {
    PositionsBound(dr, c.setsize, nbrAdd, s);
    AfterBatch(c.sets[s], Falls(dr, c.setsize, nbrAdd, s), nbrAdd)
  }

  /** Which of ell draws for set s fall into slot i of it. */
  ghost function FallsInto(aux: seq<Slot>, dr: Draws, setsize: nat, ell: nat, s: nat, i: nat): set<nat>
    requires setsize > 0 && i < |aux|
  {
    set j: nat | 0 <= j < ell && Into(aux, i, dr.fall(s, j) % setsize)
  }

  /** Slot i keeps its range, and its count falls by one for each draw that falls into it,
      in 32 bits. */
  ghost predicate SlotBatched(prev: SetDesc, cur: SetDesc, dr: Draws, setsize: nat, ell: nat, s: nat, i: nat)
    requires setsize > 0 && i < |prev.aux| && i < |cur.aux|
  {
    && cur.aux[i].range == prev.aux[i].range
    && cur.aux[i].count == (prev.aux[i].count - |FallsInto(prev.aux, dr, setsize, ell, s, i)|) % 0x1_0000_0000
  }

  /** What a batch makes of set s: one draw for each picked position, and a last slot for
      the new blocks that holds as many of them. */
  ghost predicate Batched(prev: SetDesc, cur: SetDesc, dr: Draws, setsize: nat, nbrAdd: nat, s: nat)
    requires setsize > 0
  {
    var ell := |Picked(dr, setsize, nbrAdd, s)|;
    && cur.sk == prev.sk && cur.shift == prev.shift
    && |cur.aux| == |prev.aux| + 1 && cur.aux[|prev.aux|] == Slot(nbrAdd, ell)
    && forall i {:trigger cur.aux[i]} | 0 <= i < |prev.aux| :: SlotBatched(prev, cur, dr, setsize, ell, s, i)
  }

  lemma SameDraws(aux: seq<Slot>, dr: Draws, setsize: nat, nbrAdd: nat, s: nat, i: nat)
    requires setsize > 0 && i < |aux|
    ensures DrawsInto(aux, Falls(dr, setsize, nbrAdd, s), i) ==
      FallsInto(aux, dr, setsize, |Positions(dr, setsize, nbrAdd, s)|, s, i)
  {
  }

  lemma KickedSlotBatched(d: SetDesc, cur: SetDesc, falls: seq<nat>, dr: Draws, setsize: nat, nbrAdd: nat,
      s: nat, i: nat)
    requires setsize > 0 && i < |d.aux| && falls == Falls(dr, setsize, nbrAdd, s) && |falls| <= UINT32_SIZE
    requires DrawsInRange(d.aux, falls) && cur == AfterBatch(d, falls, nbrAdd) && d.aux[i].count < UINT32_SIZE
    ensures |cur.aux| > i && SlotBatched(d, cur, dr, setsize, |falls|, s, i)
  {
    KickedCount(d, falls, nbrAdd, i);
    SameDraws(d.aux, dr, setsize, nbrAdd, s, i);
    var h := |FallsInto(d.aux, dr, setsize, |falls|, s, i)|;
    assert cur.aux[i].count == (d.aux[i].count - h) % UINT32_SIZE;
  }

  lemma NewSlotBatched(c: ClientState, dr: Draws, nbrAdd: nat, s: nat, i: nat)
    requires c.Valid() && s < c.nbrsets && i < |c.sets[s].aux|
    ensures var ell := |Picked(dr, c.setsize, nbrAdd, s)|;
      |NewSet(c, dr, nbrAdd, s).aux| > i && SlotBatched(c.sets[s], NewSet(c, dr, nbrAdd, s), dr, c.setsize, ell, s, i)
  {
    PositionsBound(dr, c.setsize, nbrAdd, s);
    PositionsArePicked(dr, c.setsize, nbrAdd, s);
    AccumMonotone(c.sets[s].aux, i + 1, |c.sets[s].aux|);
    KickedSlotBatched(c.sets[s], NewSet(c, dr, nbrAdd, s), Falls(dr, c.setsize, nbrAdd, s), dr, c.setsize, nbrAdd,
      s, i);
  }

  lemma NewSetBatched(c: ClientState, dr: Draws, nbrAdd: nat, s: nat)
    requires c.Valid() && s < c.nbrsets
    ensures Batched(c.sets[s], NewSet(c, dr, nbrAdd, s), dr, c.setsize, nbrAdd, s)
  {
    PositionsBound(dr, c.setsize, nbrAdd, s);
    PositionsArePicked(dr, c.setsize, nbrAdd, s);
    forall i | 0 <= i < |c.sets[s].aux|
      ensures SlotBatched(c.sets[s], NewSet(c, dr, nbrAdd, s), dr, c.setsize, |Picked(dr, c.setsize, nbrAdd, s)|, s, i)
    {
      NewSlotBatched(c, dr, nbrAdd, s, i);
    }
  }

  /** The client after it has computed its addition query. */
  function AfterAddQuery(c: ClientState, dr: Draws, nbrAdd: nat): ClientState
    requires c.Valid()
  {
    c.(dbrange := c.dbrange + nbrAdd, sets := seq(c.nbrsets, s requires 0 <= s < c.nbrsets => NewSet(c, dr, nbrAdd, s)))
  }

  /** Every set stays well formed exactly when its draws are admissible. */
  lemma NewSetWellFormedIff(c: ClientState, dr: Draws, nbrAdd: nat, s: nat)
    requires c.Valid() && s < c.nbrsets
    ensures WellFormed(NewSet(c, dr, nbrAdd, s), c.dbrange + nbrAdd, c.setsize) <==> AdmissibleFor(c, dr, nbrAdd, s)
  {
    PositionsBound(dr, c.setsize, nbrAdd, s);
    BatchKeepsIff(c.sets[s], Falls(dr, c.setsize, nbrAdd, s), nbrAdd, c.dbrange, c.setsize);
  }

  /** The bookkeeping invariant survives a batch exactly when the draws are admissible. */
  lemma AddQueryValidIff(c: ClientState, dr: Draws, nbrAdd: nat)
    requires c.Valid() && c.dbrange + nbrAdd < MAX_RANGE
    ensures AfterAddQuery(c, dr, nbrAdd).Valid() <==> AdmissibleDraws(c, dr, nbrAdd)
  {
    var c' := AfterAddQuery(c, dr, nbrAdd);
    forall s | 0 <= s < c.nbrsets
      ensures WellFormed(c'.sets[s], c'.dbrange, c.setsize) <==> AdmissibleFor(c, dr, nbrAdd, s)
    {
      NewSetWellFormedIff(c, dr, nbrAdd, s);
    }
  }

  /** The bookkeeping of a query survives a batch for all draws. */
  lemma AddQueryUsable(c: ClientState, dr: Draws, nbrAdd: nat)
    requires c.Valid() && c.dbrange + nbrAdd < MAX_RANGE
    ensures AfterAddQuery(c, dr, nbrAdd).Usable()
  {
    var c' := AfterAddQuery(c, dr, nbrAdd);
    forall s | 0 <= s < c.nbrsets
      ensures Expandable(c'.sets[s], c'.dbrange) && Accum(c'.sets[s].aux, |c'.sets[s].aux|) == c'.dbrange
    {
      PositionsBound(dr, c.setsize, nbrAdd, s);
      StaysExpandable(c.sets[s], Falls(dr, c.setsize, nbrAdd, s), nbrAdd, c.dbrange, c.setsize);
    }
  }

  lemma NewSetFollows(c: ClientState, dr: Draws, nbrAdd: nat, s: nat)
    requires c.Valid() && s < c.nbrsets && AdmissibleFor(c, dr, nbrAdd, s)
    ensures Follows(c.sets[s], NewSet(c, dr, nbrAdd, s))
  {
    PositionsBound(dr, c.setsize, nbrAdd, s);
    BatchFollows(c.sets[s], Falls(dr, c.setsize, nbrAdd, s), nbrAdd);
  }

  /** The server can walk the new slots for all draws. */
  lemma NewSetWalkable(c: ClientState, dr: Draws, nbrAdd: nat, s: nat)
    requires c.Valid() && s < c.nbrsets && c.dbrange + nbrAdd < MAX_RANGE
    ensures Covers(c.sets[s], NewSet(c, dr, nbrAdd, s), c.dbrange + nbrAdd)
    ensures Walkable(c.sets[s], NewSet(c, dr, nbrAdd, s))
  {
    PositionsBound(dr, c.setsize, nbrAdd, s);
    StaysExpandable(c.sets[s], Falls(dr, c.setsize, nbrAdd, s), nbrAdd, c.dbrange, c.setsize);
    AccumMonotone(c.sets[s].aux, 1, |c.sets[s].aux|);
  }

  /** The server's reply for set s, over the grown database. */
  ghost function AddReply(f: Family, c: ClientState, dr: Draws, db: seq<Block>, nbrAdd: nat, s: nat): Block
    requires f.Valid() && c.Valid() && s < c.nbrsets && c.dbrange + nbrAdd == |db| < MAX_RANGE
  {
    NewSetWalkable(c, dr, nbrAdd, s);
    DiffParity(f, db, c.mk, c.sets[s], NewSet(c, dr, nbrAdd, s))
  }

  /** With admissible draws it is the parity of the indices that enter or leave the set. */
  lemma AddReplyIsDifference(f: Family, c: ClientState, dr: Draws, db: seq<Block>, nbrAdd: nat, s: nat)
    requires f.Valid() && c.Valid() && s < c.nbrsets && c.dbrange + nbrAdd == |db| < MAX_RANGE
    requires AdmissibleFor(c, dr, nbrAdd, s)
    ensures Follows(c.sets[s], NewSet(c, dr, nbrAdd, s))
    ensures AddReply(f, c, dr, db, nbrAdd, s) ==
      Parity(db, Difference(f, c.mk, c.sets[s], NewSet(c, dr, nbrAdd, s)))
  {
    NewSetFollows(c, dr, nbrAdd, s);
    NewSetWalkable(c, dr, nbrAdd, s);
    DiffParityIsDifference(f, db, c.mk, c.sets[s], NewSet(c, dr, nbrAdd, s));
  }

  ghost function AfterAdd(f: Family, w: World, blocks: seq<Block>, dr: Draws): World
    requires f.Valid() && w.Valid() && w.client.dbrange + |blocks| < MAX_RANGE
  {
    var c, db := w.client, w.db + blocks;
    var parities := seq(c.nbrsets, s requires 0 <= s < c.nbrsets =>
      Xor(c.parities[s], AddReply(f, c, dr, db, |blocks|, s)));
    World(AfterAddQuery(c, dr, |blocks|).(parities := parities), db)
  }
}
