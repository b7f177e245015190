/** The client of the incremental scheme. */
module PirClient {
  import opened Blocks
  import opened Keys
  import opened OrderedSet
  import opened PirBatch
  import opened PirReach
  import opened PirSearch
  import opened PirServer
  import opened PirSets
  import opened PirState
  import opened PirWalks
  import opened PrpFamily
  import opened Results

  /** The position in a list of tuples of the first one that starts with r, or -1. */
  method IsInTuple(r: nat, v: seq<(nat, nat)>) returns (flag: int)
    ensures -1 <= flag < |v|
    ensures flag >= 0 ==> v[flag].0 == r && forall i | 0 <= i < flag :: v[i].0 != r
    ensures flag == -1 ==> forall i | 0 <= i < |v| :: v[i].0 != r
  {
    flag := -1;
    for i := 0 to |v|
      invariant flag == -1 && forall j | 0 <= j < i :: v[j].0 != r
    {
      if r == v[i].0 {
        return i;
      }
    }
  }

  /** Among the others, the element with `draw % size` smaller ones is gone. */
  ghost predicate RemovesRank(others: set<nat>, t: set<nat>, draw: nat, idx: nat)
    requires others != {}
  {
    exists v: nat :: v in others && |set y | y in others && y < v| == draw % |others| && t == others - {v} + {idx}
  }

  /** The query index goes, or, if the coin keeps it, another element does. */
  method ProbabilisticRemove(s: set<nat>, rm: Removal, idx: nat, ghost n: nat, order: seq<nat>) returns (t: set<nat>)
    requires Within(s, n) && (rm.keep ==> s - {idx} != {}) && order == Ascending(s - {idx}, n)
    ensures t == AfterRemoval(s, n, rm, idx)
    ensures if rm.keep then RemovesRank(s - {idx}, t, rm.draw, idx) else t == s - {idx}
  {
    AscendingSize(s - {idx}, n);
    if rm.keep {
      VictimRank(s - {idx}, n, rm.draw);
    }
    t := s - {idx};
    if rm.keep {
      var r := rm.draw % |t|;
      var it := 0;
      while it < r
        invariant it <= r
      {
        it := it + 1;
      }
      t := t - {order[it]};
      t := t + {idx};
    }
  }

  class PIRClient {
    const p: Prims
    ghost const f: Family
    var dbrange: nat
    var setsize: nat
    var nbrsets: nat
    var mk: Key
    var sets: seq<SetDesc>
    var parities: seq<Block>
    var curQrySetno: int
    var curQryBlk: Block

    ghost function State(): ClientState
      reads this
    {
      ClientState(dbrange, setsize, nbrsets, mk, sets, parities, curQrySetno, curQryBlk)
    }

    ghost predicate Valid()
      reads this
    {
      f.Realizes(p) && f.Valid() && State().Valid()
    }

    /** Enough to query and to refresh, also after counts have wrapped. */
    ghost predicate Usable()
      reads this
    {
      f.Realizes(p) && f.Valid() && State().Usable()
    }

    constructor (p: Prims, dbrange: nat, setsize: nat, nbrsets: nat, mk: Key, keys: nat -> Key, shifts: nat -> nat,
        setno: int, ghost f: Family)
      requires f.Realizes(p) && f.Valid() && (nbrsets > 0 ==> dbrange > 0)
      ensures this.p == p && this.f == f
      ensures State() == NewClient(dbrange, setsize, nbrsets, mk, keys, shifts, setno)
      ensures |sets| == |parities| == nbrsets && this.dbrange == dbrange && this.setsize == setsize && this.mk == mk
      ensures forall s | 0 <= s < nbrsets ::
        sets[s] == SetDesc(keys(s), shifts(s) % dbrange, [Slot(dbrange, setsize)]) && parities[s] == ZERO
      ensures 2 <= setsize <= dbrange < MAX_RANGE && 1 <= nbrsets ==> Valid()
    {
      this.p, this.f := p, f;
      this.dbrange, this.setsize, this.nbrsets, this.mk := dbrange, setsize, nbrsets, mk;
      this.sets, this.parities, this.curQrySetno, this.curQryBlk := [], [], setno, ZERO;
      new;
      ghost var c := NewClient(dbrange, setsize, nbrsets, mk, keys, shifts, setno);
      for s := 0 to nbrsets
        invariant this.sets == c.sets[..s] && this.parities == c.parities[..s]
        invariant State() == c.(sets := this.sets, parities := this.parities)
      {
        this.sets := this.sets + [SetDesc(keys(s), shifts(s) % dbrange, [Slot(dbrange, setsize)])];
        this.parities := this.parities + [ZERO];
      }
      assert c.sets[..nbrsets] == c.sets && c.parities[..nbrsets] == c.parities;
      if 2 <= setsize <= dbrange < MAX_RANGE && 1 <= nbrsets {
        NewClientValid(dbrange, setsize, nbrsets, mk, keys, shifts, setno);
      }
    }

    method GenerateOfflineQuery() returns (q: seq<SetDesc>)
      requires |sets| == nbrsets
      ensures q == sets
    {
      q := [];
      for s := 0 to nbrsets
        invariant q == sets[..s]
      {
        q := q + [SetDesc(sets[s].sk, sets[s].shift, sets[s].aux)];
      }
    }

    /** Hints are updated by exclusive or, set by set. */
    method UpdateParity(reply: seq<Block>)
      requires |parities| == |reply| == nbrsets
      modifies this`parities
      ensures |parities| == nbrsets
      ensures Valid() == old(Valid()) && Usable() == old(Usable())
      ensures forall s | 0 <= s < nbrsets :: parities[s] == Xor(old(parities)[s], reply[s])
    {
      for s := 0 to nbrsets
        invariant |parities| == nbrsets
        invariant forall i | 0 <= i < s :: parities[i] == Xor(old(parities)[i], reply[i])
        invariant forall i | s <= i < nbrsets :: parities[i] == old(parities)[i]
      {
        parities := parities[s := Xor(parities[s], reply[s])];
      }
    }

    // ---- Query

    /** The first set that the search accepts for the index, or -1. */
    method FindSet(idx: nat) returns (setno: int)
      requires Usable() && idx < dbrange
      ensures setno == FirstAccepting(f, State(), idx, 0)
      ensures -1 <= setno < nbrsets && (setno >= 0 ==> Accepts(f, mk, sets[setno], idx))
      ensures forall s | 0 <= s < (if setno == -1 then nbrsets else setno) :: !Accepts(f, mk, sets[s], idx)
    {
      for s := 0 to nbrsets
        invariant forall t | 0 <= t < s :: !Accepts(f, mk, sets[t], idx)
        invariant FirstAccepting(f, State(), idx, 0) == FirstAccepting(f, State(), idx, s)
      {
        var found := SearchSet(sets[s], idx);
        if found {
          return s;
        }
      }
      return -1;
    }

    method SearchSet(d: SetDesc, idx: nat) returns (found: bool)
      requires f.Realizes(p) && f.Valid() && Laid(d) && Accum(d.aux, |d.aux|) < MAX_RANGE
      ensures found <==> Accepts(f, mk, d, idx)
    {
      var accumRange := 0;
      for slot := 0 to |d.aux|
        invariant accumRange == Accum(d.aux, slot)
        invariant forall i | 0 <= i < slot :: !SlotAccepts(f, mk, d, i, idx)
      {
        AccumMonotone(d.aux, slot + 1, |d.aux|);
        var range := d.aux[slot].range;
        if accumRange <= idx < accumRange + range {
          var inv := SearchSlot(d, slot, idx, accumRange);
          if inv < d.aux[slot].count {
            assert SlotAccepts(f, mk, d, slot, idx);
            return true;
          }
        }
        accumRange := accumRange + range;
      }
      return false;
    }

    method SearchSlot(d: SetDesc, slot: nat, idx: nat, accumRange: nat) returns (inv: nat)
      requires f.Realizes(p) && f.Valid() && Laid(d) && slot < |d.aux| && d.aux[slot].range < MAX_RANGE
      requires accumRange == Accum(d.aux, slot) && InSlot(d.aux, slot, idx)
      ensures inv == SearchInv(f, mk, d, slot, idx)
    {
      var range := d.aux[slot].range;
      if d.shift != 0 && slot == 0 {
        var shiftIdx := RotateBack32(idx, d.shift, range);
        var r := Unwalk(p, f, shiftIdx, range, d.sk);
        inv := r.value;
      } else {
        var r := Unwalk(p, f, idx - accumRange, range, p.kdf(mk, d.sk, slot));
        inv := r.value;
      }
    }

    /** The indices of a set, as a query expands them. */
    method Expand(setno: nat) returns (tmp: set<nat>)
      requires Usable() && setno < nbrsets
      ensures tmp == QuerySet(f, State(), setno)
    {
      tmp := {};
      var d := sets[setno];
      var accumRange := 0;
      AccumMonotone(d.aux, 1, |d.aux|);
      for slot := 0 to |d.aux|
        invariant accumRange == Base(d.aux, dbrange, slot)
        invariant tmp == ReachTo(f, mk, d, dbrange, slot)
      {
        AccumMonotone(d.aux, slot + 1, |d.aux|);
        if !(d.aux[slot].count > dbrange) {
          var members := ExpandSlot(d, slot, accumRange);
          tmp := tmp + members;
          accumRange := accumRange + d.aux[slot].range;
        }
      }
    }

    method ExpandSlot(d: SetDesc, slot: nat, accumRange: nat) returns (tmp: set<nat>)
      requires f.Realizes(p) && f.Valid() && Laid(d) && slot < |d.aux|
      requires d.aux[slot].count <= d.aux[slot].range < MAX_RANGE && d.shift < MAX_RANGE
      ensures tmp == Moved(f, mk, d, slot, accumRange, d.aux[slot].count)
    {
      tmp := {};
      var ki := if slot == 0 then d.sk else p.kdf(mk, d.sk, slot);
      for x := 0 to d.aux[slot].count
        invariant tmp == Moved(f, mk, d, slot, accumRange, x)
      {
        var y := SlotWalk(p, f, mk, d, slot, ki, x);
        WalkedIsLocal(f, mk, d, slot, x);
        tmp := tmp + {y.value + accumRange};
      }
    }

    /** The indices of a set that contains the wanted one, with one index removed. A coin
        that keeps the index needs another one to remove. */
    method GenerateOnlineQuery(idx: nat, rm: Removal) returns (r: Result<seq<nat>>)
      requires Usable()
      requires idx < dbrange && rm.keep ==> QuerySet(f, State(), Chosen(f, State(), idx)) - {idx} != {}
      modifies this`curQrySetno
      ensures r.Ok? <==> idx < dbrange
      ensures r.Err? ==> curQrySetno == old(curQrySetno)
      ensures Usable() && (old(Valid()) ==> Valid())
      ensures r.Ok? ==>
        var c := old(State());
        var s := Chosen(f, c, idx);
        && State() == c.(setno := s)
        && r.value == Ascending(AfterRemoval(QuerySet(f, c, s), c.dbrange, rm, idx), c.dbrange)
      ensures r.Ok? ==> 0 <= curQrySetno < nbrsets && TakesFirst(f, State(), idx, curQrySetno)
    {
      if idx >= dbrange {
        return Err(InvalidArgument("query index invalid"));
      }
      var setno := FindSet(idx);
      if setno == -1 {
        setno := 0;
      }
      var tmp := Expand(setno);
      curQrySetno := setno;
      FirstIsTaken(f, old(State()), State(), idx, setno);
      tmp := ProbabilisticRemove(tmp, rm, idx, dbrange, Ascending(tmp - {idx}, dbrange));
      return Ok(Ascending(tmp, dbrange));
    }

    /** The recovered block: if the hint and the reply are the parities of two sets of
        indices, it is the parity of the indices in which they differ. */
    method QueryRecov(reply: Block) returns (blk: Block)
      requires 0 <= curQrySetno < |parities|
      modifies this`curQryBlk
      ensures blk == curQryBlk == Xor(reply, parities[curQrySetno])
      ensures old(Valid()) ==> Valid()
      ensures old(Usable()) ==> Usable()
      ensures forall db, s, t {:trigger Parity(db, s), Parity(db, t)} ::
        parities[curQrySetno] == Parity(db, s) && reply == Parity(db, t) ==> blk == Parity(db, SymDiff(t, s))
    {
      curQryBlk := Xor(reply, parities[curQrySetno]);
      blk := curQryBlk;
      forall db: seq<Block>, s: set<nat>, t: set<nat> | parities[curQrySetno] == Parity(db, s) && reply == Parity(db, t)
        ensures blk == Parity(db, SymDiff(t, s))
      {
        ParitySymDiff(db, t, s);
      }
    }

    // ---- Refresh

    /** A new key and shift for the queried set, such that it contains the index again.
        An index outside the database is not refused. */
    method GenerateRefreshQuery(idx: nat, newKey: Key, r: nat, rm: Removal) returns (q: seq<nat>)
      requires Usable() && idx < UINT32_SIZE && 0 <= curQrySetno < nbrsets
      modifies this`sets
      ensures Usable() && (old(Valid()) ==> Valid())
      ensures var c := old(State());
        var d := FreshSet(f, c, idx, newKey, r);
        && State() == c.(sets := c.sets[c.setno := d])
        && WellFormed(d, dbrange, setsize)
        && d.sk == newKey && d.aux == [Slot(dbrange, setsize)]
        && (idx < dbrange ==> Index(f, mk, d, 0, r % setsize) == idx)
        && (idx + dbrange < UINT32_SIZE ==> (f.walk(r % setsize, dbrange, newKey) + d.shift) % dbrange == idx % dbrange)
        && var s := Expansion(f, mk, d);
          && Within(s, dbrange) && s - {idx} != {}
          && q == Ascending(AfterRemoval(s, dbrange, rm, idx), if idx < dbrange then dbrange else idx + 1)
    {
      var setno := curQrySetno;
      var d := NewSetFor(idx, newKey, r);
      FreshSetElement(f, State(), idx, newKey, r);
      OneSlotWellFormed(d.sk, d.shift, dbrange, setsize);
      FreshSetUsable(f, State(), setno, d);
      sets := sets[setno := d];
      var tmp := ExpandFresh(d);
      ExpansionSize(f, mk, d, dbrange, setsize);
      TwoElements(tmp, idx);
      tmp := ProbabilisticRemove(tmp, rm, idx, dbrange, Ascending(tmp - {idx}, dbrange));
      q := Ascending(tmp, if idx < dbrange then dbrange else idx + 1);
    }

    method NewSetFor(idx: nat, newKey: Key, r: nat) returns (d: SetDesc)
      requires Usable()
      ensures d == FreshSet(f, State(), idx, newKey, r)
    {
      var y := Walk(p, f, r % setsize, dbrange, newKey);
      var shift := RotateBack32(idx, y.value, dbrange);
      d := SetDesc(newKey, shift, [Slot(dbrange, setsize)]);
    }

    /** The refresh loop always adds the shift, also when it is zero. */
    method ExpandFresh(d: SetDesc) returns (tmp: set<nat>)
      requires f.Realizes(p) && f.Valid() && dbrange < MAX_RANGE && WellFormed(d, dbrange, setsize)
      requires d.aux == [Slot(dbrange, setsize)]
      ensures tmp == Expansion(f, mk, d)
    {
      tmp := {};
      for i := 0 to setsize
        invariant tmp == SlotSet(f, mk, d, 0, 0, i)
      {
        var v := FreshElement(d, i);
        tmp := tmp + {v};
      }
      FreshExpansion(f, mk, d);
    }

    method FreshElement(d: SetDesc, i: nat) returns (v: nat)
      requires f.Realizes(p) && f.Valid() && Fits(d) && |d.aux| == 1
      requires i < d.aux[0].range == dbrange < MAX_RANGE
      ensures v == Index(f, mk, d, 0, i)
    {
      var r := Walk(p, f, i, dbrange, d.sk);
      v := r.value;
      FreshIndex(f, mk, d, i);
      v := Rotate32(v, d.shift, dbrange);
    }

    // ---- Additions

    /** For every set, the positions that the new blocks are sampled into. */
    method SampleBatch(nbrAdd: nat, dr: Draws) returns (linfo: seq<seq<(nat, nat)>>)
      requires Valid()
      ensures |linfo| == nbrsets
      ensures forall s | 0 <= s < nbrsets :: Names(linfo[s], Positions(dr, setsize, nbrAdd, s))
    {
      linfo := seq(nbrsets, _ => []);
      for i := 0 to nbrAdd
        invariant |linfo| == nbrsets
        invariant forall s | 0 <= s < nbrsets :: Names(linfo[s], Positions(dr, setsize, i, s))
      {
        var curIdx := dbrange + i;
        for s := 0 to nbrsets
          invariant |linfo| == nbrsets
          invariant forall t | 0 <= t < s :: Names(linfo[t], Positions(dr, setsize, i + 1, t))
          invariant forall t | s <= t < nbrsets :: Names(linfo[t], Positions(dr, setsize, i, t))
        {
          var r := dr.pick(i, s) % setsize;
          if dr.coin(i, s) {
            var v := Sample(linfo[s], r, curIdx, Positions(dr, setsize, i, s));
            linfo := linfo[s := v];
          } else {
            assert Positions(dr, setsize, i + 1, s) == Positions(dr, setsize, i, s);
          }
        }
      }
    }

    method NewSlots(s: nat, ell: nat, nbrAdd: nat, dr: Draws) returns (d: SetDesc)
      requires Valid() && s < nbrsets && ell == |Positions(dr, setsize, nbrAdd, s)|
      ensures d == NewSet(State(), dr, nbrAdd, s)
    {
      PositionsBound(dr, setsize, nbrAdd, s);
      var falls := Falls(dr, setsize, nbrAdd, s);
      forall i | 0 <= i < |sets[s].aux|
        ensures sets[s].aux[i].count < UINT32_SIZE
      {
        AccumMonotone(sets[s].aux, i + 1, |sets[s].aux|);
      }
      var aux := KickOut(sets[s].aux, falls);
      d := sets[s].(aux := aux + [Slot(nbrAdd, ell)]);
    }

    /** New slots for every set. The state stays valid exactly when no slot was
        drawn more often than its count. */
    method BatchedAdditionQuery(nbrAdd: nat, dr: Draws) returns (q: UpdateQueryAdd)
      requires Valid() && dbrange + nbrAdd < MAX_RANGE
      modifies this
      ensures State() == AfterAddQuery(old(State()), dr, nbrAdd) && Usable()
      ensures Valid() <==> AdmissibleDraws(old(State()), dr, nbrAdd)
      ensures q.mk == mk && q.nbrsets == nbrsets == |q.diffsets| && q.setsize == setsize
      ensures forall s | 0 <= s < nbrsets ::
        q.diffsets[s] == DiffSetDesc(sets[s].sk, sets[s].shift, old(sets)[s].aux, sets[s].aux)
      ensures dbrange == old(dbrange) + nbrAdd && |sets| == nbrsets == |old(sets)|
      ensures setsize == old(setsize) > 0
      ensures forall s | 0 <= s < nbrsets :: Batched(old(sets)[s], sets[s], dr, setsize, nbrAdd, s)
    {
      ghost var c := State();
      var linfo := SampleBatch(nbrAdd, dr);
      var newSets, diffsets := NewSetsFor(linfo, nbrAdd, dr);
      AddQueryValidIff(c, dr, nbrAdd);
      AddQueryUsable(c, dr, nbrAdd);
      AfterAddSets(c, dr, nbrAdd, newSets);
      AllBatched(c, dr, nbrAdd, newSets);
      q := UpdateQueryAdd(nbrsets, setsize, mk, diffsets);
      dbrange, sets := Add32(dbrange, nbrAdd), newSets;
    }

    method NewSetsFor(linfo: seq<seq<(nat, nat)>>, nbrAdd: nat, dr: Draws)
      returns (newSets: seq<SetDesc>, diffsets: seq<DiffSetDesc>)
      requires Valid() && |linfo| == nbrsets
      requires forall s | 0 <= s < nbrsets :: Names(linfo[s], Positions(dr, setsize, nbrAdd, s))
      ensures |newSets| == |diffsets| == nbrsets
      ensures forall t | 0 <= t < nbrsets ::
        && newSets[t] == NewSet(State(), dr, nbrAdd, t)
        && diffsets[t] == DiffSetDesc(newSets[t].sk, newSets[t].shift, sets[t].aux, newSets[t].aux)
    {
      newSets, diffsets := [], [];
      for s := 0 to nbrsets
        invariant |newSets| == |diffsets| == s
        invariant forall t | 0 <= t < s ::
          && newSets[t] == NewSet(State(), dr, nbrAdd, t)
          && diffsets[t] == DiffSetDesc(newSets[t].sk, newSets[t].shift, sets[t].aux, newSets[t].aux)
      {
        var d := NewSlots(s, |linfo[s]|, nbrAdd, dr);
        newSets := newSets + [d];
        diffsets := diffsets + [DiffSetDesc(sets[s].sk, sets[s].shift, sets[s].aux, d.aux)];
      }
    }

    /** The new hint: if the reply and the recovered block are the parities of two sets of
        indices, it is the parity of the indices in which they differ. */
    method RefreshRecov(reply: Block)
      requires 0 <= curQrySetno < |parities|
      modifies this`parities
      ensures parities == old(parities)[curQrySetno := Xor(reply, curQryBlk)]
      ensures old(Valid()) ==> Valid()
      ensures old(Usable()) ==> Usable()
      ensures forall db, s, t {:trigger Parity(db, s), Parity(db, t)} ::
        curQryBlk == Parity(db, s) && reply == Parity(db, t) ==> parities[curQrySetno] == Parity(db, SymDiff(t, s))
    {
      parities := parities[curQrySetno := Xor(reply, curQryBlk)];
      forall db: seq<Block>, s: set<nat>, t: set<nat> | curQryBlk == Parity(db, s) && reply == Parity(db, t)
        ensures parities[curQrySetno] == Parity(db, SymDiff(t, s))
      {
        ParitySymDiff(db, t, s);
      }
    }
  }

  /** The set takes the first set that the search accepts, or set 0 if there is none. */
  ghost predicate TakesFirst(f: Family, c: ClientState, idx: nat, setno: nat)
    requires c.Listed() && setno < c.nbrsets
  {
    if exists s :: 0 <= s < c.nbrsets && Accepts(f, c.mk, c.sets[s], idx) then
      Accepts(f, c.mk, c.sets[setno], idx) && forall s | 0 <= s < setno :: !Accepts(f, c.mk, c.sets[s], idx)
    else setno == 0
  }

  lemma {:induction false} FirstAcceptingNone(f: Family, c: ClientState, idx: nat, from: nat, s: nat)
    requires c.Listed() && from <= s < c.nbrsets
    requires FirstAccepting(f, c, idx, from) == -1 || FirstAccepting(f, c, idx, from) > s
    ensures !Accepts(f, c.mk, c.sets[s], idx)
    decreases s - from
  {
    if from < s {
      FirstAcceptingNone(f, c, idx, from + 1, s);
    }
  }

  lemma FirstIsTaken(f: Family, c: ClientState, c': ClientState, idx: nat, setno: nat)
    requires c.Listed() && setno == Chosen(f, c, idx) && c' == c.(setno := setno)
    ensures TakesFirst(f, c', idx, setno)
  {
    var first := FirstAccepting(f, c, idx, 0);
    forall s: nat | s < c.nbrsets && (first == -1 || s < first) ensures !Accepts(f, c.mk, c.sets[s], idx) {
      FirstAcceptingNone(f, c, idx, 0, s);
    }
  }

  /** The element of a fresh set at the place that was drawn for the index. */
  lemma FreshSetElement(f: Family, c: ClientState, idx: nat, newKey: Key, r: nat)
    requires f.Valid() && c.Sized()
    ensures var d, y := FreshSet(f, c, idx, newKey, r), f.walk(r % c.setsize, c.dbrange, newKey);
      && d.sk == newKey && y < c.dbrange
      && (idx < c.dbrange ==> Index(f, c.mk, d, 0, r % c.setsize) == idx)
      && (idx + c.dbrange < UINT32_SIZE ==> (y + d.shift) % c.dbrange == idx % c.dbrange)
  {
    assert f.At(r % c.setsize, c.dbrange, newKey);
    if idx + c.dbrange < UINT32_SIZE {
      FreshElement(f, c, idx, newKey, r);
    }
    if idx < c.dbrange {
      FreshElementIs(f, c, idx, newKey, r);
    }
  }

  lemma FreshSetUsable(f: Family, c: ClientState, setno: nat, d: SetDesc)
    requires c.Usable() && setno < c.nbrsets && WellFormed(d, c.dbrange, c.setsize)
    ensures c.(sets := c.sets[setno := d]).Usable()
    ensures c.Valid() ==> c.(sets := c.sets[setno := d]).Valid()
  {
  }

  lemma AfterAddSets(c: ClientState, dr: Draws, nbrAdd: nat, newSets: seq<SetDesc>)
    requires c.Valid() && |newSets| == c.nbrsets
    requires forall t | 0 <= t < c.nbrsets :: newSets[t] == NewSet(c, dr, nbrAdd, t)
    ensures AfterAddQuery(c, dr, nbrAdd) == c.(dbrange := c.dbrange + nbrAdd, sets := newSets)
  {
  }

  lemma AllBatched(c: ClientState, dr: Draws, nbrAdd: nat, newSets: seq<SetDesc>)
    requires c.Valid() && |newSets| == c.nbrsets
    requires forall t | 0 <= t < c.nbrsets :: newSets[t] == NewSet(c, dr, nbrAdd, t)
    ensures forall s | 0 <= s < c.nbrsets :: Batched(c.sets[s], newSets[s], dr, c.setsize, nbrAdd, s)
  {
    forall s | 0 <= s < c.nbrsets ensures Batched(c.sets[s], newSets[s], dr, c.setsize, nbrAdd, s) {
      NewSetBatched(c, dr, nbrAdd, s);
    }
  }

  // ---- Sampling

  /** The first components of a list of tuples. */
  function Firsts(v: seq<(nat, nat)>): set<nat> {
    if v == [] then {} else Firsts(v[..|v| - 1]) + {v[|v| - 1].0}
  }

  /** The tuples name each of these positions once. */
  ghost predicate Names(v: seq<(nat, nat)>, positions: set<nat>) {
    Firsts(v) == positions && |v| == |positions|
  }

  lemma {:induction false} FirstsHas(v: seq<(nat, nat)>, r: nat)
    ensures r in Firsts(v) <==> exists i :: 0 <= i < |v| && v[i].0 == r
  {
    if v != [] {
      var n := |v| - 1;
      FirstsHas(v[..n], r);
      assert forall i | 0 <= i < n :: v[..n][i] == v[i];
      if exists i :: 0 <= i < n && v[i].0 == r {
        var i :| 0 <= i < n && v[i].0 == r;
        assert v[..n][i].0 == r;
      }
    }
  }

  lemma {:induction false} FirstsReplace(v: seq<(nat, nat)>, k: nat, x: nat)
    requires k < |v|
    ensures Firsts(v[k := (v[k].0, x)]) == Firsts(v)
  {
    var n, u := |v| - 1, v[k := (v[k].0, x)];
    if k == n {
      assert u[..n] == v[..n];
    } else {
      FirstsReplace(v[..n], k, x);
      assert u[..n] == v[..n][k := (v[k].0, x)];
    }
  }

  /** One accepted sample: a known position gets the newer index, a new one is appended. */
  method Sample(v: seq<(nat, nat)>, r: nat, curIdx: nat, ghost positions: set<nat>) returns (u: seq<(nat, nat)>)
    requires Names(v, positions)
    ensures Names(u, positions + {r})
  {
    var flag := IsInTuple(r, v);
    FirstsHas(v, r);
    if flag != -1 {
      u := v[flag := (v[flag].0, curIdx)];
      FirstsReplace(v, flag, curIdx);
      assert positions + {r} == positions;
    } else {
      u := v + [(r, curIdx)];
      assert u[..|v|] == v;
    }
  }

  /** The slot that a draw falls into, found in the list of cumulated counts. */
  method SlotDrawn(ghost aux: seq<Slot>, cntr: seq<nat>, fall: nat) returns (slot: nat)
    requires 0 < |aux| == |cntr| && fall < Total(aux, |aux|)
    requires forall i | 0 <= i < |aux| :: cntr[i] == Total(aux, i + 1)
    ensures slot == SlotOf(aux, |aux|, fall)
  {
    slot := 0;
    var found := fall < cntr[0];
    if found {
      SlotOfUnique(aux, fall, 0);
    }
    var cnt := 0;
    while cnt < |cntr| - 1 && !found
      invariant cnt < |cntr|
      invariant found ==> slot == SlotOf(aux, |aux|, fall)
      invariant !found ==> fall >= cntr[cnt]
      decreases |cntr| - cnt
    {
      if fall >= cntr[cnt] && fall < cntr[cnt + 1] {
        slot := cnt + 1;
        found := true;
        SlotOfUnique(aux, fall, slot);
      }
      cnt := cnt + 1;
    }
  }

  /** All draws of one set, against the counts as they were before the first draw. */
  method KickOut(aux: seq<Slot>, falls: seq<nat>) returns (r: seq<Slot>)
    requires 0 < |aux| && DrawsInRange(aux, falls) && |falls| < UINT32_SIZE
    requires forall i | 0 <= i < |aux| :: aux[i].count < UINT32_SIZE
    ensures r == Kicked(aux, falls)
  {
    var cntr := Cumulated(aux);
    r := aux;
    KickedNone(aux);
    for i := 0 to |falls|
      invariant r == Kicked(aux, falls[..i])
    {
      var slot := SlotDrawn(aux, cntr, falls[i]);
      KickedStep(aux, falls, i);
      r := r[slot := Slot(r[slot].range, Dec32(r[slot].count))];
    }
    assert falls[..|falls|] == falls;
  }

  method Cumulated(aux: seq<Slot>) returns (cntr: seq<nat>)
    ensures |cntr| == |aux| && forall i | 0 <= i < |aux| :: cntr[i] == Total(aux, i + 1)
  {
    cntr := [];
    var lsum := 0;
    for i := 0 to |aux|
      invariant |cntr| == i && lsum == Total(aux, i)
      invariant forall j | 0 <= j < i :: cntr[j] == Total(aux, j + 1)
    {
      lsum := lsum + aux[i].count;
      cntr := cntr + [lsum];
    }
  }

  lemma FreshIndex(f: Family, mk: Key, d: SetDesc, i: nat)
    requires f.Valid() && Fits(d) && |d.aux| == 1 && i < d.aux[0].range
    ensures f.walk(i, d.aux[0].range, d.sk) < d.aux[0].range
    ensures Index(f, mk, d, 0, i) == (f.walk(i, d.aux[0].range, d.sk) + d.shift) % d.aux[0].range
  {
    assert f.At(i, d.aux[0].range, d.sk);
    ModSmall(f.walk(i, d.aux[0].range, d.sk) + d.shift, d.aux[0].range);
  }

  lemma FreshExpansion(f: Family, mk: Key, d: SetDesc)
    requires f.Valid() && Fits(d) && |d.aux| == 1
    ensures Expansion(f, mk, d) == SlotSet(f, mk, d, 0, 0, d.aux[0].count)
  {
    assert ExpandTo(f, mk, d, 0) == {};
    assert ExpandTo(f, mk, d, 1) == ExpandTo(f, mk, d, 0) + SlotSet(f, mk, d, 0, 0, d.aux[0].count);
  }
}
