/** What the coins of the probabilistic removal decide. One client is held fixed,
    apart from its hints, and the database and the hints range over everything:
    which coins answer correctly, and keep the hints exact, on all of them? */
module PirCoin {
  import opened Blocks
  import opened Keys
  import opened PirRuns
  import opened PirSearch
  import opened PirState
  import opened PrpFamily

  /** A world with this client, whatever its database and hints are. */
  ghost predicate Around(w: World, c: ClientState) {
    w.Valid() && w.client == c.(parities := w.client.parities)
  }

  lemma {:induction false} SameSearch(f: Family, w: World, c: ClientState, idx: nat, s: nat)
    requires c.Valid() && Around(w, c) && s <= c.nbrsets
    ensures FirstAccepting(f, w.client, idx, s) == FirstAccepting(f, c, idx, s)
    decreases c.nbrsets - s
  {
    if s < c.nbrsets && !Accepts(f, c.mk, c.sets[s], idx) {
      SameSearch(f, w, c, idx, s + 1);
    }
  }

  lemma SameSets(f: Family, w: World, c: ClientState, idx: nat)
    requires f.Valid() && c.Valid() && Around(w, c)
    ensures Chosen(f, w.client, idx) == Chosen(f, c, idx)
    ensures forall s | 0 <= s < c.nbrsets :: SetOf(f, w.client, s) == SetOf(f, c, s)
  {
    SameSearch(f, w, c, idx, 0);
  }

  // ---- A database with a single one

  function SingleOne(n: nat, i: nat): (db: seq<Block>)
    ensures |db| == n && forall k | 0 <= k < n :: db[k] == if k == i then {0} else ZERO
  {
    seq(n, k => if k == i then {0} else ZERO)
  }

  /** The client with exact hints over that database. */
  ghost function Exact(f: Family, c: ClientState, i: nat): (w: World)
    requires f.Valid() && c.Valid()
    ensures Around(w, c) && w.db == SingleOne(c.dbrange, i)
    ensures forall s | 0 <= s < c.nbrsets :: w.client.parities[s] == Parity(w.db, SetOf(f, c, s))
  {
    var db := SingleOne(c.dbrange, i);
    World(c.(parities := seq(c.nbrsets, s requires 0 <= s < c.nbrsets => Parity(db, SetOf(f, c, s)))), db)
  }

  lemma ExactErr(f: Family, c: ClientState, i: nat, s: nat)
    requires f.Valid() && c.Valid() && s < c.nbrsets
    ensures Err(f, Exact(f, c, i), s) == ZERO
  {
    SameSets(f, Exact(f, c, i), c, 0);
    XorSelf(Parity(SingleOne(c.dbrange, i), SetOf(f, c, s)));
  }

  // ---- Answers

  /** Recovery returns the wanted block from every database, with an exact hint. */
  ghost predicate AlwaysRight(f: Family, c: ClientState, idx: nat, rm: Removal)
    requires f.Valid() && c.Valid() && idx < c.dbrange
  {
    forall w: World | Around(w, c) && Err(f, w, Chosen(f, c, idx)) == ZERO ::
      AfterQuery(f, w, idx, rm).client.blk == w.db[idx]
  }

  /** A query that found its index is answered correctly, over all databases,
      exactly when the coin drops the index. */
  lemma AlwaysRightIff(f: Family, c: ClientState, idx: nat, rm: Removal)
    requires f.Valid() && c.Valid() && idx < c.dbrange
    requires idx in SetOf(f, c, Chosen(f, c, idx))
    ensures AlwaysRight(f, c, idx, rm) <==> !rm.keep
  {
    if rm.keep {
      var w := Exact(f, c, idx);
      ExactErr(f, c, idx, Chosen(f, c, idx));
      SameSets(f, w, c, idx);
      MemberAnswer(f, w, idx, rm);
      assert AfterQuery(f, w, idx, rm).client.blk != w.db[idx];
    } else {
      forall w: World | Around(w, c) && Err(f, w, Chosen(f, c, idx)) == ZERO
        ensures AfterQuery(f, w, idx, rm).client.blk == w.db[idx]
      {
        SameSets(f, w, c, idx);
        MemberAnswer(f, w, idx, rm);
      }
    }
  }

  // ---- Hints

  /** What the query of a round leaves out. */
  ghost function QueryDrops(f: Family, w: World, idx: nat, rm: Removal): nat
    requires f.Valid() && w.Valid() && idx < w.client.dbrange
  {
    Dropped(SetOf(f, w.client, Chosen(f, w.client, idx)), w.client.dbrange, rm, idx)
  }

  /** What its refresh leaves out. */
  ghost function RefreshDrops(f: Family, w: World, idx: nat, newKey: Key, r: nat, rm2: Removal): nat
    requires f.Valid() && w.Valid() && idx < w.client.dbrange
  {
    Dropped(RefreshedSet(f, w, idx, newKey, r), w.client.dbrange, rm2, idx)
  }

  /** The round keeps the hint of the queried set exact over every database. */
  ghost predicate NeverDrifts(f: Family, c: ClientState, idx: nat, rm: Removal, newKey: Key, r: nat, rm2: Removal)
    requires f.Valid() && c.Valid() && idx < c.dbrange
  {
    forall w: World | Around(w, c) :: Drift(f, w, Round(idx, rm, newKey, r, rm2), Chosen(f, c, idx)) == ZERO
  }

  lemma SameDrops(f: Family, w: World, v: World, idx: nat, rm: Removal, newKey: Key, r: nat, rm2: Removal)
    requires f.Valid() && w.Valid() && Around(v, w.client) && idx < w.client.dbrange
    ensures QueryDrops(f, v, idx, rm) == QueryDrops(f, w, idx, rm)
    ensures RefreshDrops(f, v, idx, newKey, r, rm2) == RefreshDrops(f, w, idx, newKey, r, rm2)
  {
    SameSets(f, v, w.client, idx);
  }

  lemma DriftOf(f: Family, w: World, v: World, idx: nat, rm: Removal, newKey: Key, r: nat, rm2: Removal)
    requires f.Valid() && w.Valid() && Around(v, w.client) && idx < w.client.dbrange
    requires idx in SetOf(f, w.client, Chosen(f, w.client, idx))
    ensures var d1, d2 := QueryDrops(f, w, idx, rm), RefreshDrops(f, w, idx, newKey, r, rm2);
      && d1 < |v.db| && d2 < |v.db|
      && Drift(f, v, Round(idx, rm, newKey, r, rm2), Chosen(f, w.client, idx)) == Xor(v.db[d1], v.db[d2])
  {
    SameSets(f, v, w.client, idx);
    SameDrops(f, w, v, idx, rm, newKey, r, rm2);
    MemberDrift(f, v, idx, rm, newKey, r, rm2);
  }

  /** A round that found its index keeps the hint exact, over all databases, exactly
      when query and refresh drop the same index. */
  lemma NeverDriftsIff(f: Family, w: World, idx: nat, rm: Removal, newKey: Key, r: nat, rm2: Removal)
    requires f.Valid() && w.Valid() && idx < w.client.dbrange
    requires idx in SetOf(f, w.client, Chosen(f, w.client, idx))
    ensures NeverDrifts(f, w.client, idx, rm, newKey, r, rm2) <==>
      QueryDrops(f, w, idx, rm) == RefreshDrops(f, w, idx, newKey, r, rm2)
  {
    var d1, d2 := QueryDrops(f, w, idx, rm), RefreshDrops(f, w, idx, newKey, r, rm2);
    if d1 == d2 {
      forall v: World | Around(v, w.client)
        ensures Drift(f, v, Round(idx, rm, newKey, r, rm2), Chosen(f, w.client, idx)) == ZERO
      {
        DriftOf(f, w, v, idx, rm, newKey, r, rm2);
        XorSelf(v.db[d1]);
      }
    } else {
      var v := Exact(f, w.client, d1);
      DriftOf(f, w, v, idx, rm, newKey, r, rm2);
      assert 0 in Xor(v.db[d1], v.db[d2]);
    }
  }

  /** The coins decide it: two that drop the index agree, two different ones never do. */
  lemma DropsByCoins(f: Family, w: World, idx: nat, rm: Removal, newKey: Key, r: nat, rm2: Removal)
    requires f.Valid() && w.Valid() && idx < w.client.dbrange
    ensures !rm.keep && !rm2.keep ==> QueryDrops(f, w, idx, rm) == RefreshDrops(f, w, idx, newKey, r, rm2) == idx
    ensures rm.keep != rm2.keep ==> QueryDrops(f, w, idx, rm) != RefreshDrops(f, w, idx, newKey, r, rm2)
  {
  }
}
