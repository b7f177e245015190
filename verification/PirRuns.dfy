/** What holds over every run of the incremental scheme: the hint of a set is the
    parity of its expansion up to an error term that only refreshes change. */
module PirRuns {
  import opened Blocks
  import opened Keys
  import opened PirBatch
  import opened PirDiff
  import opened PirSearch
  import opened PirSets
  import opened PirState
  import opened PrpFamily

  /** A query with its recovery, a query followed by a refresh for the same index,
      or a batch of additions; each is finished before the next one starts. */
  datatype Event =
    | Query(idx: nat, rm: Removal)
    | Round(idx: nat, rm: Removal, newKey: Key, r: nat, rm2: Removal)
    | Add(blocks: seq<Block>, draws: Draws)

  ghost predicate Enabled(f: Family, w: World, e: Event)
    requires w.Valid()
  {
    match e
    case Query(idx, _) => idx < w.client.dbrange
    case Round(idx, _, _, _, _) => idx < w.client.dbrange
    case Add(blocks, draws) =>
      w.client.dbrange + |blocks| < MAX_RANGE && AdmissibleDraws(w.client, draws, |blocks|)
  }

  ghost function AfterRound(f: Family, w: World, idx: nat, rm: Removal, newKey: Key, r: nat, rm2: Removal): World
    requires f.Valid() && w.Valid() && idx < w.client.dbrange
  {
    AfterRefresh(f, AfterQuery(f, w, idx, rm), idx, newKey, r, rm2)
  }

  ghost function Step(f: Family, w: World, e: Event): (w': World)
    requires f.Valid() && w.Valid() && Enabled(f, w, e)
    ensures w'.Valid() && w'.client.nbrsets == w.client.nbrsets
  {
    match e
    case Query(idx, rm) => AfterQuery(f, w, idx, rm)
    case Round(idx, rm, newKey, r, rm2) =>
      var w1 := AfterQuery(f, w, idx, rm);
      FreshSetContains(f, w1.client, idx, newKey, r);
      AfterRound(f, w, idx, rm, newKey, r, rm2)
    case Add(blocks, draws) =>
      AddQueryValidIff(w.client, draws, |blocks|);
      AfterAdd(f, w, blocks, draws)
  }

  // ---- The error term

  /** The difference between the hint of set s and the parity of its expansion. */
  ghost function Err(f: Family, w: World, s: nat): Block
    requires f.Valid() && w.Valid() && s < w.client.nbrsets
  {
    Xor(w.client.parities[s], Parity(w.db, SetOf(f, w.client, s)))
  }

  /** The refreshed set, as a set of indices. */
  ghost function RefreshedSet(f: Family, w: World, idx: nat, newKey: Key, r: nat): (s: set<nat>)
    requires f.Valid() && w.Valid() && idx < w.client.dbrange
    ensures Within(s, w.client.dbrange) && idx in s && s - {idx} != {}
  {
    var d := FreshSet(f, w.client, idx, newKey, r);
    FreshSetContains(f, w.client, idx, newKey, r);
    ExpansionSize(f, w.client.mk, d, w.client.dbrange, w.client.setsize);
    TwoElements(Expansion(f, w.client.mk, d), idx);
    Expansion(f, w.client.mk, d)
  }

  /** The change of the error term of set s in one event: in a round, the parity of
      what the query omitted and of what the refresh omitted. */
  ghost function Drift(f: Family, w: World, e: Event, s: nat): Block
    requires f.Valid() && w.Valid() && Enabled(f, w, e) && s < w.client.nbrsets
  {
    match e
    case Query(_, _) => ZERO
    case Add(_, _) => ZERO
    case Round(idx, rm, newKey, r, rm2) =>
      if s != Chosen(f, w.client, idx) then ZERO
      else Xor(
        Parity(w.db, Omitted(SetOf(f, w.client, s), w.client.dbrange, rm, idx)),
        Parity(w.db, Omitted(RefreshedSet(f, w, idx, newKey, r), w.client.dbrange, rm2, idx)))
  }

  /** A query answers with the parity of what it omitted, up to the error term. */
  lemma QueryAnswer(f: Family, w: World, idx: nat, rm: Removal)
    requires f.Valid() && w.Valid()
    ensures var s := Chosen(f, w.client, idx);
      AfterQuery(f, w, idx, rm).client.blk ==
      Xor(Err(f, w, s), Parity(w.db, Omitted(SetOf(f, w.client, s), w.client.dbrange, rm, idx)))
  {
    var s := Chosen(f, w.client, idx);
    var t := SetOf(f, w.client, s);
    ReplyParity(w.db, t, rm, idx);
    var hint, ps, po := w.client.parities[s], Parity(w.db, t), Parity(w.db, Omitted(t, |w.db|, rm, idx));
    XorComm(Xor(ps, po), hint);
    XorAssoc(hint, ps, po);
  }

  lemma RefreshErr(f: Family, w: World, idx: nat, newKey: Key, r: nat, rm: Removal)
    requires f.Valid() && w.Valid() && idx < w.client.dbrange && 0 <= w.client.setno < w.client.nbrsets
    ensures var w' := AfterRefresh(f, w, idx, newKey, r, rm);
      && w'.Valid()
      && Err(f, w', w.client.setno) == Xor(w.client.blk,
        Parity(w.db, Omitted(RefreshedSet(f, w, idx, newKey, r), w.client.dbrange, rm, idx)))
  {
    FreshSetContains(f, w.client, idx, newKey, r);
    var w' := AfterRefresh(f, w, idx, newKey, r, rm);
    var t := RefreshedSet(f, w, idx, newKey, r);
    assert SetOf(f, w'.client, w.client.setno) == t;
    ReplyParity(w.db, t, rm, idx);
    var blk, ps, po := w.client.blk, Parity(w.db, t), Parity(w.db, Omitted(t, |w.db|, rm, idx));
    RefreshAlgebra(ps, po, blk);
  }

  lemma RefreshAlgebra(ps: Block, po: Block, blk: Block)
    ensures Xor(Xor(Xor(ps, po), blk), ps) == Xor(blk, po)
  {
    XorSwap(Xor(ps, po), blk, ps);
    XorComm(ps, po);
    XorCancels(po, ps);
    XorComm(po, blk);
  }

  lemma RefreshOthers(f: Family, w: World, idx: nat, newKey: Key, r: nat, rm: Removal, s: nat)
    requires f.Valid() && w.Valid() && idx < w.client.dbrange && 0 <= w.client.setno < w.client.nbrsets
    requires s < w.client.nbrsets && s != w.client.setno
    ensures var w' := AfterRefresh(f, w, idx, newKey, r, rm);
      w'.Valid() && Err(f, w', s) == Err(f, w, s)
  {
    FreshSetContains(f, w.client, idx, newKey, r);
  }

  lemma QueryKeepsErr(f: Family, w: World, idx: nat, rm: Removal, s: nat)
    requires f.Valid() && w.Valid() && s < w.client.nbrsets
    ensures var w' := AfterQuery(f, w, idx, rm);
      w'.Valid() && w'.client.nbrsets == w.client.nbrsets && Err(f, w', s) == Err(f, w, s)
  {
  }

  /** A round changes the error term of the chosen set by its drift, and no other. */
  lemma RoundErr(f: Family, w: World, idx: nat, rm: Removal, newKey: Key, r: nat, rm2: Removal, s: nat)
    requires f.Valid() && w.Valid() && idx < w.client.dbrange && s < w.client.nbrsets
    ensures var w' := AfterRound(f, w, idx, rm, newKey, r, rm2);
      w'.Valid() && Err(f, w', s) == Xor(Err(f, w, s), Drift(f, w, Round(idx, rm, newKey, r, rm2), s))
  {
    if s == Chosen(f, w.client, idx) {
      RoundErrChosen(f, w, idx, rm, newKey, r, rm2);
    } else {
      QueryKeepsErr(f, w, idx, rm, s);
      RefreshOthers(f, AfterQuery(f, w, idx, rm), idx, newKey, r, rm2, s);
      XorZero(Err(f, w, s));
    }
  }

  lemma RoundErrChosen(f: Family, w: World, idx: nat, rm: Removal, newKey: Key, r: nat, rm2: Removal)
    requires f.Valid() && w.Valid() && idx < w.client.dbrange
    ensures var w', s := AfterRound(f, w, idx, rm, newKey, r, rm2), Chosen(f, w.client, idx);
      w'.Valid() && Err(f, w', s) == Xor(Err(f, w, s), Drift(f, w, Round(idx, rm, newKey, r, rm2), s))
  {
    var s := Chosen(f, w.client, idx);
    var o1 := Parity(w.db, Omitted(SetOf(f, w.client, s), w.client.dbrange, rm, idx));
    var o2 := Parity(w.db, Omitted(RefreshedSet(f, w, idx, newKey, r), w.client.dbrange, rm2, idx));
    QueryAnswer(f, w, idx, rm);
    RefreshErr(f, AfterQuery(f, w, idx, rm), idx, newKey, r, rm2);
    XorAssoc(Err(f, w, s), o1, o2);
  }

  /** A batch of additions leaves every error term as it was. */
  lemma AddErr(f: Family, w: World, blocks: seq<Block>, draws: Draws, s: nat)
    requires f.Valid() && w.Valid() && Enabled(f, w, Add(blocks, draws)) && s < w.client.nbrsets
    ensures Err(f, Step(f, w, Add(blocks, draws)), s) == Err(f, w, s)
  {
    var c, db := w.client, w.db + blocks;
    var w' := Step(f, w, Add(blocks, draws));
    assert AdmissibleFor(c, draws, |blocks|, s);
    AddReplyIsDifference(f, c, draws, db, |blocks|, s);
    var d := NewSet(c, draws, |blocks|, s);
    assert w'.client.sets[s] == d;
    var before, after := SetOf(f, c, s), Expansion(f, c.mk, d);
    DifferenceUpdatesParity(f, c.mk, c.sets[s], d, db);
    ParityGrow(w.db, blocks, before);
    var delta := AddReply(f, c, draws, db, |blocks|, s);
    AddAlgebra(c.parities[s], delta, Parity(db, before));
  }

  lemma AddAlgebra(hint: Block, delta: Block, p: Block)
    ensures Xor(Xor(hint, delta), Xor(p, delta)) == Xor(hint, p)
  {
    XorComm(p, delta);
    XorAssoc(Xor(hint, delta), delta, p);
    XorCancels(hint, delta);
  }

  lemma StepErr(f: Family, w: World, e: Event, s: nat)
    requires f.Valid() && w.Valid() && Enabled(f, w, e) && s < w.client.nbrsets
    ensures Err(f, Step(f, w, e), s) == Xor(Err(f, w, s), Drift(f, w, e, s))
  {
    match e
    case Query(idx, rm) => XorZero(Err(f, w, s));
    case Round(idx, rm, newKey, r, rm2) => RoundErr(f, w, idx, rm, newKey, r, rm2, s);
    case Add(blocks, draws) =>
      AddErr(f, w, blocks, draws, s);
      XorZero(Err(f, w, s));
  }

  /** When the chosen set contains the index, the drift of a round is the
      exclusive or of the two blocks that were dropped. */
  lemma MemberDrift(f: Family, w: World, idx: nat, rm: Removal, newKey: Key, r: nat, rm2: Removal)
    requires f.Valid() && w.Valid() && idx < w.client.dbrange
    requires idx in SetOf(f, w.client, Chosen(f, w.client, idx))
    ensures var s, n := Chosen(f, w.client, idx), w.client.dbrange;
      var d1 := Dropped(SetOf(f, w.client, s), n, rm, idx);
      var d2 := Dropped(RefreshedSet(f, w, idx, newKey, r), n, rm2, idx);
      && d1 < n && d2 < n
      && Drift(f, w, Round(idx, rm, newKey, r, rm2), s) == Xor(w.db[d1], w.db[d2])
  {
    var s, n := Chosen(f, w.client, idx), w.client.dbrange;
    OmittedMember(SetOf(f, w.client, s), n, rm, idx);
    OmittedMember(RefreshedSet(f, w, idx, newKey, r), n, rm2, idx);
    ParitySingle(w.db, Dropped(SetOf(f, w.client, s), n, rm, idx));
    ParitySingle(w.db, Dropped(RefreshedSet(f, w, idx, newKey, r), n, rm2, idx));
  }

  // ---- Runs

  ghost predicate Runnable(f: Family, w: World, es: seq<Event>)
    requires f.Valid() && w.Valid()
    decreases es
  {
    es == [] || (Enabled(f, w, es[0]) && Runnable(f, Step(f, w, es[0]), es[1..]))
  }

  ghost function Run(f: Family, w: World, es: seq<Event>): (w': World)
    requires f.Valid() && w.Valid() && Runnable(f, w, es)
    ensures w'.Valid() && w'.client.nbrsets == w.client.nbrsets
    decreases es
  {
    if es == [] then w else Run(f, Step(f, w, es[0]), es[1..])
  }

  /** The drifts of set s added up over a run. */
  ghost function RunDrift(f: Family, w: World, es: seq<Event>, s: nat): Block
    requires f.Valid() && w.Valid() && Runnable(f, w, es) && s < w.client.nbrsets
    decreases es
  {
    if es == [] then ZERO
    else Xor(Drift(f, w, es[0], s), RunDrift(f, Step(f, w, es[0]), es[1..], s))
  }

  /** The run invariant: after every run, the hint of every set is the parity of the
      database over its expansion, up to the initial error and the drifts. */
  lemma {:induction false} RunInvariant(f: Family, w: World, es: seq<Event>, s: nat)
    requires f.Valid() && w.Valid() && Runnable(f, w, es) && s < w.client.nbrsets
    ensures var w' := Run(f, w, es);
      w'.client.parities[s] ==
      Xor(Parity(w'.db, SetOf(f, w'.client, s)), Xor(Err(f, w, s), RunDrift(f, w, es, s)))
    decreases es
  {
    if es == [] {
      XorZero(Err(f, w, s));
      XorComm(w.client.parities[s], Parity(w.db, SetOf(f, w.client, s)));
      XorCancels(w.client.parities[s], Parity(w.db, SetOf(f, w.client, s)));
    } else {
      var w1 := Step(f, w, es[0]);
      StepErr(f, w, es[0], s);
      RunInvariant(f, w1, es[1..], s);
      XorAssoc(Err(f, w, s), Drift(f, w, es[0], s), RunDrift(f, w1, es[1..], s));
    }
  }

  // ---- Preparation

  /** The client after preparation: fresh sets, each with the parity that the server
      computed for it. */
  ghost predicate Prepared(f: Family, w: World)
    requires f.Valid()
  {
    && w.Valid()
    && forall s | 0 <= s < w.client.nbrsets ::
      w.client.parities[s] == Parity(w.db, SetOf(f, w.client, s))
  }

  /** That client and its database, when the reply has been taken up. */
  ghost function Start(f: Family, db: seq<Block>, setsize: nat, nbrsets: nat, mk: Key,
      keys: nat -> Key, shifts: nat -> nat, setno: int): (w: World)
    requires f.Valid() && setsize <= |db| && (nbrsets > 0 ==> |db| > 0)
    ensures 2 <= setsize && |db| < MAX_RANGE && 1 <= nbrsets ==> Prepared(f, w)
  {
    var c := NewClient(|db|, setsize, nbrsets, mk, keys, shifts, setno);
    if 2 <= setsize && |db| < MAX_RANGE && 1 <= nbrsets then
      NewClientValid(|db|, setsize, nbrsets, mk, keys, shifts, setno);
      World(c.(parities := seq(nbrsets, s requires 0 <= s < nbrsets => Parity(db, Expansion(f, mk, c.sets[s])))), db)
    else
      World(c.(parities := seq(nbrsets, s requires 0 <= s < nbrsets => Parity(db, Expansion(f, mk, c.sets[s])))), db)
  }

  // ---- Runs in which nothing is lost

  /** The search found a set with the key of its expansion, and the coins dropped
      the queried index. */
  ghost predicate CleanQuery(f: Family, w: World, idx: nat, rm: Removal)
    requires f.Valid() && w.Valid()
  {
    && FirstAccepting(f, w.client, idx, 0) >= 0
    && SearchUsesSetKey(w.client.sets[Chosen(f, w.client, idx)], idx)
    && !rm.keep
  }

  ghost predicate Clean(f: Family, w: World, e: Event)
    requires f.Valid() && w.Valid()
  {
    match e
    case Query(_, _) => true
    case Round(idx, rm, _, _, rm2) => CleanQuery(f, w, idx, rm) && !rm2.keep
    case Add(_, _) => true
  }

  ghost predicate CleanRun(f: Family, w: World, es: seq<Event>)
    requires f.Valid() && w.Valid() && Runnable(f, w, es)
    decreases es
  {
    es == [] || (Clean(f, w, es[0]) && CleanRun(f, Step(f, w, es[0]), es[1..]))
  }

  lemma FoundMember(f: Family, w: World, idx: nat)
    requires f.Valid() && w.Valid() && FirstAccepting(f, w.client, idx, 0) >= 0
    requires SearchUsesSetKey(w.client.sets[Chosen(f, w.client, idx)], idx)
    ensures idx in SetOf(f, w.client, Chosen(f, w.client, idx))
  {
    SearchExact(f, w.client.mk, w.client.sets[Chosen(f, w.client, idx)], idx);
  }

  lemma CleanDrift(f: Family, w: World, e: Event, s: nat)
    requires f.Valid() && w.Valid() && Enabled(f, w, e) && Clean(f, w, e) && s < w.client.nbrsets
    ensures Drift(f, w, e, s) == ZERO
  {
    match e
    case Query(_, _) =>
    case Add(_, _) =>
    case Round(idx, rm, newKey, r, rm2) =>
      if s == Chosen(f, w.client, idx) {
        FoundMember(f, w, idx);
        MemberDrift(f, w, idx, rm, newKey, r, rm2);
        XorSelf(w.db[idx]);
      }
  }

  lemma {:induction false} CleanRunDrift(f: Family, w: World, es: seq<Event>, s: nat)
    requires f.Valid() && w.Valid() && Runnable(f, w, es) && CleanRun(f, w, es) && s < w.client.nbrsets
    ensures RunDrift(f, w, es, s) == ZERO
    decreases es
  {
    if es != [] {
      CleanDrift(f, w, es[0], s);
      CleanRunDrift(f, Step(f, w, es[0]), es[1..], s);
      XorZero(ZERO);
    }
  }

  /** With error term zero, a query that found its index in the chosen set answers
      with the block that it dropped, which is the wanted one when the coin dropped
      the wanted index. */
  lemma MemberAnswer(f: Family, w: World, idx: nat, rm: Removal)
    requires f.Valid() && w.Valid() && idx < w.client.dbrange
    requires idx in SetOf(f, w.client, Chosen(f, w.client, idx))
    requires Err(f, w, Chosen(f, w.client, idx)) == ZERO
    ensures var d := Dropped(SetOf(f, w.client, Chosen(f, w.client, idx)), w.client.dbrange, rm, idx);
      d < w.client.dbrange && AfterQuery(f, w, idx, rm).client.blk == w.db[d]
    ensures !rm.keep ==> AfterQuery(f, w, idx, rm).client.blk == w.db[idx]
  {
    var s := Chosen(f, w.client, idx);
    QueryAnswer(f, w, idx, rm);
    OmittedMember(SetOf(f, w.client, s), w.client.dbrange, rm, idx);
    var d := Dropped(SetOf(f, w.client, s), w.client.dbrange, rm, idx);
    ParitySingle(w.db, d);
    XorZero(w.db[d]);
  }

  /** After preparation and any run of clean rounds, queries and additions, a clean
      query returns exactly the wanted block of the database as it is then. */
  lemma CleanRunAnswers(f: Family, w: World, es: seq<Event>, idx: nat, rm: Removal)
    requires f.Valid() && Prepared(f, w) && Runnable(f, w, es) && CleanRun(f, w, es)
    requires var w' := Run(f, w, es); idx < w'.client.dbrange && CleanQuery(f, w', idx, rm)
    ensures var w' := Run(f, w, es); AfterQuery(f, w', idx, rm).client.blk == w'.db[idx]
  {
    var w' := Run(f, w, es);
    var s := Chosen(f, w'.client, idx);
    XorSelf(w.client.parities[s]);
    assert Err(f, w, s) == ZERO;
    CleanRunDrift(f, w, es, s);
    RunInvariant(f, w, es, s);
    XorZero(ZERO);
    XorZero(Parity(w'.db, SetOf(f, w'.client, s)));
    XorSelf(w'.client.parities[s]);
    FoundMember(f, w', idx);
    MemberAnswer(f, w', idx, rm);
  }

  /** The search does not miss a set that it would accept. */
  lemma {:induction false} FirstAcceptingFinds(f: Family, c: ClientState, idx: nat, from: nat, s: nat)
    requires c.Valid() && from <= s < c.nbrsets && Accepts(f, c.mk, c.sets[s], idx)
    ensures from <= FirstAccepting(f, c, idx, from) <= s
    decreases s - from
  {
    if !Accepts(f, c.mk, c.sets[from], idx) {
      FirstAcceptingFinds(f, c, idx, from + 1, s);
    }
  }

  /** After a round a query for the same index is always found again, unless the
      new shift is zero. */
  lemma RefreshedIsFound(f: Family, w: World, idx: nat, rm: Removal, newKey: Key, r: nat, rm2: Removal)
    requires f.Valid() && w.Valid() && idx < w.client.dbrange
    requires FreshSet(f, w.client, idx, newKey, r).shift != 0
    ensures var w' := AfterRound(f, w, idx, rm, newKey, r, rm2);
      w'.client.Valid() && 0 <= FirstAccepting(f, w'.client, idx, 0) <= Chosen(f, w.client, idx)
  {
    var w', s := AfterRound(f, w, idx, rm, newKey, r, rm2), Chosen(f, w.client, idx);
    RoundErr(f, w, idx, rm, newKey, r, rm2, s);
    FreshSetContains(f, w.client, idx, newKey, r);
    var d := FreshSet(f, w.client, idx, newKey, r);
    assert w'.client.sets[s] == d;
    SearchExact(f, w.client.mk, d, idx);
    FirstAcceptingFinds(f, w'.client, idx, 0, s);
  }

  /** Earlier blocks are never changed, and the database grows by the added blocks. */
  lemma {:induction false} RunKeepsBlocks(f: Family, w: World, es: seq<Event>)
    requires f.Valid() && w.Valid() && Runnable(f, w, es)
    ensures w.db <= Run(f, w, es).db
    decreases es
  {
    if es != [] {
      RunKeepsBlocks(f, Step(f, w, es[0]), es[1..]);
    }
  }

  /** Both kinds of query send exactly setsize - 1 indices, all in the database,
      whenever the set contains the index. */
  lemma QuerySize(f: Family, w: World, idx: nat, rm: Removal, newKey: Key, r: nat)
    requires f.Valid() && w.Valid() && idx < w.client.dbrange
    ensures var s := SetOf(f, w.client, Chosen(f, w.client, idx));
      idx in s ==> |AfterRemoval(s, w.client.dbrange, rm, idx)| == w.client.setsize - 1
    ensures var s := RefreshedSet(f, w, idx, newKey, r);
      |AfterRemoval(s, w.client.dbrange, rm, idx)| == w.client.setsize - 1
  {
    var s, t := SetOf(f, w.client, Chosen(f, w.client, idx)), RefreshedSet(f, w, idx, newKey, r);
    if idx in s {
      OmittedMember(s, w.client.dbrange, rm, idx);
    }
    OmittedMember(t, w.client.dbrange, rm, idx);
    FreshSetContains(f, w.client, idx, newKey, r);
    ExpansionSize(f, w.client.mk, FreshSet(f, w.client, idx, newKey, r), w.client.dbrange, w.client.setsize);
  }
}
