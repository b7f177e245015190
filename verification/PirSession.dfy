/** Client and server working together, in the order of the source's drivers.
    Each method carries out one event of a run. */
module PirSession {
  import opened Blocks
  import opened Keys
  import opened PirBatch
  import opened PirClient
  import opened PirReply
  import opened PirRuns
  import opened PirServer
  import opened PirState
  import opened PrpFamily

  ghost function WorldOf(client: PIRClient, server: PIRServer): World
    reads client, server
  {
    World(client.State(), server.db)
  }

  /** Client and server agree on the parameters. */
  ghost predicate Linked(client: PIRClient, server: PIRServer)
    reads client, server
  {
    && server.p == client.p
    && server.dbrange == client.dbrange == |server.db|
    && server.setsize == client.setsize
    && server.nbrsets == client.nbrsets
  }

  /** In addition the client is valid. */
  ghost predicate Connected(client: PIRClient, server: PIRServer)
    reads client, server
  {
    client.Valid() && Linked(client, server)
  }

  /** Preparation: every hint becomes the parity of its set. */
  method Prepare(p: Prims, db: seq<Block>, setsize: nat, nbrsets: nat, mk: Key, keys: nat -> Key, shifts: nat -> nat,
      setno: int, ghost f: Family)
    returns (client: PIRClient, server: PIRServer)
    requires f.Realizes(p) && f.Valid()
    requires setsize <= |db| < UINT32_SIZE && (nbrsets > 0 ==> |db| > 0)
    ensures fresh(client) && fresh(server) && Linked(client, server) && client.p == p && client.f == f
    ensures WorldOf(client, server) == Start(f, db, setsize, nbrsets, mk, keys, shifts, setno)
    ensures 2 <= setsize && |db| < MAX_RANGE && 1 <= nbrsets ==>
      Connected(client, server) && Prepared(f, WorldOf(client, server))
  {
    client := new PIRClient(p, |db|, setsize, nbrsets, mk, keys, shifts, setno, f);
    var query := client.GenerateOfflineQuery();
    server := new PIRServer(p, |db|, setsize, nbrsets, db);
    var reply := server.GenerateOfflineReply(query, f);
    ghost var w := Start(f, db, setsize, nbrsets, mk, keys, shifts, setno);
    forall s | 0 <= s < nbrsets ensures Xor(ZERO, reply.value[s]) == w.client.parities[s] {
      OfflineParityIsExpansion(f, mk, db, query[s].sk, query[s].shift, setsize);
      XorZero(reply.value[s]);
    }
    client.UpdateParity(reply.value);
    assert client.parities == w.client.parities;
  }

  /** Query, reply, recovery. */
  method RunQuery(client: PIRClient, server: PIRServer, idx: nat, rm: Removal) returns (blk: Block)
    requires Connected(client, server) && idx < client.dbrange
    modifies client
    ensures Connected(client, server)
    ensures WorldOf(client, server) == AfterQuery(client.f, old(WorldOf(client, server)), idx, rm)
    ensures blk == WorldOf(client, server).client.blk
  {
    ghost var w := WorldOf(client, server);
    ghost var t := SetOf(client.f, w.client, Chosen(client.f, w.client, idx));
    QuerySetIsSet(client.f, w.client, Chosen(client.f, w.client, idx));
    var query := client.GenerateOnlineQuery(idx, rm);
    AfterRemovalWithin(t, client.dbrange, rm, idx);
    var reply := server.GenerateOnlineReply(query.value);
    XorAllAscending(server.db, AfterRemoval(t, client.dbrange, rm, idx), client.dbrange);
    blk := client.QueryRecov(reply);
  }

  /** A query followed by a refresh for the same index. */
  method RunRound(client: PIRClient, server: PIRServer, idx: nat, rm: Removal, newKey: Key, r: nat, rm2: Removal)
    returns (blk: Block)
    requires Connected(client, server) && idx < client.dbrange
    modifies client
    ensures Connected(client, server)
    ensures WorldOf(client, server) == AfterRound(client.f, old(WorldOf(client, server)), idx, rm, newKey, r, rm2)
    ensures blk == AfterQuery(client.f, old(WorldOf(client, server)), idx, rm).client.blk
  {
    blk := RunQuery(client, server, idx, rm);
    RunRefresh(client, server, idx, newKey, r, rm2);
  }

  method RunRefresh(client: PIRClient, server: PIRServer, idx: nat, newKey: Key, r: nat, rm: Removal)
    requires Connected(client, server) && idx < client.dbrange && 0 <= client.curQrySetno < client.nbrsets
    modifies client
    ensures Connected(client, server)
    ensures WorldOf(client, server) == AfterRefresh(client.f, old(WorldOf(client, server)), idx, newKey, r, rm)
  {
    ValidIsUsable(client.State());
    var query := client.GenerateRefreshQuery(idx, newKey, r, rm);
    ghost var t := SetOf(client.f, client.State(), client.curQrySetno);
    AfterRemovalWithin(t, client.dbrange, rm, idx);
    var reply := server.GenerateOnlineReply(query);
    XorAllAscending(server.db, AfterRemoval(t, client.dbrange, rm, idx), client.dbrange);
    client.RefreshRecov(reply);
  }

  /** The replies of the state machine for all sets. */
  ghost predicate AddReplies(f: Family, w: World, blocks: seq<Block>, dr: Draws, reply: seq<Block>)
    requires f.Valid() && w.Valid() && w.client.dbrange + |blocks| < MAX_RANGE
  {
    && |reply| == w.client.nbrsets
    && forall s | 0 <= s < |reply| :: reply[s] == AddReply(f, w.client, dr, w.db + blocks, |blocks|, s)
  }

  /** The differences that the client sends for its sets. */
  ghost predicate AddQueries(w: World, blocks: seq<Block>, dr: Draws, diffsets: seq<DiffSetDesc>)
    requires w.Valid()
  {
    && |diffsets| == w.client.nbrsets
    && forall s | 0 <= s < |diffsets| ::
        diffsets[s].Prev() == w.client.sets[s] && diffsets[s].Curr() == NewSet(w.client, dr, |blocks|, s)
  }

  /** The server can walk every difference that a client sends. */
  lemma AddQueriesWalkable(w: World, blocks: seq<Block>, dr: Draws, diffsets: seq<DiffSetDesc>)
    requires w.Valid() && w.client.dbrange + |blocks| < MAX_RANGE && AddQueries(w, blocks, dr, diffsets)
    ensures forall s | 0 <= s < |diffsets| ::
      && Covers(diffsets[s].Prev(), diffsets[s].Curr(), |w.db + blocks|)
      && Walkable(diffsets[s].Prev(), diffsets[s].Curr())
  {
    forall s | 0 <= s < |diffsets|
      ensures Covers(diffsets[s].Prev(), diffsets[s].Curr(), |w.db + blocks|)
      ensures Walkable(diffsets[s].Prev(), diffsets[s].Curr())
    {
      NewSetWalkable(w.client, dr, |blocks|, s);
    }
  }

  lemma QueriesOf(w: World, blocks: seq<Block>, dr: Draws, diffsets: seq<DiffSetDesc>)
    requires w.Valid() && |diffsets| == w.client.nbrsets
    requires forall s | 0 <= s < |diffsets| ::
      var d := AfterAddQuery(w.client, dr, |blocks|).sets[s];
      diffsets[s] == DiffSetDesc(d.sk, d.shift, w.client.sets[s].aux, d.aux)
    ensures AddQueries(w, blocks, dr, diffsets)
  {
  }

  /** The server's part: its replies are those of the state machine. */
  method Differences(server: PIRServer, query: UpdateQueryAdd, ghost f: Family, ghost w: World,
      ghost blocks: seq<Block>, ghost dr: Draws) returns (reply: seq<Block>)
    requires f.Realizes(server.p) && f.Valid() && w.Valid() && w.client.dbrange + |blocks| < MAX_RANGE
    requires server.db == w.db + blocks && server.nbrsets == w.client.nbrsets
    requires query.mk == w.client.mk && AddQueries(w, blocks, dr, query.diffsets)
    ensures AddReplies(f, w, blocks, dr, reply)
  {
    AddQueriesWalkable(w, blocks, dr, query.diffsets);
    var r := server.BatchedAdditionReply(query, f);
    reply := r.value;
  }

  /** The server grows, and the client asks for the differences. No check fires. */
  method AskDifferences(client: PIRClient, server: PIRServer, blocks: seq<Block>, dr: Draws) returns (reply: seq<Block>)
    requires Connected(client, server) && client.dbrange + |blocks| < MAX_RANGE
    modifies client, server
    ensures Linked(client, server) && client.Usable()
    ensures client.State() == AfterAddQuery(old(client.State()), dr, |blocks|) && server.db == old(server.db) + blocks
    ensures AddReplies(client.f, old(WorldOf(client, server)), blocks, dr, reply)
    ensures client.Valid() <==> AdmissibleDraws(old(client.State()), dr, |blocks|)
  {
    ghost var w := WorldOf(client, server);
    var added := server.AddElements(|blocks|, blocks);
    var query := client.BatchedAdditionQuery(|blocks|, dr);
    QueriesOf(w, blocks, dr, query.diffsets);
    reply := Differences(server, query, client.f, w, blocks, dr);
  }

  lemma AddedParities(f: Family, w: World, blocks: seq<Block>, dr: Draws, reply: seq<Block>, parities: seq<Block>)
    requires f.Valid() && w.Valid() && w.client.dbrange + |blocks| < MAX_RANGE && AddReplies(f, w, blocks, dr, reply)
    requires |parities| == |reply| && forall s | 0 <= s < |reply| :: parities[s] == Xor(w.client.parities[s], reply[s])
    ensures parities == AfterAdd(f, w, blocks, dr).client.parities
  {
  }

  /** Then it takes the replies up into its hints. It stays valid exactly when the draws
      are admissible. */
  method RunAdd(client: PIRClient, server: PIRServer, blocks: seq<Block>, dr: Draws)
    requires Connected(client, server) && client.dbrange + |blocks| < MAX_RANGE
    modifies client, server
    ensures Linked(client, server) && client.Usable()
    ensures WorldOf(client, server) == AfterAdd(client.f, old(WorldOf(client, server)), blocks, dr)
    ensures Connected(client, server) <==> AdmissibleDraws(old(client.State()), dr, |blocks|)
  {
    ghost var w := WorldOf(client, server);
    var reply := AskDifferences(client, server, blocks, dr);
    client.UpdateParity(reply);
    AddedParities(client.f, w, blocks, dr, reply, client.parities);
  }

  /** A whole run, event by event. */
  method RunEvents(client: PIRClient, server: PIRServer, es: seq<Event>)
    requires Connected(client, server)
    requires Runnable(client.f, WorldOf(client, server), es)
    modifies client, server
    ensures Connected(client, server)
    ensures WorldOf(client, server) == Run(client.f, old(WorldOf(client, server)), es)
  {
    ghost var f, w := client.f, WorldOf(client, server);
    for i := 0 to |es|
      invariant Connected(client, server)
      invariant Runnable(f, WorldOf(client, server), es[i..])
      invariant Run(f, w, es) == Run(f, WorldOf(client, server), es[i..])
    {
      assert es[i..][0] == es[i] && es[i..][1..] == es[i + 1..];
      match es[i] {
        case Query(idx, rm) =>
          var blk := RunQuery(client, server, idx, rm);
        case Round(idx, rm, newKey, r, rm2) =>
          var blk := RunRound(client, server, idx, rm, newKey, r, rm2);
        case Add(blocks, draws) =>
          RunAdd(client, server, blocks, draws);
      }
    }
  }

  /** End to end: preparation, any clean run, and a clean query return the wanted block
      of the database as it is then. */
  method Retrieve(p: Prims, db: seq<Block>, setsize: nat, nbrsets: nat, mk: Key, keys: nat -> Key, shifts: nat -> nat,
      setno: int, es: seq<Event>, idx: nat, rm: Removal, ghost f: Family)
    returns (blk: Block)
    requires f.Realizes(p) && f.Valid()
    requires 2 <= setsize <= |db| < MAX_RANGE && 1 <= nbrsets
    requires var w := Start(f, db, setsize, nbrsets, mk, keys, shifts, setno); Runnable(f, w, es) && CleanRun(f, w, es)
    requires var w' := Run(f, Start(f, db, setsize, nbrsets, mk, keys, shifts, setno), es);
      idx < w'.client.dbrange && CleanQuery(f, w', idx, rm)
    ensures var w' := Run(f, Start(f, db, setsize, nbrsets, mk, keys, shifts, setno), es);
      idx < |w'.db| && blk == w'.db[idx]
  {
    var client, server := Prepare(p, db, setsize, nbrsets, mk, keys, shifts, setno, f);
    CleanRunAnswers(f, WorldOf(client, server), es, idx, rm);
    RunEvents(client, server, es);
    blk := RunQuery(client, server, idx, rm);
  }
}
