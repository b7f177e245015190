/** Offline/online retrieval with puncturable sets: every set is given by a key and
    a shift, the client keeps the parity of each set, and a query punctures one. */
module CkPir {
  import opened Bits
  import opened Blocks
  import opened Counting
  import opened LevelTree
  import opened PuncPrf
  import opened PuncSteps
  import opened Results

  datatype SetDesc = SetDesc(prfKey: Key, shift: nat, hint: Block)

  datatype OfflineQuery = OfflineQuery(nbrsets: nat, setsize: nat, offlineKeys: seq<Key>, shifts: seq<nat>)

  datatype OfflineReply = OfflineReply(nbrsets: nat, hints: seq<Block>)

  datatype OnlineQuery = OnlineQuery(punckeys: PuncKeys, shift: nat)

  /** The depth of the trees over a database of n blocks. */
  function Depth(n: nat): nat {
    if n == 0 then 0 else Log2(n)
  }

  lemma DepthFits(n: nat)
    requires 1 <= n < 0x8000_0000
    ensures Depth(n) <= 30 && Pow2(Depth(n)) <= n < Pow2(Depth(n) + 1)
    ensures Pow2(Depth(n) / 2) <= Pow2(Depth(n)) && Pow2(Depth(n) / 2) <= Pow2(Depth(n) - Depth(n) / 2)
  {
    Log2Bounds(n);
    Pow2Monotone(Depth(n) / 2, Depth(n));
    Pow2Monotone(Depth(n) / 2, Depth(n) - Depth(n) / 2);
    DepthBelow(Depth(n), n);
  }

  lemma DepthBelow(d: nat, n: nat)
    requires n < 0x8000_0000 && Pow2(d) <= n
    ensures d <= 30
  {
    assert Pow2(31) == 0x8000_0000 by {
      assert Pow2(8) == 0x100 && Pow2(7) == 0x80;
      Pow2Add(8, 8);
      Pow2Add(16, 8);
      Pow2Add(24, 7);
    }
    if d > 30 {
      Pow2Monotone(31, d);
      assert false;
    }
  }

  lemma OutputBound(prg: Prg, key: Key, x: nat, lgn: nat, range: nat)
    requires lgn <= 30 && Pow2(lgn) <= range
    ensures Prf(prg, key, x, lgn, range) < Pow2(lgn)
  {
    var leaf := NodeAt(GgmTree(prg, key), x, lgn);
    FirstWindowFits(leaf, lgn, range);
    LowBound(Leading(leaf, 8), lgn);
  }

  // ---- Sets and their parities

  /** A value moved by the shift of its set, around the end of the database. */
  function Shifted(v: nat, shift: nat, n: nat): (m: nat)
    requires n > 0
    ensures m < n
  {
    (v + shift) % n
  }

  /** The database index at position i of a set. */
  function Member(prg: Prg, key: Key, shift: nat, n: nat, i: nat): (m: nat)
    requires n > 0
    ensures m < n
  {
    Shifted(Prf(prg, key, i, Depth(n), n), shift, n)
  }

  /** The exclusive or of the first m terms, without term number `skip`. */
  function XorTerms(term: nat -> Block, skip: int, m: nat): Block {
    if m == 0 then ZERO
    else if m - 1 == skip then XorTerms(term, skip, m - 1)
    else Xor(XorTerms(term, skip, m - 1), term(m - 1))
  }

  /** Skipping a term makes a difference of exactly that term. */
  lemma {:induction false} XorSkipped(term: nat -> Block, skip: nat, m: nat)
    ensures Xor(XorTerms(term, skip, m), XorTerms(term, -1, m)) == if skip < m then term(skip) else ZERO
  {
    if m > 0 {
      XorSkipped(term, skip, m - 1);
      OneMore(XorTerms(term, skip, m - 1), XorTerms(term, -1, m - 1), term(m - 1));
    } else {
      XorSelf(ZERO);
    }
  }

  lemma {:induction false} XorSame(a: nat -> Block, b: nat -> Block, skip: int, m: nat)
    requires forall i: nat | i < m && i != skip :: a(i) == b(i)
    ensures XorTerms(a, skip, m) == XorTerms(b, skip, m)
  {
    if m > 0 {
      XorSame(a, b, skip, m - 1);
    }
  }

  function MemberBlock(prg: Prg, db: seq<Block>, key: Key, shift: nat): nat -> Block
    requires |db| > 0
  {
    i => db[Member(prg, key, shift, |db|, i)]
  }

  /** The parity of positions below m, members counted as often as they occur, with
      position `skip` left out. */
  function SetParity(prg: Prg, db: seq<Block>, key: Key, shift: nat, skip: int, m: nat): Block
    requires |db| > 0
  {
    XorTerms(MemberBlock(prg, db, key, shift), skip, m)
  }

  /** A punctured parity and the whole parity differ by the block at the skipped position. */
  lemma PuncturedParity(prg: Prg, db: seq<Block>, key: Key, shift: nat, skip: nat, m: nat)
    requires |db| > 0 && skip < m
    ensures Xor(SetParity(prg, db, key, shift, skip, m), SetParity(prg, db, key, shift, -1, m)) ==
      db[Member(prg, key, shift, |db|, skip)]
  {
    XorSkipped(MemberBlock(prg, db, key, shift), skip, m);
  }

  lemma OneMore(p: Block, q: Block, d: Block)
    ensures Xor(Xor(p, d), Xor(q, d)) == Xor(p, q)
    ensures Xor(p, q) == ZERO ==> Xor(p, Xor(q, d)) == d
  {
    XorAssoc(p, q, d);
    XorSwap(p, d, q);
    XorAssoc(Xor(p, d), q, d);
    XorCancels(Xor(p, q), d);
    XorZero(d);
  }

  /** A bit is set in the exclusive or when an odd number of terms has it. */
  lemma {:induction false} XorTermsBit(term: nat -> Block, has: nat -> bool, skip: int, m: nat, b: nat)
    requires forall i: nat | i < m :: has(i) == (b in term(i))
    ensures b in XorTerms(term, skip, m) <==> |Holding(has, skip, m)| % 2 == 1
  {
    if m == 0 {
      HoldingNone(has, skip);
    } else {
      XorTermsBit(term, has, skip, m - 1, b);
      HoldingNext(has, skip, m);
    }
  }

  /** Whether the block at the i-th member of a set has bit b. */
  function Carries(prg: Prg, db: seq<Block>, key: Key, shift: nat, b: nat): nat -> bool
    requires |db| > 0
  {
    (i: nat) => b in db[(Prf(prg, key, i, Depth(|db|), |db|) + shift) % |db|]
  }

  /** A bit is set in the parity when an odd number of positions carries it. */
  ghost predicate OddlyCarried(prg: Prg, db: seq<Block>, key: Key, shift: nat, skip: int, m: nat, parity: Block)
    requires |db| > 0
  {
    forall b: nat {:trigger b in parity} ::
      b in parity <==> |Holding(Carries(prg, db, key, shift, b), skip, m)| % 2 == 1
  }

  lemma SetParityCarried(prg: Prg, db: seq<Block>, key: Key, shift: nat, skip: int, m: nat)
    requires |db| > 0
    ensures OddlyCarried(prg, db, key, shift, skip, m, SetParity(prg, db, key, shift, skip, m))
  {
    forall b: nat
      ensures b in SetParity(prg, db, key, shift, skip, m) <==>
        |Holding(Carries(prg, db, key, shift, b), skip, m)| % 2 == 1
    {
      XorTermsBit(MemberBlock(prg, db, key, shift), Carries(prg, db, key, shift, b), skip, m, b);
    }
  }

  /** The number of positions of a set. */
  function Positions(n: nat): nat {
    Pow2(Depth(n) / 2)
  }

  /** The hint of a set is the parity of all its positions. */
  predicate HintOf(prg: Prg, db: seq<Block>, s: SetDesc)
    requires |db| > 0
  {
    s.hint == SetParity(prg, db, s.prfKey, s.shift, -1, Positions(|db|))
  }

  /** The block that the keys of a query lead to at a position, whatever they are. */
  function QueryBlock(prg: Prg, db: seq<Block>, q: OnlineQuery): nat -> Block
    requires |db| > 0 && |q.punckeys.keys| == Depth(|db|)
  {
    i =>
      if Leaving(i, q.punckeys.bitvec, Depth(|db|), 1) <= Depth(|db|) then
        db[Shifted(Output(PuncLeaf(prg, q.punckeys, i, Depth(|db|)), Depth(|db|), |db|), q.shift, |db|)]
      else ZERO
  }

  function QueryParity(prg: Prg, db: seq<Block>, q: OnlineQuery, m: nat): Block
    requires |db| > 0 && |q.punckeys.keys| == Depth(|db|)
  {
    XorTerms(QueryBlock(prg, db, q), q.punckeys.bitvec, m)
  }

  /** With the keys of a punctured set that is the parity of its other positions. */
  lemma QueryOfSet(prg: Prg, db: seq<Block>, q: OnlineQuery, key: Key, m: nat)
    requires |db| > 0 && q.punckeys.bitvec < Pow2(Depth(|db|)) && m <= Pow2(Depth(|db|))
    requires PuncturedAt(prg, key, q.punckeys.bitvec, Depth(|db|), q.punckeys)
    ensures QueryParity(prg, db, q, m) == SetParity(prg, db, key, q.shift, q.punckeys.bitvec, m)
  {
    var a, b := QueryBlock(prg, db, q), MemberBlock(prg, db, key, q.shift);
    forall i: nat | i < m && i != q.punckeys.bitvec ensures a(i) == b(i) {
      PuncLeafIsLeaf(prg, key, q.punckeys, i, Depth(|db|));
    }
    XorSame(a, b, q.punckeys.bitvec, m);
  }

  /** The sets after the first n hints took up their reply. */
  function WithHints(sets: seq<SetDesc>, r: OfflineReply, n: nat): (s: seq<SetDesc>)
    requires n <= |sets| && n <= |r.hints|
    ensures |s| == |sets|
    ensures forall i | 0 <= i < n :: s[i] == sets[i].(hint := Xor(sets[i].hint, r.hints[i]))
    ensures forall i | n <= i < |sets| :: s[i] == sets[i]
  {
    if n == 0 then sets
    else
      var s := WithHints(sets, r, n - 1);
      s[n - 1 := s[n - 1].(hint := Xor(s[n - 1].hint, r.hints[n - 1]))]
  }

  /** A reply is the parity of all positions of a set but one. */
  predicate ReplyOf(prg: Prg, db: seq<Block>, s: SetDesc, pos: nat, parity: Block)
    requires |db| > 0
  {
    parity == SetParity(prg, db, s.prfKey, s.shift, pos, Positions(|db|))
  }

  /** Position i of set s holds the queried index. */
  predicate Holds(prg: Prg, sets: seq<SetDesc>, n: nat, s: nat, i: nat, idx: nat)
    requires n > 0 && s < |sets|
  {
    Member(prg, sets[s].prfKey, sets[s].shift, n, i) == idx
  }

  /** It is the first position of the set that does. */
  predicate FirstIn(prg: Prg, sets: seq<SetDesc>, n: nat, s: nat, i: nat, idx: nat)
    requires n > 0 && s < |sets|
  {
    Holds(prg, sets, n, s, i, idx) && forall k: nat | k < i :: !Holds(prg, sets, n, s, k, idx)
  }

  /** No position of the first m sets holds the index. */
  predicate Absent(prg: Prg, sets: seq<SetDesc>, n: nat, m: nat, idx: nat)
    requires n > 0 && m <= |sets|
  {
    forall s: nat, i: nat | s < m && i < Positions(n) :: !Holds(prg, sets, n, s, i, idx)
  }

  // ---- The server

  /** One position of a query, added to the parity unless it is the hole. */
  method AddPosition(prg: Prg, db: seq<Block>, q: OnlineQuery, lgn: nat, i: nat, parity: Block) returns (sum: Block)
    requires 1 <= |db| && lgn == Depth(|db|) <= 30 && Pow2(lgn) <= |db| && i < Pow2(lgn)
    requires q.punckeys.bitvec < Pow2(lgn) && |q.punckeys.keys| == lgn
    requires parity == QueryParity(prg, db, q, i)
    ensures sum == QueryParity(prg, db, q, i + 1)
  {
    if i != q.punckeys.bitvec {
      PartsInside(i, q.punckeys.bitvec, lgn);
      FirstWindowFits(PuncLeaf(prg, q.punckeys, i, lgn), lgn, |db|);
    }
    var y := EvalPunc(prg, q.punckeys, i, lgn, |db|);
    sum := parity;
    if y != -1 {
      sum := Xor(parity, db[Shifted(y, q.shift, |db|)]);
    }
  }

  /** Over a range of at least 2^lgn every output is found in the first window. */
  lemma AllExtractable(prg: Prg, key: Key, lgn: nat, range: nat, m: nat)
    requires lgn <= 30 && Pow2(lgn) <= range
    ensures forall i | 0 <= i < m :: Extractable(NodeAt(GgmTree(prg, key), i, lgn), lgn, range)
  {
    forall i | 0 <= i < m ensures Extractable(NodeAt(GgmTree(prg, key), i, lgn), lgn, range) {
      FirstWindowFits(NodeAt(GgmTree(prg, key), i, lgn), lgn, range);
    }
  }

  /** The values at all positions of a set. */
  method RawIndices(prg: Prg, key: Key, lgn: nat, n: nat) returns (raw: seq<nat>)
    requires 1 <= n < 0x8000_0000 && lgn == Depth(n)
    ensures |raw| == Positions(n) && forall i | 0 <= i < |raw| :: raw[i] == Prf(prg, key, i, Depth(n), n)
  {
    DepthFits(n);
    AllExtractable(prg, key, lgn, n, Pow2(lgn / 2));
    raw := BreadthEval(prg, key, 0, Pow2(lgn / 2), lgn, n);
  }

  /** The blocks at the shifted indices of a set, added up. */
  method SumShifted(prg: Prg, db: seq<Block>, raw: seq<nat>, ghost key: Key, shift: nat) returns (hint: Block)
    requires |db| > 0 && forall i | 0 <= i < |raw| :: raw[i] == Prf(prg, key, i, Depth(|db|), |db|)
    ensures hint == SetParity(prg, db, key, shift, -1, |raw|)
  {
    hint := ZERO;
    for j := 0 to |raw|
      invariant hint == SetParity(prg, db, key, shift, -1, j)
    {
      hint := Xor(hint, db[Shifted(raw[j], shift, |db|)]);
    }
  }

  class PIRServer {
    const prg: Prg
    var lgn: nat
    var dbSize: nat
    var db: seq<Block>

    ghost predicate Valid()
      reads this
    {
      1 <= dbSize == |db| < 0x8000_0000 && lgn == Depth(dbSize)
    }

    constructor (prg: Prg)
      ensures this.prg == prg
    {
      this.prg := prg;
      this.lgn, this.dbSize, this.db := 0, 0, [];
    }

    method SetDatabase(db: seq<Block>)
      requires 1 <= |db| < 0x8000_0000
      modifies this
      ensures Valid() && this.db == db
    {
      this.dbSize, this.lgn, this.db := |db|, Depth(|db|), db;
    }

    method GenerateOfflineReplyFast(q: OfflineQuery) returns (r: OfflineReply)
      requires Valid() && |q.offlineKeys| == |q.shifts| == q.nbrsets
      ensures r.nbrsets == |r.hints| == q.nbrsets
      ensures forall s | 0 <= s < q.nbrsets ::
        r.hints[s] == SetParity(prg, db, q.offlineKeys[s], q.shifts[s], -1, Positions(|db|))
      ensures forall s | 0 <= s < q.nbrsets ::
        OddlyCarried(prg, db, q.offlineKeys[s], q.shifts[s], -1, Pow2(lgn / 2), r.hints[s])
    {
      var hints: seq<Block> := [];
      for s := 0 to q.nbrsets
        invariant |hints| == s
        invariant forall i | 0 <= i < s ::
          hints[i] == SetParity(prg, db, q.offlineKeys[i], q.shifts[i], -1, Positions(|db|))
      {
        var hint := OfflineParity(q.offlineKeys[s], q.shifts[s]);
        hints := hints + [hint];
      }
      r := OfflineReply(q.nbrsets, hints);
      forall s | 0 <= s < q.nbrsets
        ensures OddlyCarried(prg, db, q.offlineKeys[s], q.shifts[s], -1, Pow2(lgn / 2), r.hints[s])
      {
        SetParityCarried(prg, db, q.offlineKeys[s], q.shifts[s], -1, Pow2(lgn / 2));
      }
    }

    method OfflineParity(key: Key, shift: nat) returns (hint: Block)
      requires Valid()
      ensures hint == SetParity(prg, db, key, shift, -1, Positions(|db|))
    {
      var raw := RawIndices(prg, key, lgn, dbSize);
      hint := SumShifted(prg, db, raw, key, shift);
    }

    /** The parity of all positions but the hole of the query. */
    method GenerateOnlineReply(q: OnlineQuery) returns (parity: Block)
      requires Valid() && q.punckeys.bitvec < Pow2(lgn) && |q.punckeys.keys| == lgn
      ensures Positions(|db|) <= Pow2(lgn) && parity == QueryParity(prg, db, q, Positions(|db|))
    {
      DepthFits(dbSize);
      parity := ZERO;
      for i := 0 to Pow2(lgn / 2)
        invariant parity == QueryParity(prg, db, q, i)
      {
        parity := AddPosition(prg, db, q, lgn, i, parity);
      }
    }
  }

  // ---- The client

  method MemberAt(prg: Prg, key: Key, shift: nat, n: nat, lgn: nat, i: nat) returns (m: nat)
    requires 1 <= n && lgn == Depth(n) <= 30 && Pow2(lgn) <= n && i < Pow2(lgn)
    ensures m == Member(prg, key, shift, n, i)
  {
    FirstWindowFits(NodeAt(GgmTree(prg, key), i, lgn), lgn, n);
    var y := Eval(prg, key, i, lgn, n);
    m := Shifted(y.value, shift, n);
  }

  /** The value at position i and the shift lead to the index. */
  predicate Lies(prg: Prg, key: Key, shift: nat, n: nat, lgn: nat, i: nat, idx: nat)
    requires n > 0
  {
    (Prf(prg, key, i, lgn, n) + shift) % n == idx
  }

  lemma LiesIff(prg: Prg, key: Key, shift: nat, n: nat, lgn: nat, i: nat, idx: nat)
    requires n > 0 && lgn == Depth(n)
    ensures Lies(prg, key, shift, n, lgn, i, idx) <==> Member(prg, key, shift, n, i) == idx
  {
  }

  /** The first of m positions at which a set holds the index, or -1. */
  method FindPosition(prg: Prg, key: Key, shift: nat, n: nat, lgn: nat, m: nat, idx: nat) returns (pos: int)
    requires 1 <= n && lgn == Depth(n) <= 30 && m <= Pow2(lgn) <= n
    ensures -1 <= pos < m
    ensures pos >= 0 ==> Lies(prg, key, shift, n, lgn, pos, idx)
    ensures forall i: nat | i < (if pos == -1 then m else pos) :: !Lies(prg, key, shift, n, lgn, i, idx)
  {
    for i := 0 to m
      invariant forall k: nat | k < i :: !Lies(prg, key, shift, n, lgn, k, idx)
    {
      var y := MemberAt(prg, key, shift, n, lgn, i);
      LiesIff(prg, key, shift, n, lgn, i, idx);
      if y == idx {
        return i;
      }
    }
    pos := -1;
  }

  class PIRClient {
    const prg: Prg
    var lgn: nat
    var dbrange: nat
    var setsize: nat
    var nbrsets: nat
    var puncX: nat
    var curQrySetno: int
    var sets: seq<SetDesc>

    ghost predicate Valid()
      reads this
    {
      1 <= dbrange < 0x8000_0000 && lgn == Depth(dbrange) && nbrsets == |sets|
    }

    constructor (prg: Prg)
      ensures this.prg == prg && sets == []
    {
      this.prg, this.sets := prg, [];
      this.lgn, this.dbrange, this.setsize, this.nbrsets, this.puncX, this.curQrySetno := 0, 0, 0, 0, 0, 0;
    }

    /** The depth is the largest one whose leaves fit the database: every output of the
        function is found in its first window and stays below 2^lgn. */
    method SetParms(dbrange: nat, setsize: nat, nbrsets: nat)
      requires 1 <= dbrange < 0x8000_0000
      modifies this
      ensures this.dbrange == dbrange && lgn == Depth(dbrange) && this.setsize == setsize && this.nbrsets == nbrsets
      ensures puncX == 0 && sets == old(sets)
      ensures Pow2(lgn) <= dbrange < Pow2(lgn + 1)
      ensures forall key: Key, x: nat | x < Pow2(lgn) :: Prf(prg, key, x, lgn, dbrange) < Pow2(lgn)
    {
      DepthFits(dbrange);
      forall key: Key, x: nat | x < Pow2(Depth(dbrange))
        ensures Prf(prg, key, x, Depth(dbrange), dbrange) < Pow2(Depth(dbrange))
      {
        OutputBound(prg, key, x, Depth(dbrange), dbrange);
      }
      this.dbrange, this.setsize, this.nbrsets := dbrange, setsize, nbrsets;
      lgn := Depth(dbrange);
      puncX := 0;
    }

    /** Draws the sets; keys and shifts are the generator's draws. */
    method GenerateSetkeys(keys: nat -> Key, draws: nat -> nat)
      requires 1 <= dbrange < 0x8000_0000 && lgn == Depth(dbrange) && sets == []
      modifies this`sets
      ensures Valid()
      ensures forall i | 0 <= i < nbrsets :: sets[i] == SetDesc(keys(i), draws(i) % dbrange, ZERO)
    {
      for i := 0 to nbrsets
        invariant |sets| == i
        invariant forall k | 0 <= k < i :: sets[k] == SetDesc(keys(k), draws(k) % dbrange, ZERO)
      {
        sets := sets + [SetDesc(keys(i), draws(i) % dbrange, ZERO)];
      }
    }

    method GenerateOfflineQuery() returns (q: OfflineQuery)
      requires Valid()
      ensures q.nbrsets == nbrsets == |q.offlineKeys| == |q.shifts| && q.setsize == setsize
      ensures forall i | 0 <= i < nbrsets :: q.offlineKeys[i] == sets[i].prfKey && q.shifts[i] == sets[i].shift
    {
      var offlineKeys: seq<Key> := [];
      var shifts: seq<nat> := [];
      for i := 0 to nbrsets
        invariant |offlineKeys| == |shifts| == i
        invariant forall k | 0 <= k < i :: offlineKeys[k] == sets[k].prfKey && shifts[k] == sets[k].shift
      {
        offlineKeys := offlineKeys + [sets[i].prfKey];
        shifts := shifts + [sets[i].shift];
      }
      q := OfflineQuery(nbrsets, setsize, offlineKeys, shifts);
    }

    method UpdateLocalHints(r: OfflineReply)
      requires Valid() && r.nbrsets == |r.hints| <= |sets|
      modifies this`sets
      ensures Valid()
      ensures sets == WithHints(old(sets), r, r.nbrsets)
    {
      for i := 0 to r.nbrsets
        invariant sets == WithHints(old(sets), r, i)
      {
        sets := sets[i := sets[i].(hint := Xor(sets[i].hint, r.hints[i]))];
      }
    }

    /** The first position of set s that holds the index, or -1. */
    method FindInSet(s: nat, desiredIdx: nat) returns (pos: int)
      requires Valid() && s < |sets|
      ensures -1 <= pos < Positions(dbrange)
      ensures pos >= 0 ==> FirstIn(prg, sets, dbrange, s, pos, desiredIdx)
      ensures pos == -1 ==> forall i: nat | i < Positions(dbrange) :: !Holds(prg, sets, dbrange, s, i, desiredIdx)
      ensures pos < Pow2(lgn / 2)
      ensures pos >= 0 ==> Lies(prg, sets[s].prfKey, sets[s].shift, dbrange, lgn, pos, desiredIdx)
      ensures forall i: nat | i < (if pos == -1 then Pow2(lgn / 2) else pos) ::
        !Lies(prg, sets[s].prfKey, sets[s].shift, dbrange, lgn, i, desiredIdx)
    {
      DepthFits(dbrange);
      var key, shift := sets[s].prfKey, sets[s].shift;
      pos := FindPosition(prg, key, shift, dbrange, lgn, Pow2(lgn / 2), desiredIdx);
      forall i: nat ensures Lies(prg, key, shift, dbrange, lgn, i, desiredIdx) <==>
        Holds(prg, sets, dbrange, s, i, desiredIdx)
      {
        LiesIff(prg, key, shift, dbrange, lgn, i, desiredIdx);
      }
    }

    /** Punctures the first set that holds the index at its first such position, or
        fails if none does. */
    method GenerateOnlineQuery(desiredIdx: nat) returns (r: Result<OnlineQuery>)
      requires Valid()
      modifies this`puncX, this`curQrySetno
      ensures r.Err? <==> Absent(prg, sets, dbrange, |sets|, desiredIdx)
      ensures r.Err? ==> curQrySetno == old(curQrySetno) && puncX == old(puncX)
      ensures r.Ok? ==>
        && 0 <= curQrySetno < |sets| && puncX < Positions(dbrange) <= Pow2(lgn)
        && Absent(prg, sets, dbrange, curQrySetno, desiredIdx)
        && FirstIn(prg, sets, dbrange, curQrySetno, puncX, desiredIdx)
        && PuncturedAt(prg, sets[curQrySetno].prfKey, puncX, lgn, r.value.punckeys)
        && r.value.shift == sets[curQrySetno].shift
    {
      var setno, pos := 0, -1;
      while setno < nbrsets && pos == -1
        modifies {}
        invariant 0 <= setno <= nbrsets
        invariant -1 <= pos < Positions(dbrange)
        invariant pos >= 0 ==> setno < nbrsets && FirstIn(prg, sets, dbrange, setno, pos, desiredIdx)
        invariant Absent(prg, sets, dbrange, setno, desiredIdx)
        decreases nbrsets - setno, pos == -1
      {
        pos := FindInSet(setno, desiredIdx);
        if pos == -1 {
          setno := setno + 1;
        }
      }
      if pos == -1 {
        return Err(InvalidArgument("cannot find desired index!"));
      }
      puncX := pos;
      curQrySetno := setno;
      DepthFits(dbrange);
      var punckeys := Punc(prg, sets[setno].prfKey, puncX, lgn);
      return Ok(OnlineQuery(punckeys, sets[setno].shift));
    }

    /** When the hint is the parity of the whole set and the reply the parity of the set
        without one position, the block is the one at that position. */
    method RecoverBlock(parity: Block) returns (blk: Block)
      requires 0 <= curQrySetno < |sets|
      ensures blk == Xor(parity, sets[curQrySetno].hint)
      ensures forall db: seq<Block>, pos: nat | 0 < |db| && pos < Positions(|db|) ::
        HintOf(prg, db, sets[curQrySetno]) && ReplyOf(prg, db, sets[curQrySetno], pos, parity) ==>
          blk == db[Member(prg, sets[curQrySetno].prfKey, sets[curQrySetno].shift, |db|, pos)]
    {
      forall db: seq<Block>, pos: nat | 0 < |db| && pos < Positions(|db|) &&
          HintOf(prg, db, sets[curQrySetno]) && ReplyOf(prg, db, sets[curQrySetno], pos, parity)
        ensures Xor(parity, sets[curQrySetno].hint) ==
          db[Member(prg, sets[curQrySetno].prfKey, sets[curQrySetno].shift, |db|, pos)]
      {
        PuncturedParity(prg, db, sets[curQrySetno].prfKey, sets[curQrySetno].shift, pos, Positions(|db|));
      }
      blk := Xor(parity, sets[curQrySetno].hint);
    }
  }

  // ---- The two phases

  /** After the offline phase every hint is the parity of its set. */
  method Prepare(client: PIRClient, server: PIRServer)
    requires client.Valid() && server.Valid() && client.prg == server.prg && client.dbrange == server.dbSize
    requires forall s | 0 <= s < |client.sets| :: client.sets[s].hint == ZERO
    modifies client`sets
    ensures client.Valid()
    ensures forall s | 0 <= s < |client.sets| :: HintOf(server.prg, server.db, client.sets[s])
  {
    var q := client.GenerateOfflineQuery();
    var r := server.GenerateOfflineReplyFast(q);
    forall s | 0 <= s < r.nbrsets ensures Xor(ZERO, r.hints[s]) == r.hints[s] {
      XorZero(r.hints[s]);
    }
    client.UpdateLocalHints(r);
  }

  /** Whatever the keys are, a query returns the block asked for, unless no set
      holds its index; and it leaves all hints as they are. */
  method Fetch(client: PIRClient, server: PIRServer, desiredIdx: nat) returns (r: Result<Block>)
    requires client.Valid() && server.Valid() && client.prg == server.prg && client.dbrange == server.dbSize
    requires forall s | 0 <= s < |client.sets| :: HintOf(server.prg, server.db, client.sets[s])
    modifies client`puncX, client`curQrySetno
    ensures r.Err? <==> Absent(client.prg, client.sets, client.dbrange, |client.sets|, desiredIdx)
    ensures r.Ok? ==> desiredIdx < |server.db| && r.value == server.db[desiredIdx]
  {
    var q := client.GenerateOnlineQuery(desiredIdx);
    if q.Err? {
      return Err(q.error);
    }
    var parity := server.GenerateOnlineReply(q.value);
    QueryOfSet(server.prg, server.db, q.value, client.sets[client.curQrySetno].prfKey, Positions(|server.db|));
    assert ReplyOf(server.prg, server.db, client.sets[client.curQrySetno], client.puncX, parity);
    var blk := client.RecoverBlock(parity);
    return Ok(blk);
  }
}
