/** Private retrieval from two servers by a distributed point function: key
    generation, eight-lane evaluation and selection, end to end. */
module DpfPir {
  import opened Bits
  import opened DpfBlocks
  import opened DpfTree
  import opened Dpf
  import opened DpfGen
  import opened DpfEval
  import opened DpfMask
  import opened DpfEval8
  import opened HashStore
  import QuerySerial

  // ---- Generated keys are well formed

  lemma WordControls(g: Prg, n0: Node, n1: Node, right: bool)
    ensures var cw := GenWord(g, n0, n1, right); IsBit(cw.tl) && IsBit(cw.tr)
  {
    var l0, r0, l1, r1 := GetT(g.left(n0.s)), GetT(g.right(n0.s)), GetT(g.left(n1.s)), GetT(g.right(n1.s));
    XorOfBits(l0, l1);
    XorOfBits(r0, r1);
    XorOfBits(XorByte(l0, l1), 1);
    XorOfBits(XorByte(r0, r1), 1);
  }

  lemma GeneratedControls(g: Prg, alpha: nat, logn: nat, s0: Block, s1: Block, ka: Key, kb: Key)
    requires Paired(g, alpha, logn, s0, s1, ka, kb)
    ensures ControlBits(ka, Stop(logn), 0) && ControlBits(kb, Stop(logn), 0)
  {
    forall lvl | 0 <= lvl < Stop(logn) ensures BitWord(ka, lvl) && BitWord(kb, lvl) {
      assert SharedWord(g, alpha, logn, s0, s1, ka, kb, lvl);
      var ns := PathNodes(g, alpha, logn, s0, s1, lvl);
      WordControls(g, ns.0, ns.1, Turn(alpha, logn, lvl));
    }
  }

  // ---- The two expanded keys differ in one bit

  predicate Differ(a: seq<Byte>, b: seq<Byte>, x: nat)
    requires x < 8 * |a| && x < 8 * |b|
  {
    Bit(a, x) != Bit(b, x)
  }

  /** The packed leaves cover all points. */
  lemma PackedSize(logn: nat)
    ensures Pow2(logn) <= 128 * Pow2(Stop(logn))
  {
    Pow2Small();
    if logn >= 7 {
      Pow2Add(logn - 7, 7);
    } else {
      Pow2Monotone(logn, 7);
    }
  }

  lemma ExpandedDiffer(g: Prg, alpha: nat, logn: nat, s0: Block, s1: Block, ka: Key, kb: Key, x: nat)
    requires KeyPair(g, alpha, logn, s0, s1, ka, kb) && alpha < Pow2(logn) && x < Pow2(logn)
    ensures |FullBytes(g, ka, Stop(logn))| == |FullBytes(g, kb, Stop(logn))| == 16 * Pow2(Stop(logn))
    ensures Pow2(logn) <= 128 * Pow2(Stop(logn))
    ensures Differ(FullBytes(g, ka, Stop(logn)), FullBytes(g, kb, Stop(logn)), x) <==> x == alpha
  {
    PackedSize(logn);
    FullValue(g, ka, Stop(logn), x);
    FullValue(g, kb, Stop(logn), x);
    PointFunction(g, alpha, logn, s0, s1, ka, kb, x);
  }

  // ---- Selections that differ in one bit differ by one item

  lemma {:induction false} SelectionsDiffer(data: seq<Hash>, a: seq<Byte>, b: seq<Byte>, alpha: nat, n: nat)
    requires n <= |data| && |data| <= 8 * |a| && |data| <= 8 * |b|
    requires forall x: nat {:trigger Differ(a, b, x)} | x < n :: Differ(a, b, x) <==> x == alpha
    ensures XorHash(Selected(data, a, n), Selected(data, b, n)) == if alpha < n then data[alpha] else 0
  {
    if n > 0 {
      SelectionsDiffer(data, a, b, alpha, n - 1);
      assert Differ(a, b, n - 1) <==> n - 1 == alpha;
      OneMore(Selected(data, a, n - 1), Selected(data, b, n - 1), data[n - 1]);
    }
  }

  lemma OneMore(p: Hash, q: Hash, d: Hash)
    ensures XorHash(XorHash(p, d), XorHash(q, d)) == XorHash(p, q)
    ensures XorHash(p, q) == 0 ==> XorHash(XorHash(p, d), q) == d && XorHash(p, XorHash(q, d)) == d
  {
    XorAssociates(p, q, d);
    XorSwap(p, d, q);
    XorAssociates(XorHash(p, d), q, d);
    XorCancel(XorHash(p, q), d);
    XorCommutes(0, d);
    XorWithZero(d);
  }

  /** The answers of both servers recover the item at alpha. */
  lemma AnswersRecover(data: seq<Hash>, g: Prg, alpha: nat, logn: nat, s0: Block, s1: Block, ka: Key, kb: Key)
    requires KeyPair(g, alpha, logn, s0, s1, ka, kb) && alpha < Pow2(logn) == |data|
    ensures var a, b := FullBytes(g, ka, Stop(logn)), FullBytes(g, kb, Stop(logn));
      && |data| <= 8 * |a| && |data| <= 8 * |b|
      && XorHash(Selected(data, a, |data|), Selected(data, b, |data|)) == data[alpha]
  {
    var a, b := FullBytes(g, ka, Stop(logn)), FullBytes(g, kb, Stop(logn));
    ExpandedDiffer(g, alpha, logn, s0, s1, ka, kb, alpha);
    forall x: nat | x < |data| ensures Differ(a, b, x) <==> x == alpha {
      ExpandedDiffer(g, alpha, logn, s0, s1, ka, kb, x);
    }
    SelectionsDiffer(data, a, b, alpha, |data|);
  }

  // ---- The protocol

  lemma BufferCovers(logn: nat)
    requires 3 <= logn
    ensures Pow2(logn) == 8 * Pow2(logn - 3) && Pow2(logn) % 8 == 0
  {
    Pow2Add(logn - 3, 3);
    assert Pow2(3) == 8;
  }

  /** What either server answers to its key; `eval` is the expanded key. */
  method GenerateReply(g: Prg, store: HashDataStore, key: Key, logn: nat) returns (reply: Hash, eval: seq<Byte>)
    requires 10 <= logn <= 63 && Packed(key, Stop(logn)) && |store.data| == Pow2(logn)
    ensures |store.data| <= 8 * |eval| && reply == Selected(store.data, eval, |store.data|)
    ensures ControlBits(key, Stop(logn), 2) ==> eval == FullBytes(g, key, Stop(logn))
  {
    BufferCovers(logn);
    eval := EvalFull8(g, key, logn);
    reply := store.AnswerPir2(eval);
  }

  method Retrieve(g: Prg, store: HashDataStore, alpha: nat, logn: nat, seed0: Block, seed1: Block) returns (item: Hash)
    requires 10 <= logn <= 63 && alpha < Pow2(logn) == |store.data|
    ensures item == store.data[alpha]
  {
    var ka, kb := Gen(g, alpha, logn, seed0, seed1);
    GeneratedControls(g, alpha, logn, seed0, seed1, ka, kb);
    AnswersRecover(store.data, g, alpha, logn, seed0, seed1, ka, kb);
    var left, evalA := GenerateReply(g, store, ka, logn);
    var right, evalB := GenerateReply(g, store, kb, logn);
    item := XorHash(left, right);
  }

  /** The same answer by the recursive evaluator, which also serves small databases. */
  method SmallReply(g: Prg, store: HashDataStore, key: Key, logn: nat) returns (reply: Hash, eval: seq<Byte>)
    requires 3 <= logn <= 63 && Packed(key, Stop(logn)) && |store.data| == Pow2(logn)
    ensures |store.data| <= 8 * |eval| && reply == Selected(store.data, eval, |store.data|)
    ensures eval == FullBytes(g, key, Stop(logn))
  {
    PackedSize(logn);
    BufferCovers(logn);
    eval := EvalFull(g, key, logn);
    reply := store.AnswerPir2(eval);
  }

  method RetrieveSmall(g: Prg, store: HashDataStore, alpha: nat, logn: nat, seed0: Block, seed1: Block) returns (item: Hash)
    requires 3 <= logn <= 63 && alpha < Pow2(logn) == |store.data|
    ensures item == store.data[alpha]
  {
    var ka, kb := Gen(g, alpha, logn, seed0, seed1);
    AnswersRecover(store.data, g, alpha, logn, seed0, seed1, ka, kb);
    var left, evalA := SmallReply(g, store, ka, logn);
    var right, evalB := SmallReply(g, store, kb, logn);
    item := XorHash(left, right);
  }

  // ---- The query on the wire

  /** Both keys of a query end in the same bytes. */
  lemma SharedTail(ka: Key, kb: Key)
    requires |ka| == |kb| >= 16 && FinalWord(ka) == FinalWord(kb)
    ensures ka[|ka| - 16..] == kb[|kb| - 16..]
  {
    BytesOf(ka[|ka| - 16..]);
    BytesOf(kb[|kb| - 16..]);
  }

  /** One or three bytes lie behind the last full word of a key, so that the
      transport always depends on them. */
  lemma TailBytes(key: Key, stop: nat)
    requires Packed(key, stop)
    ensures |key| % 4 == if stop % 2 == 0 then 1 else 3
  {
    assert |key| == 4 * (8 + 4 * stop) + (1 + 2 * stop);
    assert 2 * stop == 4 * (stop / 2) + 2 * (stop % 2);
  }

  /** A generated query survives transport exactly when the last bytes of the
      shared correction word are not filler: the left key alone decides. */
  lemma QueryOnTheWire(g: Prg, alpha: nat, logn: nat, s0: Block, s1: Block, ka: Key, kb: Key)
    requires KeyPair(g, alpha, logn, s0, s1, ka, kb)
    ensures QuerySerial.NoFiller(ka) <==> QuerySerial.NoFiller(kb)
  {
    SharedTail(ka, kb);
    var m := 4 * (|ka| / 4);
    assert forall k | m <= k < |ka| ::
      ka[k] == ka[|ka| - 16..][k - (|ka| - 16)] && kb[k] == kb[|ka| - 16..][k - (|ka| - 16)];
  }

  // ---- Keys that transport loses

  /** The register whose top byte is filler. */
  function FillerOnTop(): Block {
    ToBlock([0, 0, 0, 0, 0, 0, 0, 0, 0, 0, 0, 0, 0, 0, 0, 0xFF])
  }

  /** A generator that keeps the seeds 0 and 1 on every path, and whose conversion
      knows the seed 0. */
  function SteadyPrg(c: Block): Prg {
    Prg(b => b, b => 0, b => if b == 0 then c else 0)
  }

  lemma SteadyStep(c: Block, right: bool)
    ensures var g, n0, n1 := SteadyPrg(c), Node(0, 0), Node(1, 1);
      var cw := GenWord(g, n0, n1, right);
      Child(g, cw, n0, right) == n0 && Child(g, cw, n1, right) == n1
  {
    assert XorBlock(0, 0) == 0 && XorBlock(0, 1) == 1 && XorBlock(1, 0) == 1;
    assert XorByte(0, 0) == 0 && XorByte(0, 1) == 1;
  }

  lemma {:induction false} SteadyNodes(c: Block, alpha: nat, logn: nat, lvl: nat)
    requires lvl <= logn
    ensures PathNodes(SteadyPrg(c), alpha, logn, 0, 1, lvl) == (Node(0, 0), Node(1, 1))
  {
    if lvl > 0 {
      SteadyNodes(c, alpha, logn, lvl - 1);
      SteadyStep(c, Turn(alpha, logn, lvl - 1));
    }
  }

  /** The generator that makes the last correction word for alpha end in filler. */
  function LosingPrg(alpha: nat): Prg {
    SteadyPrg(XorBlock(OneHotBlock(alpha % 128), FillerOnTop()))
  }

  lemma LastIs(o: Block, last: Block)
    ensures XorBlock(XorBlock(o, XorBlock(o, last)), 0) == last
  {
    XorLeft(o, last);
    XorWithZero(last);
  }

  /** Its keys for alpha are never free of filler, whatever the size of the database. */
  lemma LostKeys(alpha: nat, logn: nat, ka: Key, kb: Key)
    requires KeyPair(LosingPrg(alpha), alpha, logn, 0, 1, ka, kb)
    ensures !QuerySerial.NoFiller(ka) && !QuerySerial.NoFiller(kb)
  {
    var o := OneHotBlock(alpha % 128);
    SteadyNodes(XorBlock(o, FillerOnTop()), alpha, logn, Stop(logn));
    LastIs(o, FillerOnTop());
    FillerTail(ka, Stop(logn));
    FillerTail(kb, Stop(logn));
  }

  lemma FillerTail(key: Key, stop: nat)
    requires Packed(key, stop) && FinalWord(key) == FillerOnTop()
    ensures !QuerySerial.NoFiller(key)
  {
    var q: seq<Byte> := [0, 0, 0, 0, 0, 0, 0, 0, 0, 0, 0, 0, 0, 0, 0, 0xFF];
    BytesOf(q);
    BytesOf(key[|key| - 16..]);
    TailBytes(key, stop);
    assert key[|key| - 1] == key[|key| - 16..][15] == q[15];
  }

  /** Sending the query through the packing of its transport. */
  method SendKeys(g: Prg, alpha: nat, logn: nat, seed0: Block, seed1: Block)
    returns (query: QuerySerial.ClientQuery, received: QuerySerial.ClientQuery)
    requires logn <= 63 && alpha < Pow2(logn)
    ensures KeyPair(g, alpha, logn, seed0, seed1, query.left, query.right)
    ensures received == query <==> QuerySerial.NoFiller(query.left)
  {
    var ka, kb := Gen(g, alpha, logn, seed0, seed1);
    query := QuerySerial.ClientQuery(ka, kb);
    received := QuerySerial.SendQuery(query);
    QueryOnTheWire(g, alpha, logn, seed0, seed1, ka, kb);
  }

  /** So for every point there is a query that key generation yields and transport loses. */
  method LoseQuery(alpha: nat, logn: nat) returns (query: QuerySerial.ClientQuery, received: QuerySerial.ClientQuery)
    requires logn <= 63 && alpha < Pow2(logn)
    ensures KeyPair(LosingPrg(alpha), alpha, logn, 0, 1, query.left, query.right)
    ensures received != query
  {
    query, received := SendKeys(LosingPrg(alpha), alpha, logn, 0, 1);
    LostKeys(alpha, logn, query.left, query.right);
  }
}
