/** Point evaluation and full evaluation of a distributed point function key. */
module DpfEval {
  import opened Bits
  import opened DpfBlocks
  import opened DpfSteps
  import opened DpfTree
  import opened LevelTree

  /** The register of the output bits below a node. */
  function LeafOf(g: Prg, key: Key): Node -> Block
    requires |key| >= 16
  {
    n => Leaf(g, key, n)
  }

  /** A place in a tree, to speak about its children or about its leaf. */
  predicate At(lvl: nat, n: Node) {
    true
  }

  /** The tree and the leaves of a key, place by place. */
  ghost predicate Describes(t: Tree<Node>, leaf: Node -> Block, g: Prg, key: Key, stop: nat) {
    && Packed(key, stop)
    && t.root == Root(key)
    && (forall lvl: nat, n {:trigger At(lvl, n)} | At(lvl, n) && lvl < stop ::
          && t.down(lvl, n, false) == Child(g, KeyWord(key, lvl), n, false)
          && t.down(lvl, n, true) == Child(g, KeyWord(key, lvl), n, true))
    && (forall n {:trigger At(stop, n)} | At(stop, n) :: leaf(n) == Leaf(g, key, n))
  }

  lemma KeyDescribes(g: Prg, key: Key, stop: nat)
    requires Packed(key, stop)
    ensures Describes(KeyTree(g, key, stop), LeafOf(g, key), g, key, stop)
  {
  }

  /** Both children of a node, as every evaluator computes them. */
  method Expand(g: Prg, key: Key, n: Node, lvl: nat, ghost stop: nat, ghost t: Tree<Node>, ghost leaf: Node -> Block)
    returns (l: Node, r: Node)
    requires Describes(t, leaf, g, key, stop) && lvl < stop
    ensures l == t.down(lvl, n, false) && r == t.down(lvl, n, true)
  {
    var sL, sR := g.left(n.s), g.right(n.s);
    var tL, tR := GetT(sL), GetT(sR);
    sL, sR := Clr(sL), Clr(sR);
    if n.t != 0 {
      var sCW := ToBlock(key[17 + lvl * 18..17 + lvl * 18 + 16]);
      var tLCW, tRCW := key[17 + lvl * 18 + 16], key[17 + lvl * 18 + 17];
      tL, tR := XorByte(tL, tLCW), XorByte(tR, tRCW);
      sL, sR := XorBlock(sL, sCW), XorBlock(sR, sCW);
    }
    l, r := Node(sL, tL), Node(sR, tR);
    assert At(lvl, n);
  }

  method Finish(g: Prg, key: Key, n: Node, ghost stop: nat, ghost t: Tree<Node>, ghost leaf: Node -> Block)
    returns (tmp: Block)
    requires Describes(t, leaf, g, key, stop)
    ensures tmp == leaf(n)
  {
    tmp := g.convert(n.s);
    if n.t != 0 {
      tmp := XorBlock(ToBlock(key[|key| - 16..]), tmp);
    }
    assert At(stop, n);
  }

  // ---- Point evaluation

  /** Testing bit x of a register in memory, byte by byte. */
  lemma TestBit(leaf: Block, x: nat)
    ensures var k := BitAnd(x, 127);
      k < 128 && (BitAnd(ToBytes(leaf)[k / 8], Pow2(k % 8)) != 0 <==> BitAt(leaf, x % 128))
  {
    ModuloBits(x);
    AndBit(ToBytes(leaf)[x % 128 / 8], x % 128 % 8);
    BitOfBytes(leaf, 16, x % 128);
  }

  /** The loop from the root to the end of the path. */
  method WalkDown(g: Prg, key: Key, x: nat, logn: nat, ghost t: Tree<Node>, ghost leaf: Node -> Block) returns (n: Node)
    requires Stop(logn) <= logn && Describes(t, leaf, g, key, Stop(logn))
    requires PathNode(x, logn, 0) == 0
    ensures n == NodeAt(t, PathNode(x, logn, Stop(logn)), Stop(logn))
  {
    n := Node(ToBlock(key[..16]), key[16]);
    for i := 0 to Stop(logn)
      invariant n == NodeAt(t, PathNode(x, logn, i), i)
    {
      PathDown(t, x, logn, i);
      var l, r := Expand(g, key, n, i, Stop(logn), t, leaf);
      if BitAnd(x, Pow2(logn - 1 - i)) != 0 {
        n := r;
      } else {
        n := l;
      }
    }
  }

  /** The packed leaves cover all points. */
  lemma PointInside(x: nat, logn: nat)
    requires x < Pow2(logn)
    ensures x < 128 * Pow2(Stop(logn))
  {
    Pow2Small();
    if logn >= 7 {
      Pow2Add(logn - 7, 7);
    } else {
      Pow2Monotone(logn, 7);
    }
  }

  method Eval(g: Prg, key: Key, x: nat, logn: nat) returns (bit: bool)
    requires logn <= 63 && x < Pow2(logn) && Packed(key, Stop(logn))
    ensures bit == Value(g, key, x, Stop(logn)) && Outputs(g, key, x, logn, bit)
  {
    PathEnds(x, logn);
    PointInside(x, logn);
    ValueOutputs(g, key, x, logn);
    ghost var t, leaf := KeyTree(g, key, Stop(logn)), LeafOf(g, key);
    KeyDescribes(g, key, Stop(logn));
    var n := WalkDown(g, key, x, logn, t, leaf);
    var tmp := Finish(g, key, n, Stop(logn), t, leaf);
    TestBit(tmp, x);
    bit := BitAnd(ToBytes(tmp)[BitAnd(x, 127) / 8], Pow2(BitAnd(x, 127) % 8)) != 0;
  }

  // ---- Full evaluation

  /** The registers of a run of leaves, one after the other in memory. */
  function Flat(leaf: Node -> Block, ns: seq<Node>): (q: seq<Byte>)
    ensures |q| == 16 * |ns|
  {
    if ns == [] then [] else ToBytes(leaf(ns[0])) + Flat(leaf, ns[1..])
  }

  lemma {:induction false} FlatConcat(leaf: Node -> Block, l: seq<Node>, r: seq<Node>)
    ensures Flat(leaf, l + r) == Flat(leaf, l) + Flat(leaf, r)
  {
    if l == [] {
      assert l + r == r;
    } else {
      FlatConcat(leaf, l[1..], r);
      assert (l + r)[1..] == l[1..] + r;
      Associate(ToBytes(leaf(l[0])), Flat(leaf, l[1..]), Flat(leaf, r));
    }
  }

  lemma Associate(a: seq<Byte>, b: seq<Byte>, c: seq<Byte>)
    ensures a + b + c == a + (b + c)
  {
  }

  lemma BitOfConcat(l: seq<Byte>, r: seq<Byte>, m: nat)
    requires m < 8 * |l + r|
    ensures Bit(l + r, m) == if m < 8 * |l| then Bit(l, m) else Bit(r, m - 8 * |l|)
  {
  }

  lemma {:induction false} FlatBit(leaf: Node -> Block, ns: seq<Node>, m: nat)
    requires m < 128 * |ns|
    ensures Bit(Flat(leaf, ns), m) <==> BitAt(leaf(ns[m / 128]), m % 128)
    decreases |ns|
  {
    var head, tail := ToBytes(leaf(ns[0])), Flat(leaf, ns[1..]);
    BitOfConcat(head, tail, m);
    if m < 128 {
      BitOfBytes(leaf(ns[0]), 16, m);
    } else {
      FlatBit(leaf, ns[1..], m - 128);
      assert (m - 128) / 128 == m / 128 - 1 && (m - 128) % 128 == m % 128;
    }
  }

  /** The bytes below one node: its leaves from left to right. */
  function TreeBytes(t: Tree<Node>, leaf: Node -> Block, n: Node, lvl: nat, stop: nat): seq<Byte>
    requires lvl <= stop
    decreases stop - lvl
  {
    if lvl == stop then ToBytes(leaf(n))
    else TreeBytes(t, leaf, t.down(lvl, n, false), lvl + 1, stop) + TreeBytes(t, leaf, t.down(lvl, n, true), lvl + 1, stop)
  }

  lemma {:induction false} TreeBytesFlat(t: Tree<Node>, leaf: Node -> Block, n: Node, lvl: nat, stop: nat)
    requires lvl <= stop
    ensures TreeBytes(t, leaf, n, lvl, stop) == Flat(leaf, Leaves(t, n, lvl, stop))
    decreases stop - lvl
  {
    if lvl == stop {
      assert Flat(leaf, [n][1..]) == [];
    } else {
      var l, r := t.down(lvl, n, false), t.down(lvl, n, true);
      TreeBytesFlat(t, leaf, l, lvl + 1, stop);
      TreeBytesFlat(t, leaf, r, lvl + 1, stop);
      FlatConcat(leaf, Leaves(t, l, lvl + 1, stop), Leaves(t, r, lvl + 1, stop));
    }
  }

  /** All output bytes of a key. */
  function FullBytes(g: Prg, key: Key, stop: nat): seq<Byte>
    requires Packed(key, stop)
  {
    TreeBytes(KeyTree(g, key, stop), LeafOf(g, key), Root(key), 0, stop)
  }

  /** Full evaluation lists the values at all points. */
  lemma FullValue(g: Prg, key: Key, stop: nat, x: nat)
    requires Packed(key, stop) && x < 128 * Pow2(stop)
    ensures |FullBytes(g, key, stop)| == 16 * Pow2(stop)
    ensures Bit(FullBytes(g, key, stop), x) <==> Value(g, key, x, stop)
  {
    var t, leaf := KeyTree(g, key, stop), LeafOf(g, key);
    WholeLevel(t, stop, x / 128);
    TreeBytesFlat(t, leaf, Root(key), 0, stop);
    FlatBit(leaf, Leaves(t, Root(key), 0, stop), x);
  }

  /** Appending what is below the two children appends what is below the node. */
  lemma AppendTwice(before: seq<Byte>, mid: seq<Byte>, after: seq<Byte>,
      t: Tree<Node>, leaf: Node -> Block, n: Node, lvl: nat, stop: nat)
    requires lvl < stop && mid == before + TreeBytes(t, leaf, t.down(lvl, n, false), lvl + 1, stop)
    requires after == mid + TreeBytes(t, leaf, t.down(lvl, n, true), lvl + 1, stop)
    ensures after == before + TreeBytes(t, leaf, n, lvl, stop)
  {
    Associate(before, TreeBytes(t, leaf, t.down(lvl, n, false), lvl + 1, stop),
      TreeBytes(t, leaf, t.down(lvl, n, true), lvl + 1, stop));
  }

  /** The result vector that the recursion appends to. */
  class ByteVec {
    var bytes: seq<Byte>

    constructor ()
      ensures bytes == []
    {
      bytes := [];
    }

    method Insert(q: seq<Byte>)
      modifies this
      ensures bytes == old(bytes) + q
    {
      bytes := bytes + q;
    }
  }

  method Emit(g: Prg, key: Key, n: Node, ghost stop: nat, res: ByteVec, ghost t: Tree<Node>, ghost leaf: Node -> Block)
    requires Describes(t, leaf, g, key, stop)
    modifies res
    ensures res.bytes == old(res.bytes) + TreeBytes(t, leaf, n, stop, stop)
  {
    var tmp := Finish(g, key, n, stop, t, leaf);
    res.Insert(ToBytes(tmp));
  }

  method EvalFullRecursive(g: Prg, key: Key, n: Node, lvl: nat, stop: nat, res: ByteVec,
      ghost t: Tree<Node>, ghost leaf: Node -> Block)
    requires lvl <= stop && Describes(t, leaf, g, key, stop)
    modifies res
    ensures res.bytes == old(res.bytes) + TreeBytes(t, leaf, n, lvl, stop)
    decreases stop - lvl
  {
    if lvl == stop {
      Emit(g, key, n, stop, res, t, leaf);
      return;
    }
    var l, r := Expand(g, key, n, lvl, stop, t, leaf);
    ghost var before := res.bytes;
    EvalFullRecursive(g, key, l, lvl + 1, stop, res, t, leaf);
    ghost var mid := res.bytes;
    EvalFullRecursive(g, key, r, lvl + 1, stop, res, t, leaf);
    AppendTwice(before, mid, res.bytes, t, leaf, n, lvl, stop);
  }

  method EvalFull(g: Prg, key: Key, logn: nat) returns (data: seq<Byte>)
    requires logn <= 63 && Packed(key, Stop(logn))
    ensures data == FullBytes(g, key, Stop(logn)) && |data| == 16 * Pow2(Stop(logn))
    ensures forall x: nat | x < 8 * |data| :: Bit(data, x) <==> Value(g, key, x, Stop(logn))
    ensures forall x: nat | x < 8 * |data| :: Outputs(g, key, x, logn, Bit(data, x))
  {
    var res := new ByteVec();
    KeyDescribes(g, key, Stop(logn));
    EvalFullRecursive(g, key, Node(ToBlock(key[..16]), key[16]), 0, Stop(logn), res,
      KeyTree(g, key, Stop(logn)), LeafOf(g, key));
    data := res.bytes;
    FullValue(g, key, Stop(logn), 0);
    forall x: nat | x < 8 * |data|
      ensures Bit(data, x) <==> Value(g, key, x, Stop(logn))
      ensures Outputs(g, key, x, logn, Bit(data, x))
    {
      FullValue(g, key, Stop(logn), x);
      ValueOutputs(g, key, x, logn);
    }
  }
}
