/** The key-dependent tree of the distributed point function: nodes, byte-packed
    keys, and the function that a key describes. */
module DpfTree {
  import opened Bits
  import opened DpfBlocks
  import opened LevelTree

  /** The length-doubling generator and the leaf conversion, as arbitrary functions. */
  datatype Prg = Prg(left: Block -> Block, right: Block -> Block, convert: Block -> Block)

  /** A seed and its control byte. */
  datatype Node = Node(s: Block, t: Byte)

  /** A correction word: a seed and the control bytes of both sides. */
  datatype CorrectionWord = CorrectionWord(s: Block, tl: Byte, tr: Byte)

  // ---- Byte-packed keys

  /** The levels above the leaves: seven levels are packed into the last word. */
  function Stop(logn: nat): nat {
    if logn >= 7 then logn - 7 else 0
  }

  function KeyLength(stop: nat): nat {
    17 + 18 * stop + 16
  }

  type Key = seq<Byte>

  predicate Packed(key: Key, stop: nat) {
    |key| == KeyLength(stop)
  }

  function Root(key: Key): Node
    requires |key| >= 17
  {
    Node(ToBlock(key[..16]), key[16])
  }

  function KeyWord(key: Key, lvl: nat): CorrectionWord
    requires |key| >= 17 + 18 * lvl + 18
  {
    CorrectionWord(ToBlock(key[17 + lvl * 18..17 + lvl * 18 + 16]), key[17 + lvl * 18 + 16], key[17 + lvl * 18 + 17])
  }

  function FinalWord(key: Key): Block
    requires |key| >= 16
  {
    ToBlock(key[|key| - 16..])
  }

  // ---- The tree of a key

  /** One child of a node; a set control byte applies the correction word. */
  function Child(g: Prg, cw: CorrectionWord, n: Node, right: bool): Node {
    var c := if right then g.right(n.s) else g.left(n.s);
    if n.t != 0 then Node(XorBlock(Clr(c), cw.s), XorByte(GetT(c), if right then cw.tr else cw.tl))
    else Node(Clr(c), GetT(c))
  }

  function KeyTree(g: Prg, key: Key, stop: nat): Tree<Node>
    requires Packed(key, stop)
  {
    Tree(Root(key), (lvl: nat, n: Node, right: bool) => if lvl < stop then Child(g, KeyWord(key, lvl), n, right) else n)
  }

  /** The 128 output bits below a node of the last level. */
  function Leaf(g: Prg, key: Key, n: Node): Block
    requires |key| >= 16
  {
    if n.t != 0 then XorBlock(FinalWord(key), g.convert(n.s)) else g.convert(n.s)
  }

  /** The value of the function that a key describes, at the point x. */
  predicate Value(g: Prg, key: Key, x: nat, stop: nat)
    requires Packed(key, stop)
  {
    BitAt(Leaf(g, key, NodeAt(KeyTree(g, key, stop), x / 128, stop)), x % 128)
  }

  // ---- Paths to the packed leaves

  lemma ShrSeven(x: nat)
    ensures Shr(x, 7) == x / 128
  {
    var a := x / 2;
    var b := a / 2;
    var c := b / 2;
    assert Shr(x, 7) == Shr(a, 6) == Shr(b, 5) == Shr(c, 4);
    assert Shr(c, 4) == Shr(c / 2, 3) == Shr(c / 2 / 2, 2) == Shr(c / 2 / 2 / 2, 1) == Shr(c / 2 / 2 / 2 / 2, 0);
  }

  lemma PathEnds(x: nat, logn: nat)
    requires x < Pow2(logn)
    ensures PathNode(x, logn, 0) == 0
    ensures Stop(logn) <= logn && PathNode(x, logn, Stop(logn)) == x / 128
  {
    ShrBound(x, logn, logn);
    if logn >= 7 {
      ShrSeven(x);
    } else {
      Pow2Monotone(logn, 7);
      assert Pow2(7) == 128;
    }
  }

  lemma ModuloBits(x: nat)
    ensures BitAnd(x, 127) == x % 128
  {
    AndMask(x, 7);
    assert Mask(7) == 127;
    LowSeven(x);
  }

  lemma LowSeven(x: nat)
    ensures Low(x, 7) == x % 128
  {
    JoinSplit(x, 7);
    LowBound(x, 7);
    ShrSeven(x);
    JoinSeven(Shr(x, 7), Low(x, 7));
    assert Pow2(7) == 128;
  }

  lemma JoinSeven(hi: nat, lo: nat)
    requires lo < 128
    ensures Join(hi, lo, 7) == 128 * hi + lo
  {
    assert Pow2(7) == 128;
    JoinSum(hi, lo, 7);
  }
}
