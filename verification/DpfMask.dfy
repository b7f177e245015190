/** The branch-free step of the eight-lane evaluator: control bytes become masks
    instead of conditions. */
module DpfMask {
  import opened Bits
  import opened DpfBlocks
  import opened DpfSteps
  import opened DpfTree
  import opened DpfEval
  import opened LevelTree

  function AndBlock(a: Block, m: nat): Block {
    AndBound(a, m);
    BitAnd(a, m)
  }

  function AndByte(a: Byte, m: nat): Byte {
    AndBound(a, m);
    BitAnd(a, m)
  }

  /** A register that holds sixteen copies of the byte `-t`. */
  function MaskOf(t: Byte): nat {
    Splat((256 - t) % 256, 8, 16)
  }

  function MaskedChild(g: Prg, cw: CorrectionWord, n: Node, right: bool): Node {
    var c := if right then g.right(n.s) else g.left(n.s);
    var tCW := if right then cw.tr else cw.tl;
    Node(XorBlock(Clr(c), AndBlock(cw.s, MaskOf(n.t))), XorByte(GetT(c), AndByte(tCW, n.t)))
  }

  function MaskedLeaf(g: Prg, key: Key, n: Node): Block
    requires |key| >= 16
  {
    XorBlock(g.convert(n.s), AndBlock(FinalWord(key), MaskOf(n.t)))
  }

  // ---- The masked step bit by bit

  /** Bit k of the mask is bit k mod 8 of the byte `-t`. */
  lemma MaskBit(t: Byte, k: nat)
    requires k < 128
    ensures BitAt(MaskOf(t), k) <==> BitAt((256 - t) % 256, k % 8)
  {
    BitAtFields(seq(16, _ => (256 - t) % 256), 8, k / 8, k % 8);
  }

  /** For any control byte, the masked child: the masked bytes of the key correct the seed,
      and the bits of the control byte select the bits of its correction. */
  lemma MaskedChildBits(g: Prg, key: Key, n: Node, lvl: nat, right: bool, k: nat)
    requires 17 + 18 * lvl + 18 <= |key| && k < 128
    ensures var at, m, c := 17 + 18 * lvl, MaskedChild(g, KeyWord(key, lvl), n, right), Side(g, n.s, right);
      && (BitAt(m.s, k) <==>
           (k < 127 && BitAt(c, k)) != (BitAt((256 - n.t) % 256, k % 8) && BitAt(key[at + k / 8], k % 8)))
      && (BitAt(m.t, k) <==>
           (k == 0 && BitAt(c, 127)) != (BitAt(n.t, k) && BitAt(key[if right then at + 17 else at + 16], k)))
  {
    var at, cw, c := 17 + 18 * lvl, KeyWord(key, lvl), Side(g, n.s, right);
    assert 17 + lvl * 18 == at;
    LoadedIsStored(cw.s, key, at);
    assert BitAt(cw.s, k) <==> BitAt(key[at + k / 8], k % 8);
    var w := if right then cw.tr else cw.tl;
    MaskBit(n.t, k);
    BitAtAnd(cw.s, MaskOf(n.t), k);
    BitAtXor(Clr(c), AndBlock(cw.s, MaskOf(n.t)), k);
    ClearedBit(c, k);
    BitAtAnd(w, n.t, k);
    BitAtXor(GetT(c), AndByte(w, n.t), k);
    SmallBit(GetT(c), k);
    TopBit(c);
  }

  /** The masked output of a leaf. */
  lemma MaskedLeafBits(g: Prg, key: Key, n: Node, k: nat)
    requires |key| >= 16 && k < 128
    ensures BitAt(MaskedLeaf(g, key, n), k) <==>
      BitAt(g.convert(n.s), k) != (BitAt((256 - n.t) % 256, k % 8) && BitAt(key[|key| - 16 + k / 8], k % 8))
  {
    var last, at := FinalWord(key), |key| - 16;
    assert key[at..at + 16] == key[at..];
    LoadedIsStored(last, key, at);
    assert BitAt(last, k) <==> BitAt(key[at + k / 8], k % 8);
    MaskBit(n.t, k);
    BitAtAnd(last, MaskOf(n.t), k);
    BitAtXor(g.convert(n.s), AndBlock(last, MaskOf(n.t)), k);
  }

  // ---- With a control bit, masking is the condition

  predicate IsBit(t: Byte) {
    t == 0 || t == 1
  }

  lemma MaskZero(t: Byte)
    requires t == 0
    ensures MaskOf(t) == 0
  {
    FieldsOfZero(seq(16, _ => (256 - t) % 256), 8);
  }

  lemma MaskOne(t: Byte)
    requires t == 1
    ensures MaskOf(t) == Mask(128)
  {
    Pow2Small();
    FieldsOfOnes(seq(16, _ => (256 - t) % 256), 8);
  }

  lemma AndMaskOf(x: Block, t: Byte)
    requires IsBit(t)
    ensures AndBlock(x, MaskOf(t)) == if t == 1 then x else 0
  {
    if t == 0 {
      MaskZero(t);
      AndZero(x);
    } else {
      MaskOne(t);
      BlockPower();
      AndOnes(x, 128);
    }
  }

  lemma AndControl(x: Byte, t: Byte)
    requires IsBit(x) && IsBit(t)
    ensures AndByte(x, t) == if t == 1 then x else 0
  {
    if t == 0 {
      AndZero(x);
    }
  }

  lemma XorNothing(b: Block, t: Byte)
    ensures XorBlock(b, 0) == b && XorByte(t, 0) == t
  {
    XorWithZero(b);
    XorWithZero(t);
  }

  lemma XorOfBits(a: Byte, b: Byte)
    requires IsBit(a) && IsBit(b)
    ensures IsBit(XorByte(a, b))
  {
  }

  lemma MaskedIsChild(g: Prg, cw: CorrectionWord, n: Node, right: bool)
    requires IsBit(n.t) && IsBit(cw.tl) && IsBit(cw.tr)
    ensures MaskedChild(g, cw, n, right) == Child(g, cw, n, right)
    ensures IsBit(Child(g, cw, n, right).t)
  {
    var c := if right then g.right(n.s) else g.left(n.s);
    var tCW := if right then cw.tr else cw.tl;
    AndMaskOf(cw.s, n.t);
    AndControl(tCW, n.t);
    XorNothing(Clr(c), GetT(c));
    XorOfBits(GetT(c), tCW);
  }

  lemma MaskedIsLeaf(g: Prg, key: Key, n: Node)
    requires |key| >= 16 && IsBit(n.t)
    ensures MaskedLeaf(g, key, n) == Leaf(g, key, n)
  {
    AndMaskOf(FinalWord(key), n.t);
    XorNothing(g.convert(n.s), 0);
    XorCommutes(g.convert(n.s), FinalWord(key));
  }

  // ---- Whole trees

  function MaskedTree(g: Prg, key: Key, stop: nat): Tree<Node>
    requires Packed(key, stop)
  {
    Tree(Root(key), (lvl: nat, n: Node, right: bool) =>
      if lvl < stop then MaskedChild(g, KeyWord(key, lvl), n, right) else n)
  }

  function MaskedLeafOf(g: Prg, key: Key): Node -> Block
    requires |key| >= 16
  {
    n => MaskedLeaf(g, key, n)
  }

  ghost predicate DescribesMasked(t: Tree<Node>, leaf: Node -> Block, g: Prg, key: Key, stop: nat) {
    && Packed(key, stop)
    && (forall lvl: nat, n {:trigger At(lvl, n)} | At(lvl, n) && lvl < stop ::
          && t.down(lvl, n, false) == MaskedChild(g, KeyWord(key, lvl), n, false)
          && t.down(lvl, n, true) == MaskedChild(g, KeyWord(key, lvl), n, true))
    && (forall n {:trigger At(stop, n)} | At(stop, n) :: leaf(n) == MaskedLeaf(g, key, n))
  }

  lemma MaskedDescribes(g: Prg, key: Key, stop: nat)
    requires Packed(key, stop)
    ensures DescribesMasked(MaskedTree(g, key, stop), MaskedLeafOf(g, key), g, key, stop)
  {
  }

  predicate BitWord(key: Key, lvl: nat)
    requires |key| >= 17 + 18 * lvl + 18
  {
    IsBit(KeyWord(key, lvl).tl) && IsBit(KeyWord(key, lvl).tr)
  }

  /** From a level on, the control bytes of all correction words are bits. */
  ghost predicate ControlBits(key: Key, stop: nat, from: nat)
    requires Packed(key, stop)
  {
    forall lvl {:trigger BitWord(key, lvl)} | from <= lvl < stop :: BitWord(key, lvl)
  }

  /** From a level on, the two trees agree below nodes whose control byte is a bit. */
  ghost predicate Matching(t: Tree<Node>, leaf: Node -> Block, mt: Tree<Node>, mleaf: Node -> Block, from: nat, stop: nat) {
    && (forall lvl: nat, n {:trigger At(lvl, n)} | At(lvl, n) && from <= lvl < stop && IsBit(n.t) ::
          && mt.down(lvl, n, false) == t.down(lvl, n, false) && IsBit(t.down(lvl, n, false).t)
          && mt.down(lvl, n, true) == t.down(lvl, n, true) && IsBit(t.down(lvl, n, true).t))
    && (forall n {:trigger At(stop, n)} | At(stop, n) && IsBit(n.t) :: mleaf(n) == leaf(n))
  }

  lemma MaskedMatches(g: Prg, key: Key, stop: nat, from: nat)
    requires Packed(key, stop) && ControlBits(key, stop, from)
    ensures Matching(KeyTree(g, key, stop), LeafOf(g, key), MaskedTree(g, key, stop), MaskedLeafOf(g, key), from, stop)
  {
    forall lvl: nat, n: Node, right: bool | from <= lvl < stop && IsBit(n.t)
      ensures MaskedChild(g, KeyWord(key, lvl), n, right) == Child(g, KeyWord(key, lvl), n, right)
      ensures IsBit(Child(g, KeyWord(key, lvl), n, right).t)
    {
      assert BitWord(key, lvl);
      MaskedIsChild(g, KeyWord(key, lvl), n, right);
    }
    forall n: Node | IsBit(n.t) ensures MaskedLeaf(g, key, n) == Leaf(g, key, n) {
      MaskedIsLeaf(g, key, n);
    }
  }

  /** Below a node with a control bit, masking computes the same bytes. */
  lemma {:induction false} SameBytes(t: Tree<Node>, leaf: Node -> Block, mt: Tree<Node>, mleaf: Node -> Block,
      n: Node, lvl: nat, from: nat, stop: nat)
    requires Matching(t, leaf, mt, mleaf, from, stop)
    requires from <= lvl <= stop && IsBit(n.t)
    ensures TreeBytes(mt, mleaf, n, lvl, stop) == TreeBytes(t, leaf, n, lvl, stop)
    decreases stop - lvl
  {
    assert At(lvl, n);
    if lvl < stop {
      SameBytes(t, leaf, mt, mleaf, t.down(lvl, n, false), lvl + 1, from, stop);
      SameBytes(t, leaf, mt, mleaf, t.down(lvl, n, true), lvl + 1, from, stop);
    }
  }
}
