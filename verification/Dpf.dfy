/** The two keys of a distributed point function, and the proof that they share
    the point function. */
module Dpf {
  import opened Bits
  import opened DpfBlocks
  import opened DpfTree
  import opened LevelTree

  // ---- Key generation as functions

  /** The correction word of one level, from the nodes of both parties on the path. */
  function GenWord(g: Prg, n0: Node, n1: Node, right: bool): CorrectionWord {
    var l0, r0, l1, r1 := g.left(n0.s), g.right(n0.s), g.left(n1.s), g.right(n1.s);
    if right then
      CorrectionWord(XorBlock(Clr(l0), Clr(l1)), XorByte(GetT(l0), GetT(l1)), XorByte(XorByte(GetT(r0), GetT(r1)), 1))
    else
      CorrectionWord(XorBlock(Clr(r0), Clr(r1)), XorByte(XorByte(GetT(l0), GetT(l1)), 1), XorByte(GetT(r0), GetT(r1)))
  }

  /** Whether the path to alpha turns right below level lvl. */
  predicate Turn(alpha: nat, logn: nat, lvl: nat)
    requires lvl < logn
  {
    BitAnd(alpha, Pow2(logn - 1 - lvl)) != 0
  }

  /** The nodes of both parties on the path to alpha. */
  function PathNodes(g: Prg, alpha: nat, logn: nat, s0: Block, s1: Block, lvl: nat): (Node, Node)
    requires lvl <= logn
  {
    if lvl == 0 then (Node(Clr(s0), GetT(s0)), Node(Clr(s1), 1 - GetT(s0)))
    else
      var (n0, n1) := PathNodes(g, alpha, logn, s0, s1, lvl - 1);
      var right := Turn(alpha, logn, lvl - 1);
      var cw := GenWord(g, n0, n1, right);
      (Child(g, cw, n0, right), Child(g, cw, n1, right))
  }

  function PathWord(g: Prg, alpha: nat, logn: nat, s0: Block, s1: Block, lvl: nat): CorrectionWord
    requires lvl < logn
  {
    var (n0, n1) := PathNodes(g, alpha, logn, s0, s1, lvl);
    GenWord(g, n0, n1, Turn(alpha, logn, lvl))
  }

  /** The last correction word fixes the 128 bits below the end of the path. */
  function LastWord(g: Prg, alpha: nat, n0: Node, n1: Node): Block {
    XorBlock(XorBlock(OneHotBlock(alpha % 128), g.convert(n0.s)), g.convert(n1.s))
  }

  predicate SharedWord(g: Prg, alpha: nat, logn: nat, s0: Block, s1: Block, ka: Key, kb: Key, lvl: nat)
    requires lvl < Stop(logn) && Packed(ka, Stop(logn)) && Packed(kb, Stop(logn))
  {
    KeyWord(ka, lvl) == KeyWord(kb, lvl) == PathWord(g, alpha, logn, s0, s1, lvl)
  }

  /** Both keys pack their own root and the same correction words of all levels. */
  ghost predicate Paired(g: Prg, alpha: nat, logn: nat, s0: Block, s1: Block, ka: Key, kb: Key) {
    && Packed(ka, Stop(logn))
    && Packed(kb, Stop(logn))
    && Root(ka) == Node(Clr(s0), GetT(s0))
    && Root(kb) == Node(Clr(s1), 1 - GetT(s0))
    && forall lvl | 0 <= lvl < Stop(logn) :: SharedWord(g, alpha, logn, s0, s1, ka, kb, lvl)
  }

  /** Both keys end in the word that corrects the leaves at the end of the path. */
  ghost predicate SharedEnd(g: Prg, alpha: nat, logn: nat, s0: Block, s1: Block, ka: Key, kb: Key)
    requires |ka| >= 16 && |kb| >= 16
  {
    var ns := PathNodes(g, alpha, logn, s0, s1, Stop(logn));
    FinalWord(ka) == FinalWord(kb) == LastWord(g, alpha, ns.0, ns.1)
  }

  /** What key generation promises about the two byte strings. */
  ghost predicate KeyPair(g: Prg, alpha: nat, logn: nat, s0: Block, s1: Block, ka: Key, kb: Key) {
    Paired(g, alpha, logn, s0, s1, ka, kb) && SharedEnd(g, alpha, logn, s0, s1, ka, kb)
  }

  // ---- The two-party invariant

  predicate OneControls(n0: Node, n1: Node) {
    (n0.t == 0 && n1.t == 1) || (n0.t == 1 && n1.t == 0)
  }

  lemma ControlXor(a: Byte, b: Byte)
    requires (a == 0 || a == 1) && (b == 0 || b == 1)
    ensures XorByte(a, XorByte(XorByte(a, b), 1)) == 1 - b
    ensures XorByte(a, XorByte(a, b)) == b && XorByte(b, XorByte(a, b)) == a
    ensures XorByte(b, XorByte(XorByte(a, b), 1)) == 1 - a
  {
    XorBits(a, b);
    XorBits(XorByte(a, b), 1);
    XorBits(a, XorByte(XorByte(a, b), 1));
    XorBits(b, XorByte(XorByte(a, b), 1));
    XorBits(a, XorByte(a, b));
    XorBits(b, XorByte(a, b));
  }

  lemma XorBits(a: Byte, b: Byte)
    requires (a == 0 || a == 1) && (b == 0 || b == 1)
    ensures XorByte(a, b) == if a == b then 0 else 1
  {
  }

  /** On the side that the path takes, exactly one control bit stays set. */
  lemma KeepSide(g: Prg, n0: Node, n1: Node, right: bool)
    requires OneControls(n0, n1)
    ensures var cw := GenWord(g, n0, n1, right); OneControls(Child(g, cw, n0, right), Child(g, cw, n1, right))
  {
    var c0 := if right then g.right(n0.s) else g.left(n0.s);
    var c1 := if right then g.right(n1.s) else g.left(n1.s);
    ControlXor(GetT(c0), GetT(c1));
    ControlXor(GetT(c1), GetT(c0));
  }

  lemma XorLeft(a: Block, b: Block)
    ensures XorBlock(a, XorBlock(a, b)) == b && XorBlock(b, XorBlock(a, b)) == a
  {
    XorCommutes(a, b);
    XorCommutes(a, XorBlock(a, b));
    XorCommutes(b, XorBlock(a, b));
    XorCancel(b, a);
    XorCancel(a, b);
  }

  /** On the other side both parties arrive at the same node. */
  lemma LoseSide(g: Prg, n0: Node, n1: Node, right: bool)
    requires OneControls(n0, n1)
    ensures var cw := GenWord(g, n0, n1, right); Child(g, cw, n0, !right) == Child(g, cw, n1, !right)
  {
    var c0 := if right then g.left(n0.s) else g.right(n0.s);
    var c1 := if right then g.left(n1.s) else g.right(n1.s);
    ControlXor(GetT(c0), GetT(c1));
    XorLeft(Clr(c0), Clr(c1));
  }

  /** The nodes of the two parties at one place: the path nodes, or one and the same. */
  predicate Agree(ns: (Node, Node), onPath: bool, a: Node, b: Node) {
    if onPath then a == ns.0 && b == ns.1 else a == b
  }

  lemma StepDown(g: Prg, ns: (Node, Node), a: Node, b: Node, turn: bool, onPath: bool, right: bool, cw: CorrectionWord)
    requires OneControls(ns.0, ns.1) && Agree(ns, onPath, a, b) && cw == GenWord(g, ns.0, ns.1, turn)
    ensures Agree((Child(g, cw, ns.0, turn), Child(g, cw, ns.1, turn)), onPath && right == turn,
              Child(g, cw, a, right), Child(g, cw, b, right))
  {
    LoseSide(g, ns.0, ns.1, turn);
  }

  /** The two-party invariant: exactly one control bit is set on the path to alpha,
      where both keys evaluate to the nodes of key generation; elsewhere both
      evaluate to the same node. */
  ghost predicate Invariant(g: Prg, alpha: nat, logn: nat, s0: Block, s1: Block,
      ta: Tree<Node>, tb: Tree<Node>, j: nat, lvl: nat)
    requires lvl <= logn
  {
    var ns := PathNodes(g, alpha, logn, s0, s1, lvl);
    OneControls(ns.0, ns.1) && Agree(ns, j == PathNode(alpha, logn, lvl), NodeAt(ta, j, lvl), NodeAt(tb, j, lvl))
  }

  /** Below node j both trees step down with the correction word of key generation. */
  predicate StepsDown(g: Prg, cw: CorrectionWord, ta: Tree<Node>, tb: Tree<Node>, j: nat, lvl: nat) {
    forall right | right in {false, true} ::
      && ta.down(lvl, NodeAt(ta, j, lvl), right) == Child(g, cw, NodeAt(ta, j, lvl), right)
      && tb.down(lvl, NodeAt(tb, j, lvl), right) == Child(g, cw, NodeAt(tb, j, lvl), right)
  }

  /** Two trees that start at the two roots and share the correction words. */
  ghost predicate Twins(g: Prg, alpha: nat, logn: nat, s0: Block, s1: Block, ta: Tree<Node>, tb: Tree<Node>) {
    && (ta.root, tb.root) == PathNodes(g, alpha, logn, s0, s1, 0)
    && forall j: nat, lvl: nat | lvl < Stop(logn) ::
        StepsDown(g, PathWord(g, alpha, logn, s0, s1, lvl), ta, tb, j, lvl)
  }

  lemma PairedTwins(g: Prg, alpha: nat, logn: nat, s0: Block, s1: Block, ka: Key, kb: Key)
    requires Paired(g, alpha, logn, s0, s1, ka, kb)
    ensures Twins(g, alpha, logn, s0, s1, KeyTree(g, ka, Stop(logn)), KeyTree(g, kb, Stop(logn)))
  {
    var ta, tb := KeyTree(g, ka, Stop(logn)), KeyTree(g, kb, Stop(logn));
    forall j: nat, lvl: nat | lvl < Stop(logn)
      ensures StepsDown(g, PathWord(g, alpha, logn, s0, s1, lvl), ta, tb, j, lvl)
    {
      assert SharedWord(g, alpha, logn, s0, s1, ka, kb, lvl);
    }
  }

  lemma {:induction false} TwoParties(g: Prg, alpha: nat, logn: nat, s0: Block, s1: Block,
      ta: Tree<Node>, tb: Tree<Node>, j: nat, lvl: nat)
    requires Twins(g, alpha, logn, s0, s1, ta, tb) && alpha < Pow2(logn)
    requires lvl <= Stop(logn) && j < Pow2(lvl)
    ensures Invariant(g, alpha, logn, s0, s1, ta, tb, j, lvl)
    decreases lvl
  {
    if lvl == 0 {
      PathEnds(alpha, logn);
    } else {
      TwoParties(g, alpha, logn, s0, s1, ta, tb, j / 2, lvl - 1);
      LevelBelow(g, alpha, logn, s0, s1, ta, tb, j, lvl);
    }
  }

  lemma LevelBelow(g: Prg, alpha: nat, logn: nat, s0: Block, s1: Block,
      ta: Tree<Node>, tb: Tree<Node>, j: nat, lvl: nat)
    requires 0 < lvl <= Stop(logn) && Twins(g, alpha, logn, s0, s1, ta, tb)
    requires Invariant(g, alpha, logn, s0, s1, ta, tb, j / 2, lvl - 1)
    ensures Invariant(g, alpha, logn, s0, s1, ta, tb, j, lvl)
  {
    assert StepsDown(g, PathWord(g, alpha, logn, s0, s1, lvl - 1), ta, tb, j / 2, lvl - 1);
    NextLevel(g, alpha, logn, s0, s1, ta, tb, j, lvl);
  }

  lemma NextLevel(g: Prg, alpha: nat, logn: nat, s0: Block, s1: Block, ta: Tree<Node>, tb: Tree<Node>, j: nat, lvl: nat)
    requires 0 < lvl <= logn
    requires StepsDown(g, PathWord(g, alpha, logn, s0, s1, lvl - 1), ta, tb, j / 2, lvl - 1)
    requires Invariant(g, alpha, logn, s0, s1, ta, tb, j / 2, lvl - 1)
    ensures Invariant(g, alpha, logn, s0, s1, ta, tb, j, lvl)
  {
    var ns, turn := PathNodes(g, alpha, logn, s0, s1, lvl - 1), Turn(alpha, logn, lvl - 1);
    var cw := PathWord(g, alpha, logn, s0, s1, lvl - 1);
    var a, b := NodeAt(ta, j / 2, lvl - 1), NodeAt(tb, j / 2, lvl - 1);
    KeepSide(g, ns.0, ns.1, turn);
    StepDown(g, ns, a, b, turn, j / 2 == PathNode(alpha, logn, lvl - 1), j % 2 == 1, cw);
    OnPathBelow(alpha, logn, lvl - 1, j);
  }

  lemma OnPathBelow(alpha: nat, logn: nat, lvl: nat, j: nat)
    requires lvl < logn
    ensures j == PathNode(alpha, logn, lvl + 1) <==>
      j / 2 == PathNode(alpha, logn, lvl) && (j % 2 == 1) == Turn(alpha, logn, lvl)
  {
    PathStep(alpha, logn, lvl);
  }

  /** At the end of the path the leaves differ in exactly the bit of alpha. */
  lemma PathLeaves(g: Prg, alpha: nat, ka: Key, kb: Key, n0: Node, n1: Node, k: nat)
    requires OneControls(n0, n1) && |ka| >= 16 && |kb| >= 16 && k < 128
    requires FinalWord(ka) == FinalWord(kb) == LastWord(g, alpha, n0, n1)
    ensures BitAt(Leaf(g, ka, n0), k) != BitAt(Leaf(g, kb, n1), k) <==> k == alpha % 128
  {
    var o, c0, c1 := OneHotBlock(alpha % 128), g.convert(n0.s), g.convert(n1.s);
    var last := LastWord(g, alpha, n0, n1);
    BitAtXor(o, c0, k);
    BitAtXor(XorBlock(o, c0), c1, k);
    BitAtXor(last, c0, k);
    BitAtXor(last, c1, k);
    OneHotBit(alpha % 128, k);
  }

  /** The two keys share the point function: their values differ exactly at alpha. */
  lemma PointFunction(g: Prg, alpha: nat, logn: nat, s0: Block, s1: Block, ka: Key, kb: Key, x: nat)
    requires KeyPair(g, alpha, logn, s0, s1, ka, kb) && alpha < Pow2(logn) && x < Pow2(logn)
    ensures Value(g, ka, x, Stop(logn)) != Value(g, kb, x, Stop(logn)) <==> x == alpha
  {
    LeafNumber(x, logn);
    PairedTwins(g, alpha, logn, s0, s1, ka, kb);
    SameValue(g, alpha, logn, s0, s1, ka, kb, KeyTree(g, ka, Stop(logn)), KeyTree(g, kb, Stop(logn)), x);
  }

  lemma LeafNumber(x: nat, logn: nat)
    requires x < Pow2(logn)
    ensures x / 128 < Pow2(Stop(logn))
  {
    PathEnds(x, logn);
    ShrBound(x, logn - Stop(logn), logn);
  }

  lemma SameValue(g: Prg, alpha: nat, logn: nat, s0: Block, s1: Block,
      ka: Key, kb: Key, ta: Tree<Node>, tb: Tree<Node>, x: nat)
    requires |ka| >= 16 && |kb| >= 16 && SharedEnd(g, alpha, logn, s0, s1, ka, kb) && alpha < Pow2(logn)
    requires Twins(g, alpha, logn, s0, s1, ta, tb) && x / 128 < Pow2(Stop(logn))
    ensures var na, nb := NodeAt(ta, x / 128, Stop(logn)), NodeAt(tb, x / 128, Stop(logn));
      BitAt(Leaf(g, ka, na), x % 128) != BitAt(Leaf(g, kb, nb), x % 128) <==> x == alpha
  {
    var ns := PathNodes(g, alpha, logn, s0, s1, Stop(logn));
    PathEnds(alpha, logn);
    TwoParties(g, alpha, logn, s0, s1, ta, tb, x / 128, Stop(logn));
    if x / 128 == alpha / 128 {
      PathLeaves(g, alpha, ka, kb, ns.0, ns.1, x % 128);
    }
  }
}
