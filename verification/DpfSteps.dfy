/** What a key of the point function means, bit by bit: the bytes that lie in it,
    the steps down its tree, and its value, without the functions that compute them. */
module DpfSteps {
  import opened Bits
  import opened DpfBlocks
  import opened DpfTree
  import opened LevelTree

  // ---- Registers in a key

  /** A register is stored in the sixteen bytes from `at` on. */
  ghost predicate StoredAt(b: nat, key: Key, at: nat)
    requires at + 16 <= |key|
  {
    forall k {:trigger BitAt(b, k)} | 0 <= k < 128 :: BitAt(b, k) <==> BitAt(key[at + k / 8], k % 8)
  }

  lemma LoadedIsStored(b: Block, key: Key, at: nat)
    requires at + 16 <= |key| && b == ToBlock(key[at..at + 16])
    ensures StoredAt(b, key, at)
  {
    forall k: nat | k < 128 ensures BitAt(b, k) <==> BitAt(key[at + k / 8], k % 8) {
      ByteBit(key[at..at + 16], k);
    }
  }

  // ---- One step down

  /** The output of the generator on one side. */
  function Side(g: Prg, s: Block, right: bool): Block {
    if right then g.right(s) else g.left(s)
  }

  /** The seed below n: the output without its top bit, corrected by the word of the
      level if the control byte of n is set. */
  ghost predicate SeedBelow(g: Prg, key: Key, n: Node, m: Node, at: nat, right: bool)
    requires at + 18 <= |key|
  {
    forall k {:trigger BitAt(m.s, k)} | 0 <= k < 128 ::
      BitAt(m.s, k) <==> (k < 127 && BitAt(Side(g, n.s, right), k)) != (n.t != 0 && BitAt(key[at + k / 8], k % 8))
  }

  /** The control byte below n: the top bit of the output, corrected by the byte of its side. */
  ghost predicate ControlBelow(g: Prg, key: Key, n: Node, m: Node, at: nat, right: bool)
    requires at + 18 <= |key|
  {
    var w := key[if right then at + 17 else at + 16];
    forall k {:trigger BitAt(m.t, k)} | 0 <= k < 8 ::
      BitAt(m.t, k) <==> (k == 0 && BitAt(Side(g, n.s, right), 127)) != (n.t != 0 && BitAt(w, k))
  }

  /** m is the right or left child of n: eighteen bytes per level lie behind the root. */
  ghost predicate StepsTo(g: Prg, key: Key, n: Node, m: Node, lvl: nat, right: bool) {
    && 17 + 18 * lvl + 18 <= |key|
    && SeedBelow(g, key, n, m, 17 + 18 * lvl, right)
    && ControlBelow(g, key, n, m, 17 + 18 * lvl, right)
  }

  lemma SeedBit(c: Block, w: Block, t: Byte, k: nat)
    requires k < 128
    ensures BitAt(if t != 0 then XorBlock(Clr(c), w) else Clr(c), k) <==> (k < 127 && BitAt(c, k)) != (t != 0 && BitAt(w, k))
  {
    ClearedBit(c, k);
    BitAtXor(Clr(c), w, k);
  }

  lemma ControlBit(c: Block, w: Byte, t: Byte, k: nat)
    requires k < 8
    ensures BitAt(if t != 0 then XorByte(GetT(c), w) else GetT(c), k) <==>
      (k == 0 && BitAt(c, 127)) != (t != 0 && BitAt(w, k))
  {
    TopBit(c);
    BitAtXor(GetT(c), w, k);
    SmallBit(GetT(c), k);
  }

  lemma SmallBit(b: nat, k: nat)
    requires b < 2
    ensures BitAt(b, k) <==> k == 0 && b == 1
  {
    if k > 0 {
      BitAbove(b, 1, k);
    }
  }

  lemma ChildSteps(g: Prg, key: Key, n: Node, lvl: nat, right: bool)
    requires 17 + 18 * lvl + 18 <= |key|
    ensures StepsTo(g, key, n, Child(g, KeyWord(key, lvl), n, right), lvl, right)
  {
    var at, cw := 17 + 18 * lvl, KeyWord(key, lvl);
    var m, c := Child(g, cw, n, right), Side(g, n.s, right);
    assert 17 + lvl * 18 == at;
    LoadedIsStored(cw.s, key, at);
    forall k: nat | k < 128
      ensures BitAt(m.s, k) <==> (k < 127 && BitAt(c, k)) != (n.t != 0 && BitAt(key[at + k / 8], k % 8))
    {
      SeedBit(c, cw.s, n.t, k);
    }
    var w := if right then cw.tr else cw.tl;
    forall k: nat | k < 8
      ensures BitAt(m.t, k) <==> (k == 0 && BitAt(c, 127)) != (n.t != 0 && BitAt(w, k))
    {
      ControlBit(c, w, n.t, k);
    }
  }

  // ---- The path to a point

  /** The step from level lvl of a path follows one bit of x. */
  ghost predicate StepAt(g: Prg, key: Key, x: nat, logn: nat, ns: seq<Node>, lvl: nat) {
    && lvl + 1 < |ns| && lvl < logn
    && StepsTo(g, key, ns[lvl], ns[lvl + 1], lvl, BitAt(x, logn - 1 - lvl))
  }

  /** The nodes from the root of a key to the last level, on the path to x: seven levels
      are packed into the last word, which has sixteen bytes behind all others. */
  ghost predicate Descends(g: Prg, key: Key, x: nat, logn: nat, ns: seq<Node>) {
    && |ns| == (if logn >= 7 then logn - 7 else 0) + 1
    && |key| == 33 + 18 * (|ns| - 1)
    && StoredAt(ns[0].s, key, 0) && ns[0].t == key[16]
    && forall lvl: nat {:trigger StepAt(g, key, x, logn, ns, lvl)} | lvl + 1 < |ns| :: StepAt(g, key, x, logn, ns, lvl)
  }

  /** The output at x below a node of the last level: one bit of the converted seed,
      corrected by the last word if the control byte is set. */
  ghost predicate OutputBit(g: Prg, key: Key, x: nat, n: Node)
    requires |key| >= 16
  {
    var k := x % 128;
    BitAt(g.convert(n.s), k) != (n.t != 0 && BitAt(key[|key| - 16 + k / 8], k % 8))
  }

  ghost function PathOf(g: Prg, key: Key, x: nat, logn: nat): (ns: seq<Node>)
    requires Packed(key, Stop(logn)) && Stop(logn) <= logn
    ensures |ns| == Stop(logn) + 1
    ensures forall i | 0 <= i <= Stop(logn) ::
      ns[i] == NodeAt(KeyTree(g, key, Stop(logn)), PathNode(x, logn, i), i)
  {
    seq(Stop(logn) + 1, i requires 0 <= i <= Stop(logn) =>
      NodeAt(KeyTree(g, key, Stop(logn)), PathNode(x, logn, i), i))
  }

  lemma PathChild(g: Prg, key: Key, x: nat, logn: nat, lvl: nat)
    requires Packed(key, Stop(logn)) && lvl < Stop(logn) <= logn
    ensures 17 + 18 * lvl + 18 <= |key|
    ensures var t := KeyTree(g, key, Stop(logn));
      NodeAt(t, PathNode(x, logn, lvl + 1), lvl + 1) ==
      Child(g, KeyWord(key, lvl), NodeAt(t, PathNode(x, logn, lvl), lvl), BitAt(x, logn - 1 - lvl))
  {
    PathDown(KeyTree(g, key, Stop(logn)), x, logn, lvl);
    AndBit(x, logn - 1 - lvl);
  }

  lemma TreeStep(g: Prg, key: Key, x: nat, logn: nat, lvl: nat)
    requires Packed(key, Stop(logn)) && lvl < Stop(logn) <= logn
    ensures StepAt(g, key, x, logn, PathOf(g, key, x, logn), lvl)
  {
    PathChild(g, key, x, logn, lvl);
    ChildSteps(g, key, PathOf(g, key, x, logn)[lvl], lvl, BitAt(x, logn - 1 - lvl));
  }

  lemma PathDescends(g: Prg, key: Key, x: nat, logn: nat)
    requires Packed(key, Stop(logn)) && Stop(logn) <= logn
    ensures Descends(g, key, x, logn, PathOf(g, key, x, logn))
  {
    var ns := PathOf(g, key, x, logn);
    LoadedIsStored(Root(key).s, key, 0);
    assert ns[0] == Root(key);
    forall lvl: nat | lvl < Stop(logn) ensures StepAt(g, key, x, logn, ns, lvl) {
      TreeStep(g, key, x, logn, lvl);
    }
  }

  lemma LeafOutput(g: Prg, key: Key, x: nat, n: Node)
    requires |key| >= 16
    ensures BitAt(Leaf(g, key, n), x % 128) <==> OutputBit(g, key, x, n)
  {
    var last, at, k := FinalWord(key), |key| - 16, x % 128;
    assert key[at..at + 16] == key[at..];
    LoadedIsStored(last, key, at);
    BitAtXor(last, g.convert(n.s), k);
    assert BitAt(last, k) <==> BitAt(key[at + k / 8], k % 8);
  }

  /** The value at x is the output at the end of the path to x. */
  ghost predicate Outputs(g: Prg, key: Key, x: nat, logn: nat, bit: bool) {
    exists ns :: Descends(g, key, x, logn, ns) && bit == OutputBit(g, key, x, ns[|ns| - 1])
  }

  lemma PathLast(g: Prg, key: Key, x: nat, logn: nat)
    requires Packed(key, Stop(logn)) && x < 128 * Pow2(Stop(logn))
    ensures Stop(logn) <= logn
    ensures PathOf(g, key, x, logn)[Stop(logn)] == NodeAt(KeyTree(g, key, Stop(logn)), x / 128, Stop(logn))
  {
    if logn >= 7 {
      Pow2Add(logn - 7, 7);
      Pow2Small();
      PathEnds(x, logn);
    }
  }

  lemma ValueOutputs(g: Prg, key: Key, x: nat, logn: nat)
    requires Packed(key, Stop(logn)) && x < 128 * Pow2(Stop(logn))
    ensures Outputs(g, key, x, logn, Value(g, key, x, Stop(logn)))
  {
    PathLast(g, key, x, logn);
    PathDescends(g, key, x, logn);
    var ns := PathOf(g, key, x, logn);
    LeafOutput(g, key, x, ns[Stop(logn)]);
    assert OutputBit(g, key, x, ns[|ns| - 1]) == Value(g, key, x, Stop(logn));
  }
}
