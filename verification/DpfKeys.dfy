/** What key generation writes into the two keys, bit by bit: the roots, the
    correction word of every level and the last word, from the nodes that the keys
    themselves lead to on the path to alpha. */
module DpfKeys {
  import opened Bits
  import opened Dpf
  import opened DpfBlocks
  import opened DpfSteps
  import opened DpfTree
  import opened LevelTree

  /** The root is the seed without its top bit. */
  ghost predicate RootBits(key: Key, seed: Block)
    requires |key| >= 17
  {
    forall k {:trigger BitAt(seed, k)} | 0 <= k < 128 :: BitAt(key[k / 8], k % 8) <==> k < 127 && BitAt(seed, k)
  }

  /** The seed of a correction word: both outputs on the side that the path leaves. */
  ghost predicate LostSeeds(g: Prg, key: Key, a: Block, b: Block, at: nat, lose: bool)
    requires at + 18 <= |key|
  {
    forall k {:trigger BitAt(Side(g, a, lose), k)} | 0 <= k < 128 ::
      BitAt(key[at + k / 8], k % 8) <==> k < 127 && BitAt(Side(g, a, lose), k) != BitAt(Side(g, b, lose), k)
  }

  /** A control byte of a correction word: the top bits of both outputs of its side, and
      one more on the side of the path. */
  predicate ControlWord(g: Prg, w: Byte, a: Block, b: Block, side: bool, right: bool) {
    w == if (BitAt(Side(g, a, side), 127) != BitAt(Side(g, b, side), 127)) != (side == right) then 1 else 0
  }

  /** The correction word of level lvl, from the seeds of both parties on the path. */
  ghost predicate WordBits(g: Prg, key: Key, a: Block, b: Block, lvl: nat, right: bool) {
    var at := 17 + 18 * lvl;
    && at + 18 <= |key|
    && LostSeeds(g, key, a, b, at, !right)
    && ControlWord(g, key[at + 16], a, b, false, right)
    && ControlWord(g, key[at + 17], a, b, true, right)
  }

  /** The last word: the bit of alpha and both converted seeds. */
  ghost predicate EndBits(g: Prg, key: Key, a: Block, b: Block, alpha: nat)
    requires |key| >= 16
  {
    forall k {:trigger BitAt(g.convert(a), k)} | 0 <= k < 128 ::
      BitAt(key[|key| - 16 + k / 8], k % 8) <==> ((k == alpha % 128) != BitAt(g.convert(a), k)) != BitAt(g.convert(b), k)
  }

  /** Both keys hold the same correction word of level lvl. */
  ghost predicate WordAt(g: Prg, alpha: nat, logn: nat, ka: Key, kb: Key, na: seq<Node>, nb: seq<Node>, lvl: nat) {
    && lvl < |na| && lvl < |nb| && lvl < logn
    && WordBits(g, ka, na[lvl].s, nb[lvl].s, lvl, BitAt(alpha, logn - 1 - lvl))
    && WordBits(g, kb, na[lvl].s, nb[lvl].s, lvl, BitAt(alpha, logn - 1 - lvl))
  }

  /** All bytes of two keys for alpha, from the seeds s0 and s1. */
  ghost predicate Written(g: Prg, alpha: nat, logn: nat, s0: Block, s1: Block, ka: Key, kb: Key,
      na: seq<Node>, nb: seq<Node>) {
    && Descends(g, ka, alpha, logn, na)
    && Descends(g, kb, alpha, logn, nb)
    && RootBits(ka, s0) && ka[16] == (if BitAt(s0, 127) then 1 else 0)
    && RootBits(kb, s1) && kb[16] == (if BitAt(s0, 127) then 0 else 1)
    && (forall lvl: nat {:trigger WordAt(g, alpha, logn, ka, kb, na, nb, lvl)} | lvl + 1 < |na| ::
          WordAt(g, alpha, logn, ka, kb, na, nb, lvl))
    && EndBits(g, ka, na[|na| - 1].s, nb[|nb| - 1].s, alpha)
    && EndBits(g, kb, na[|na| - 1].s, nb[|nb| - 1].s, alpha)
  }

  // ---- The parts of a key

  lemma RootWritten(key: Key, seed: Block)
    requires |key| >= 17 && Root(key).s == Clr(seed)
    ensures RootBits(key, seed)
  {
    LoadedIsStored(Root(key).s, key, 0);
    forall k: nat | k < 128 ensures BitAt(key[k / 8], k % 8) <==> k < 127 && BitAt(seed, k) {
      ClearedBit(seed, k);
      assert BitAt(Root(key).s, k) <==> BitAt(key[0 + k / 8], k % 8);
    }
  }

  lemma LostWritten(g: Prg, key: Key, a: Block, b: Block, w: Block, at: nat, lose: bool)
    requires at + 18 <= |key| && StoredAt(w, key, at)
    requires w == XorBlock(Clr(Side(g, a, lose)), Clr(Side(g, b, lose)))
    ensures LostSeeds(g, key, a, b, at, lose)
  {
    var c, d := Side(g, a, lose), Side(g, b, lose);
    forall k: nat {:trigger BitAt(Side(g, a, lose), k)} | k < 128
      ensures BitAt(key[at + k / 8], k % 8) <==> k < 127 && BitAt(Side(g, a, lose), k) != BitAt(Side(g, b, lose), k)
    {
      assert BitAt(w, k) <==> BitAt(key[at + k / 8], k % 8);
      BitAtXor(Clr(c), Clr(d), k);
      ClearedBit(c, k);
      ClearedBit(d, k);
    }
  }

  lemma ControlWritten(g: Prg, w: Byte, a: Block, b: Block, side: bool, right: bool)
    requires var c := XorByte(GetT(Side(g, a, side)), GetT(Side(g, b, side)));
      w == if side == right then XorByte(c, 1) else c
    ensures ControlWord(g, w, a, b, side, right)
  {
    var x, y := GetT(Side(g, a, side)), GetT(Side(g, b, side));
    TopBit(Side(g, a, side));
    TopBit(Side(g, b, side));
    XorBits(x, y);
    XorBits(XorByte(x, y), 1);
  }

  lemma WordWritten(g: Prg, key: Key, n0: Node, n1: Node, lvl: nat, right: bool)
    requires 17 + 18 * lvl + 18 <= |key| && KeyWord(key, lvl) == GenWord(g, n0, n1, right)
    ensures WordBits(g, key, n0.s, n1.s, lvl, right)
  {
    var at, cw := 17 + 18 * lvl, KeyWord(key, lvl);
    assert 17 + lvl * 18 == at;
    LoadedIsStored(cw.s, key, at);
    LostWritten(g, key, n0.s, n1.s, cw.s, at, !right);
    ControlWritten(g, cw.tl, n0.s, n1.s, false, right);
    ControlWritten(g, cw.tr, n0.s, n1.s, true, right);
  }

  lemma EndWritten(g: Prg, key: Key, n0: Node, n1: Node, alpha: nat)
    requires |key| >= 16 && FinalWord(key) == LastWord(g, alpha, n0, n1)
    ensures EndBits(g, key, n0.s, n1.s, alpha)
  {
    var last, at, o := FinalWord(key), |key| - 16, OneHotBlock(alpha % 128);
    var c0, c1 := g.convert(n0.s), g.convert(n1.s);
    assert key[at..at + 16] == key[at..];
    LoadedIsStored(last, key, at);
    forall k: nat | k < 128
      ensures BitAt(key[at + k / 8], k % 8) <==> ((k == alpha % 128) != BitAt(c0, k)) != BitAt(c1, k)
    {
      assert BitAt(last, k) <==> BitAt(key[at + k / 8], k % 8);
      BitAtXor(XorBlock(o, c0), c1, k);
      BitAtXor(o, c0, k);
      OneHotBit(alpha % 128, k);
    }
  }

  // ---- Generated keys

  /** On the path to alpha the keys lead to the nodes of key generation. */
  lemma PathIsGenerated(g: Prg, alpha: nat, logn: nat, s0: Block, s1: Block, ka: Key, kb: Key, lvl: nat)
    requires Paired(g, alpha, logn, s0, s1, ka, kb) && alpha < Pow2(logn) && lvl <= Stop(logn) <= logn
    ensures (PathOf(g, ka, alpha, logn)[lvl], PathOf(g, kb, alpha, logn)[lvl]) == PathNodes(g, alpha, logn, s0, s1, lvl)
  {
    var ta, tb := KeyTree(g, ka, Stop(logn)), KeyTree(g, kb, Stop(logn));
    PairedTwins(g, alpha, logn, s0, s1, ka, kb);
    ShrBound(alpha, logn - lvl, logn);
    TwoParties(g, alpha, logn, s0, s1, ta, tb, PathNode(alpha, logn, lvl), lvl);
  }

  lemma TurnIsBit(alpha: nat, logn: nat, lvl: nat)
    requires lvl < logn
    ensures Turn(alpha, logn, lvl) == BitAt(alpha, logn - 1 - lvl)
  {
    AndBit(alpha, logn - 1 - lvl);
  }

  lemma SharedWordWritten(g: Prg, alpha: nat, logn: nat, s0: Block, s1: Block, key: Key, lvl: nat,
      n0: Node, n1: Node, right: bool)
    requires lvl < Stop(logn) <= logn && Packed(key, Stop(logn)) && right == Turn(alpha, logn, lvl)
    requires KeyWord(key, lvl) == PathWord(g, alpha, logn, s0, s1, lvl)
    requires (n0, n1) == PathNodes(g, alpha, logn, s0, s1, lvl)
    ensures WordBits(g, key, n0.s, n1.s, lvl, right)
  {
    WordWritten(g, key, n0, n1, lvl, right);
  }

  lemma PairedWord(g: Prg, alpha: nat, logn: nat, s0: Block, s1: Block, ka: Key, kb: Key, lvl: nat)
    requires Paired(g, alpha, logn, s0, s1, ka, kb) && alpha < Pow2(logn) && lvl < Stop(logn) <= logn
    ensures WordAt(g, alpha, logn, ka, kb, PathOf(g, ka, alpha, logn), PathOf(g, kb, alpha, logn), lvl)
  {
    var n0, n1 := PathOf(g, ka, alpha, logn)[lvl], PathOf(g, kb, alpha, logn)[lvl];
    PathIsGenerated(g, alpha, logn, s0, s1, ka, kb, lvl);
    assert SharedWord(g, alpha, logn, s0, s1, ka, kb, lvl);
    TurnIsBit(alpha, logn, lvl);
    SharedWordWritten(g, alpha, logn, s0, s1, ka, lvl, n0, n1, BitAt(alpha, logn - 1 - lvl));
    SharedWordWritten(g, alpha, logn, s0, s1, kb, lvl, n0, n1, BitAt(alpha, logn - 1 - lvl));
  }

  /** Whatever makes a key pair, its bytes are these. */
  lemma PairWritten(g: Prg, alpha: nat, logn: nat, s0: Block, s1: Block, ka: Key, kb: Key)
    requires KeyPair(g, alpha, logn, s0, s1, ka, kb) && alpha < Pow2(logn)
    ensures exists na, nb :: Written(g, alpha, logn, s0, s1, ka, kb, na, nb)
  {
    PathEnds(alpha, logn);
    var na, nb, stop := PathOf(g, ka, alpha, logn), PathOf(g, kb, alpha, logn), Stop(logn);
    PathDescends(g, ka, alpha, logn);
    PathDescends(g, kb, alpha, logn);
    TopBit(s0);
    RootWritten(ka, s0);
    RootWritten(kb, s1);
    forall lvl: nat | lvl < stop ensures WordAt(g, alpha, logn, ka, kb, na, nb, lvl) {
      PairedWord(g, alpha, logn, s0, s1, ka, kb, lvl);
    }
    PathIsGenerated(g, alpha, logn, s0, s1, ka, kb, stop);
    EndWritten(g, ka, na[stop], nb[stop], alpha);
    EndWritten(g, kb, na[stop], nb[stop], alpha);
    assert Written(g, alpha, logn, s0, s1, ka, kb, na, nb);
  }
}
