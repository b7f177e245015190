/** Key generation for the distributed point function. */
module DpfGen {
  import opened Bits
  import opened DpfBlocks
  import opened DpfKeys
  import opened DpfTree
  import opened Dpf

  // ---- Packing

  function Pack(cw: CorrectionWord): (q: seq<Byte>)
    ensures |q| == 18
  {
    ToBytes(cw.s) + [cw.tl, cw.tr]
  }

  /** The word at position lvl of a run of packed words. */
  function Unpack(q: seq<Byte>, lvl: nat): CorrectionWord
    requires 18 * lvl + 18 <= |q|
  {
    CorrectionWord(ToBlock(q[18 * lvl..18 * lvl + 16]), q[18 * lvl + 16], q[18 * lvl + 17])
  }

  lemma UnpackLast(q: seq<Byte>, w: seq<Byte>, lvl: nat)
    requires |q| == 18 * lvl && |w| == 18
    ensures Unpack(q + w, lvl) == CorrectionWord(ToBlock(w[..16]), w[16], w[17])
  {
    assert (q + w)[18 * lvl..18 * lvl + 16] == w[..16];
  }

  lemma UnpackAppended(q: seq<Byte>, cw: CorrectionWord, lvl: nat)
    requires |q| == 18 * lvl
    ensures Unpack(q + Pack(cw), lvl) == cw
  {
    UnpackLast(q, Pack(cw), lvl);
    assert Pack(cw)[..16] == ToBytes(cw.s);
    BlockRoundTrip(cw.s);
  }

  lemma UnpackPrefix(q: seq<Byte>, more: seq<Byte>, lvl: nat)
    requires 18 * lvl + 18 <= |q|
    ensures Unpack(q + more, lvl) == Unpack(q, lvl)
  {
    assert (q + more)[18 * lvl..18 * lvl + 16] == q[18 * lvl..18 * lvl + 16];
  }

  /** A key: root, control byte, correction words and last word, one after the other. */
  function Assembled(s: Block, t: Byte, words: seq<Byte>, last: Block): Key {
    ToBytes(s) + [t] + (words + ToBytes(last))
  }

  lemma KeyEnds(root: seq<Byte>, t: Byte, words: seq<Byte>, last: seq<Byte>)
    requires |root| == |last| == 16
    ensures var key := root + [t] + (words + last);
      key[..16] == root && key[16] == t && key[|key| - 16..] == last
  {
  }

  lemma KeyMiddle(root: seq<Byte>, t: Byte, words: seq<Byte>, last: seq<Byte>, lvl: nat)
    requires |root| == |last| == 16 && 18 * lvl + 18 <= |words|
    ensures var key := root + [t] + (words + last);
      && key[17 + lvl * 18..17 + lvl * 18 + 16] == words[18 * lvl..18 * lvl + 16]
      && key[17 + lvl * 18 + 16] == words[18 * lvl + 16] && key[17 + lvl * 18 + 17] == words[18 * lvl + 17]
  {
  }

  /** The three parts of a finished key. */
  lemma KeyParts(s: Block, t: Byte, words: seq<Byte>, last: Block, stop: nat)
    requires |words| == 18 * stop
    ensures var key := Assembled(s, t, words, last);
      && Packed(key, stop) && Root(key) == Node(s, t) && FinalWord(key) == last
      && forall lvl | 0 <= lvl < stop :: KeyWord(key, lvl) == Unpack(words, lvl)
  {
    var key, root, end := Assembled(s, t, words, last), ToBytes(s), ToBytes(last);
    KeyEnds(root, t, words, end);
    BlockRoundTrip(s);
    BlockRoundTrip(last);
    forall lvl | 0 <= lvl < stop ensures KeyWord(key, lvl) == Unpack(words, lvl) {
      KeyMiddle(root, t, words, end, lvl);
    }
  }

  // ---- Generation

  /** One level: the correction word, and the nodes of both parties below. */
  method GenLevel(g: Prg, s0: Block, t0: Byte, s1: Block, t1: Byte, right: bool)
    returns (cw: CorrectionWord, n0: Node, n1: Node)
    ensures cw == GenWord(g, Node(s0, t0), Node(s1, t1), right)
    ensures n0 == Child(g, cw, Node(s0, t0), right) && n1 == Child(g, cw, Node(s1, t1), right)
  {
    var l0, r0, l1, r1 := g.left(s0), g.right(s0), g.left(s1), g.right(s1);
    var s0L, t0L, s0R, t0R := Clr(l0), GetT(l0), Clr(r0), GetT(r0);
    var s1L, t1L, s1R, t1R := Clr(l1), GetT(l1), Clr(r1), GetT(r1);
    if right {
      var scw := XorBlock(s0L, s1L);
      var tL, tR := XorByte(t0L, t1L), XorByte(XorByte(t0R, t1R), 1);
      cw := CorrectionWord(scw, tL, tR);
      n0 := Node(if t0 != 0 then XorBlock(s0R, scw) else s0R, if t0 != 0 then XorByte(t0R, tR) else t0R);
      n1 := Node(if t1 != 0 then XorBlock(s1R, scw) else s1R, if t1 != 0 then XorByte(t1R, tR) else t1R);
    } else {
      var scw := XorBlock(s0R, s1R);
      var tL, tR := XorByte(XorByte(t0L, t1L), 1), XorByte(t0R, t1R);
      cw := CorrectionWord(scw, tL, tR);
      n0 := Node(if t0 != 0 then XorBlock(s0L, scw) else s0L, if t0 != 0 then XorByte(t0L, tL) else t0L);
      n1 := Node(if t1 != 0 then XorBlock(s1L, scw) else s1L, if t1 != 0 then XorByte(t1L, tL) else t1L);
    }
  }

  /** The first n correction words of the path, packed one after the other. */
  predicate PathWords(g: Prg, alpha: nat, logn: nat, seed0: Block, seed1: Block, words: seq<Byte>, n: nat)
    requires n <= logn
  {
    |words| == 18 * n &&
    forall lvl | 0 <= lvl < n :: Unpack(words, lvl) == PathWord(g, alpha, logn, seed0, seed1, lvl)
  }

  lemma PathWordsNext(g: Prg, alpha: nat, logn: nat, seed0: Block, seed1: Block,
      words: seq<Byte>, n: nat, cw: CorrectionWord)
    requires n < logn && PathWords(g, alpha, logn, seed0, seed1, words, n)
    requires cw == PathWord(g, alpha, logn, seed0, seed1, n)
    ensures PathWords(g, alpha, logn, seed0, seed1, words + Pack(cw), n + 1)
  {
    UnpackAppended(words, cw, n);
    forall lvl | 0 <= lvl < n ensures Unpack(words + Pack(cw), lvl) == Unpack(words, lvl) {
      UnpackPrefix(words, Pack(cw), lvl);
    }
  }

  lemma PathNodesNext(g: Prg, alpha: nat, logn: nat, seed0: Block, seed1: Block, n: nat, ns: (Node, Node))
    requires n < logn && ns == PathNodes(g, alpha, logn, seed0, seed1, n)
    ensures var right, cw := Turn(alpha, logn, n), PathWord(g, alpha, logn, seed0, seed1, n);
      cw == GenWord(g, ns.0, ns.1, right) &&
      PathNodes(g, alpha, logn, seed0, seed1, n + 1) == (Child(g, cw, ns.0, right), Child(g, cw, ns.1, right))
  {
  }

  /** The packed correction words of all levels, and the nodes at the end of the path. */
  method GenWords(g: Prg, alpha: nat, logn: nat, seed0: Block, seed1: Block)
    returns (words: seq<Byte>, n0: Node, n1: Node)
    ensures PathWords(g, alpha, logn, seed0, seed1, words, Stop(logn))
    ensures (n0, n1) == PathNodes(g, alpha, logn, seed0, seed1, Stop(logn))
  {
    var t0 := GetT(seed0);
    var t1 := if t0 == 0 then 1 else 0;
    words, n0, n1 := [], Node(Clr(seed0), t0), Node(Clr(seed1), t1);
    for i := 0 to Stop(logn)
      invariant PathWords(g, alpha, logn, seed0, seed1, words, i)
      invariant (n0, n1) == PathNodes(g, alpha, logn, seed0, seed1, i)
    {
      var right := BitAnd(alpha, Pow2(logn - 1 - i)) != 0;
      PathNodesNext(g, alpha, logn, seed0, seed1, i, (n0, n1));
      var cw, m0, m1 := GenLevel(g, n0.s, n0.t, n1.s, n1.t, right);
      PathWordsNext(g, alpha, logn, seed0, seed1, words, i, cw);
      words, n0, n1 := words + Pack(cw), m0, m1;
    }
  }

  /** The word that corrects the leaves at the end of the path. */
  method GenLast(g: Prg, alpha: nat, n0: Node, n1: Node) returns (tmp: Block)
    ensures tmp == LastWord(g, alpha, n0, n1)
  {
    ModuloBits(alpha);
    tmp := OneHotBlock(BitAnd(alpha, 127));
    tmp := XorBlock(XorBlock(tmp, g.convert(n0.s)), g.convert(n1.s));
  }

  /** Both keys are made of their own root, the words of the path and the last word. */
  lemma AssembledPair(g: Prg, alpha: nat, logn: nat, s0: Block, s1: Block, words: seq<Byte>, last: Block,
      n0: Node, n1: Node, t0: Byte, t1: Byte, ka: Key, kb: Key)
    requires Stop(logn) <= logn && PathWords(g, alpha, logn, s0, s1, words, Stop(logn))
    requires (n0, n1) == PathNodes(g, alpha, logn, s0, s1, Stop(logn)) && last == LastWord(g, alpha, n0, n1)
    requires t0 == GetT(s0) && t1 == 1 - t0
    requires ka == Assembled(Clr(s0), t0, words, last) && kb == Assembled(Clr(s1), t1, words, last)
    ensures KeyPair(g, alpha, logn, s0, s1, ka, kb)
  {
    KeyParts(Clr(s0), t0, words, last, Stop(logn));
    KeyParts(Clr(s1), t1, words, last, Stop(logn));
    forall lvl | 0 <= lvl < Stop(logn) ensures SharedWord(g, alpha, logn, s0, s1, ka, kb, lvl) {
      assert KeyWord(ka, lvl) == Unpack(words, lvl) && KeyWord(kb, lvl) == Unpack(words, lvl);
    }
  }

  /** The two byte strings. */
  method WriteKeys(ghost g: Prg, ghost alpha: nat, ghost logn: nat, s0: Block, s1: Block, words: seq<Byte>, last: Block,
      ghost n0: Node, ghost n1: Node)
    returns (ka: Key, kb: Key)
    requires Stop(logn) <= logn && PathWords(g, alpha, logn, s0, s1, words, Stop(logn))
    requires (n0, n1) == PathNodes(g, alpha, logn, s0, s1, Stop(logn)) && last == LastWord(g, alpha, n0, n1)
    ensures KeyPair(g, alpha, logn, s0, s1, ka, kb)
  {
    var t0 := GetT(s0);
    var t1 := if t0 == 0 then 1 else 0;
    ka := Assembled(Clr(s0), t0, words, last);
    kb := Assembled(Clr(s1), t1, words, last);
    AssembledPair(g, alpha, logn, s0, s1, words, last, n0, n1, t0, t1, ka, kb);
  }

  /** The two keys for the point alpha; `seed0` and `seed1` are the generator's draws. */
  method Gen(g: Prg, alpha: nat, logn: nat, seed0: Block, seed1: Block) returns (ka: Key, kb: Key)
    requires logn <= 63 && alpha < Pow2(logn)
    ensures KeyPair(g, alpha, logn, seed0, seed1, ka, kb)
    ensures exists na, nb :: Written(g, alpha, logn, seed0, seed1, ka, kb, na, nb)
  {
    var words, n0, n1 := GenWords(g, alpha, logn, seed0, seed1);
    var tmp := GenLast(g, alpha, n0, n1);
    ka, kb := WriteKeys(g, alpha, logn, seed0, seed1, words, tmp, n0, n1);
    PairWritten(g, alpha, logn, seed0, seed1, ka, kb);
  }
}
