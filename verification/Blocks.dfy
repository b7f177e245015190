/** Data blocks under exclusive or, and the parity of a set of database indices. */
module Blocks {

  const BLOCK_LEN: nat := 16000

  /** A bitset of BLOCK_LEN bits, as the set of the positions that hold a one. */
  type Block = b: set<nat> | forall i | i in b :: i < BLOCK_LEN

  const ZERO: Block := {}

  function Xor(a: Block, b: Block): Block {
    (a - b) + (b - a)
  }

  // ---- Xor is an abelian group of exponent two

  lemma XorZero(a: Block)
    ensures Xor(a, ZERO) == a && Xor(ZERO, a) == a
  {
  }

  lemma XorSelf(a: Block)
    ensures Xor(a, a) == ZERO
  {
  }

  lemma XorComm(a: Block, b: Block)
    ensures Xor(a, b) == Xor(b, a)
  {
  }

  lemma XorAssoc(a: Block, b: Block, c: Block)
    ensures Xor(Xor(a, b), c) == Xor(a, Xor(b, c))
  {
    assert forall i :: i in Xor(Xor(a, b), c) <==> i in Xor(a, Xor(b, c));
  }

  lemma XorCancels(a: Block, b: Block)
    ensures Xor(Xor(a, b), b) == a
    ensures Xor(b, Xor(b, a)) == a
    ensures Xor(b, Xor(a, b)) == a
  {
    XorAssoc(a, b, b);
    XorSelf(b);
    XorZero(a);
    XorComm(a, b);
    XorComm(Xor(a, b), b);
  }

  lemma XorSwap(a: Block, b: Block, c: Block)
    ensures Xor(Xor(a, b), c) == Xor(Xor(a, c), b)
  {
    XorAssoc(a, b, c);
    XorAssoc(a, c, b);
    XorComm(b, c);
  }

  // ---- Parity of an index set

  /** The indices in exactly one of the two sets. */
  function SymDiff(s: set<nat>, t: set<nat>): set<nat> {
    (s - t) + (t - s)
  }

  /** The exclusive or of the blocks at the members of s below n. */
  function ParityBelow(db: seq<Block>, s: set<nat>, n: nat): Block
    requires n <= |db|
  {
    if n == 0 then ZERO
    else if n - 1 in s then Xor(ParityBelow(db, s, n - 1), db[n - 1])
    else ParityBelow(db, s, n - 1)
  }

  /** The exclusive or of the blocks at the members of s. */
  function Parity(db: seq<Block>, s: set<nat>): Block {
    ParityBelow(db, s, |db|)
  }

  predicate Within(s: set<nat>, n: nat) {
    forall i | i in s :: i < n
  }

  /** Parity turns symmetric difference into exclusive or. */
  lemma {:induction false} ParityBelowSymDiff(db: seq<Block>, s: set<nat>, t: set<nat>, n: nat)
    requires n <= |db|
    ensures ParityBelow(db, SymDiff(s, t), n) == Xor(ParityBelow(db, s, n), ParityBelow(db, t, n))
  {
    if n == 0 {
      XorZero(ZERO);
    } else {
      ParityBelowSymDiff(db, s, t, n - 1);
      var a, b, d := ParityBelow(db, s, n - 1), ParityBelow(db, t, n - 1), db[n - 1];
      XorAssoc(a, b, d);
      XorSwap(a, d, b);
      if n - 1 in s && n - 1 in t {
        XorSwap(a, d, Xor(b, d));
        XorAssoc(a, b, d);
        XorCancels(Xor(a, b), d);
      }
    }
  }

  lemma ParitySymDiff(db: seq<Block>, s: set<nat>, t: set<nat>)
    ensures Parity(db, SymDiff(s, t)) == Xor(Parity(db, s), Parity(db, t))
  {
    ParityBelowSymDiff(db, s, t, |db|);
  }

  lemma {:induction false} ParityBelowEmpty(db: seq<Block>, n: nat)
    requires n <= |db|
    ensures ParityBelow(db, {}, n) == ZERO
  {
    if n > 0 {
      ParityBelowEmpty(db, n - 1);
    }
  }

  lemma ParityEmpty(db: seq<Block>)
    ensures Parity(db, {}) == ZERO
  {
    ParityBelowEmpty(db, |db|);
  }

  lemma {:induction false} ParityBelowSingle(db: seq<Block>, i: nat, n: nat)
    requires n <= |db|
    ensures ParityBelow(db, {i}, n) == if i < n then db[i] else ZERO
  {
    if n > 0 {
      ParityBelowSingle(db, i, n - 1);
      XorZero(db[n - 1]);
    }
  }

  lemma ParitySingle(db: seq<Block>, i: nat)
    requires i < |db|
    ensures Parity(db, {i}) == db[i]
  {
    ParityBelowSingle(db, i, |db|);
  }

  lemma ParityAdd(db: seq<Block>, s: set<nat>, i: nat)
    requires i !in s && i < |db|
    ensures Parity(db, s + {i}) == Xor(Parity(db, s), db[i])
  {
    assert SymDiff(s, {i}) == s + {i};
    ParitySymDiff(db, s, {i});
    ParitySingle(db, i);
  }

  lemma ParityUnion(db: seq<Block>, s: set<nat>, t: set<nat>)
    requires s !! t
    ensures Parity(db, s + t) == Xor(Parity(db, s), Parity(db, t))
  {
    assert SymDiff(s, t) == s + t;
    ParitySymDiff(db, s, t);
  }

  /** Appending blocks does not change the parity of a set of old indices. */
  lemma {:induction false} ParityBelowGrow(db: seq<Block>, more: seq<Block>, s: set<nat>, n: nat)
    requires |db| <= n <= |db| + |more| && Within(s, |db|)
    ensures ParityBelow(db + more, s, n) == Parity(db, s)
    decreases n
  {
    if n > |db| {
      ParityBelowGrow(db, more, s, n - 1);
    } else {
      ParityBelowPrefix(db, more, s, n);
    }
  }

  lemma {:induction false} ParityBelowPrefix(db: seq<Block>, more: seq<Block>, s: set<nat>, n: nat)
    requires n <= |db|
    ensures ParityBelow(db + more, s, n) == ParityBelow(db, s, n)
  {
    if n > 0 {
      ParityBelowPrefix(db, more, s, n - 1);
    }
  }

  lemma ParityGrow(db: seq<Block>, more: seq<Block>, s: set<nat>)
    requires Within(s, |db|)
    ensures Parity(db + more, s) == Parity(db, s)
  {
    ParityBelowGrow(db, more, s, |db + more|);
  }
}
