/** The small-domain permutation: an unbalanced Feistel network over the n-bit
    blocks, whose halves have n/2 and n - n/2 bits and are split again, by
    position, after every round. */
module Feistel {
  import opened Bits
  import opened Keys

  const ROUNDS: nat := 7

  /** The 16-bit word that AES is asked for: the half and the tweak, exclusive-ored. */
  function Asked(block: nat, tweak: nat): nat {
    BitXor(Low(block, 16), Low(tweak, 16))
  }

  /** One AES call, masked to the width of the other half. */
  function RoundFunc(p: Prims, block: nat, key: Key, tweak: nat, outputLength: nat): nat {
    BitAnd(p.aes(key, Asked(block, tweak)), Mask(outputLength))
  }

  function LeftLength(n: nat): nat {
    n / 2
  }

  function RightLength(n: nat): nat {
    n - LeftLength(n)
  }

  /** One round on the whole block of l + r bits: the right half moves left, the
      left half is mixed and moves right. */
  function Round(p: Prims, b: nat, l: nat, r: nat, key: Key, tweak: nat): nat {
    Join(Low(b, r), BitXor(Shr(b, r), RoundFunc(p, Low(b, r), key, tweak, l)), l)
  }

  function RoundInv(p: Prims, b: nat, l: nat, r: nat, key: Key, tweak: nat): nat {
    Join(BitXor(Low(b, l), RoundFunc(p, Shr(b, l), key, tweak, l)), Shr(b, l), r)
  }

  /** Rounds with tweaks 1, 2, ..., k. */
  function Rounds(p: Prims, b: nat, n: nat, key: Key, k: nat): nat {
    if k == 0 then b
    else Round(p, Rounds(p, b, n, key, k - 1), LeftLength(n), RightLength(n), key, k)
  }

  /** Inverse rounds with tweaks k, ..., 2, 1. */
  function RoundsInv(p: Prims, b: nat, n: nat, key: Key, k: nat): nat
    decreases k, b
  {
    if k == 0 then b
    else RoundsInv(p, RoundInv(p, b, LeftLength(n), RightLength(n), key, k), n, key, k - 1)
  }

  // ---- One round is a bijection of the blocks

  lemma RoundFuncBound(p: Prims, block: nat, key: Key, tweak: nat, outputLength: nat)
    ensures RoundFunc(p, block, key, tweak, outputLength) < Pow2(outputLength)
  {
    var word := p.aes(key, Asked(block, tweak));
    AndMask(word, outputLength);
    LowBound(word, outputLength);
  }

  lemma RoundInverse(p: Prims, b: nat, l: nat, r: nat, n: nat, key: Key, tweak: nat)
    requires n == l + r && b < Pow2(n)
    ensures Round(p, b, l, r, key, tweak) < Pow2(n)
    ensures RoundInv(p, Round(p, b, l, r, key, tweak), l, r, key, tweak) == b
  {
    var left, right := Shr(b, r), Low(b, r);
    SplitBounds(b, l, r, n);
    RoundFuncBound(p, right, key, tweak, l);
    MixLow(right, left, RoundFunc(p, right, key, tweak, l), r, l, n);
  }

  lemma RoundInvInverse(p: Prims, b: nat, l: nat, r: nat, n: nat, key: Key, tweak: nat)
    requires n == l + r && b < Pow2(n)
    ensures RoundInv(p, b, l, r, key, tweak) < Pow2(n)
    ensures Round(p, RoundInv(p, b, l, r, key, tweak), l, r, key, tweak) == b
  {
    var left, right := Low(b, l), Shr(b, l);
    SplitBounds(b, r, l, n);
    RoundFuncBound(p, right, key, tweak, l);
    MixHigh(left, right, RoundFunc(p, right, key, tweak, l), l, r, n);
  }

  // ---- The whole network

  lemma {:induction false} RoundsInverse(p: Prims, b: nat, n: nat, key: Key, k: nat)
    requires b < Pow2(n)
    ensures Rounds(p, b, n, key, k) < Pow2(n)
    ensures RoundsInv(p, Rounds(p, b, n, key, k), n, key, k) == b
  {
    if k > 0 {
      RoundsInverse(p, b, n, key, k - 1);
      RoundInverse(p, Rounds(p, b, n, key, k - 1), LeftLength(n), RightLength(n), n, key, k);
    }
  }

  lemma {:induction false} RoundsInvInverse(p: Prims, b: nat, n: nat, key: Key, k: nat)
    requires b < Pow2(n)
    ensures RoundsInv(p, b, n, key, k) < Pow2(n)
    ensures Rounds(p, RoundsInv(p, b, n, key, k), n, key, k) == b
    decreases k, b
  {
    if k > 0 {
      var l, r := LeftLength(n), RightLength(n);
      var c := RoundInv(p, b, l, r, key, k);
      RoundInvInverse(p, b, l, r, n, key, k);
      RoundsInvInverse(p, c, n, key, k - 1);
      var d := RoundsInv(p, c, n, key, k - 1);
      assert RoundsInv(p, b, n, key, k) == d;
      assert Rounds(p, d, n, key, k) == Round(p, c, l, r, key, k);
    }
  }

  // ---- The network bit by bit

  /** The half of r bits at the bottom of b, exclusive-ored with the tweak in 16 bits. */
  ghost predicate AesInput(v: nat, b: nat, r: nat, tweak: nat) {
    && v < 0x1_0000
    && forall j {:trigger BitAt(v, j)} | 0 <= j < 16 :: BitAt(v, j) <==> (j < r && BitAt(b, j)) != BitAt(tweak, j)
  }

  /** The lower half of b, of r bits, is on top of c, above its lowest l bits. */
  ghost predicate MovedUp(b: nat, c: nat, l: nat, r: nat) {
    forall k {:trigger BitAt(b, k)} | 0 <= k < r :: BitAt(c, l + k) <==> BitAt(b, k)
  }

  /** The lowest l bits of c are the upper half of b, exclusive-ored with a word. */
  ghost predicate MixedDown(b: nat, c: nat, l: nat, r: nat, word: nat) {
    forall k {:trigger BitAt(c, k)} | 0 <= k < l :: BitAt(c, k) <==> BitAt(b, r + k) != BitAt(word, k)
  }

  /** One round takes the block b of n bits to c: the lower half moves up, and the upper
      half, of n / 2 bits, moves down and takes up the answer of AES. */
  ghost predicate Turned(p: Prims, b: nat, c: nat, n: nat, key: Key, tweak: nat, v: nat) {
    && c < Pow2(n)
    && AesInput(v, b, n - n / 2, tweak)
    && MovedUp(b, c, n / 2, n - n / 2)
    && MixedDown(b, c, n / 2, n - n / 2, p.aes(key, v))
  }

  ghost predicate RoundOf(p: Prims, b: nat, c: nat, n: nat, key: Key, tweak: nat) {
    exists v :: Turned(p, b, c, n, key, tweak, v)
  }

  /** Round number i + 1 takes block i of a trace to the next one. */
  ghost predicate RoundAt(p: Prims, t: seq<nat>, i: nat, n: nat, key: Key) {
    i + 1 < |t| && RoundOf(p, t[i], t[i + 1], n, key, i + 1)
  }

  /** The blocks before and after each of the rounds with tweaks 1, 2, ... */
  ghost predicate Traced(p: Prims, b: nat, c: nat, n: nat, key: Key, rounds: nat, t: seq<nat>) {
    && |t| == rounds + 1 && t[0] == b && t[rounds] == c
    && forall i {:trigger RoundAt(p, t, i, n, key)} | 0 <= i < rounds :: RoundAt(p, t, i, n, key)
  }

  lemma AskedBits(b: nat, r: nat, tweak: nat)
    ensures AesInput(Asked(Low(b, r), tweak), b, r, tweak)
  {
    var half := Low(b, r);
    LowBound(half, 16);
    LowBound(tweak, 16);
    XorBound(Low(half, 16), Low(tweak, 16), 16);
    assert Pow2(16) == 0x1_0000 by {
      assert Pow2(8) == 0x100;
      Pow2Add(8, 8);
    }
    forall j: nat | j < 16
      ensures BitAt(Asked(half, tweak), j) <==> (j < r && BitAt(b, j)) != BitAt(tweak, j)
    {
      BitAtXor(Low(half, 16), Low(tweak, 16), j);
      BitAtLow(half, j, 16);
      BitAtLow(tweak, j, 16);
      LowBit(b, j, r);
    }
  }

  lemma LowBit(b: nat, j: nat, r: nat)
    ensures BitAt(Low(b, r), j) <==> j < r && BitAt(b, j)
  {
    if j < r {
      BitAtLow(b, j, r);
    } else {
      BitAtLowAbove(b, j, r);
    }
  }

  lemma MixedBit(p: Prims, half: nat, left: nat, key: Key, tweak: nat, l: nat, k: nat)
    requires k < l
    ensures BitAt(BitXor(left, RoundFunc(p, half, key, tweak, l)), k) <==>
      BitAt(left, k) != BitAt(p.aes(key, Asked(half, tweak)), k)
  {
    var word := p.aes(key, Asked(half, tweak));
    AndMask(word, l);
    BitAtXor(left, Low(word, l), k);
    BitAtLow(word, k, l);
  }

  lemma JoinMovesUp(b: nat, mixed: nat, l: nat, r: nat)
    ensures MovedUp(b, Join(Low(b, r), mixed, l), l, r)
  {
    forall k: nat | k < r ensures BitAt(Join(Low(b, r), mixed, l), l + k) <==> BitAt(b, k) {
      BitAtJoin(Low(b, r), mixed, l, l + k);
      BitAtLow(b, k, r);
    }
  }

  lemma JoinMixesDown(p: Prims, b: nat, half: nat, key: Key, tweak: nat, l: nat, r: nat)
    ensures MixedDown(b, Join(half, BitXor(Shr(b, r), RoundFunc(p, half, key, tweak, l)), l), l, r,
      p.aes(key, Asked(half, tweak)))
  {
    var word, mixed := p.aes(key, Asked(half, tweak)), BitXor(Shr(b, r), RoundFunc(p, half, key, tweak, l));
    forall k: nat | k < l ensures BitAt(Join(half, mixed, l), k) <==> BitAt(b, r + k) != BitAt(word, k) {
      BitAtJoin(half, mixed, l, k);
      MixedBit(p, half, Shr(b, r), key, tweak, l, k);
      ShrShr(b, r, k);
    }
  }

  lemma TurnedBy(p: Prims, b: nat, c: nat, l: nat, r: nat, n: nat, key: Key, tweak: nat, v: nat)
    requires l == n / 2 && r == n - l && c < Pow2(n)
    requires AesInput(v, b, r, tweak) && MovedUp(b, c, l, r) && MixedDown(b, c, l, r, p.aes(key, v))
    ensures RoundOf(p, b, c, n, key, tweak)
  {
    assert Turned(p, b, c, n, key, tweak, v);
  }

  lemma RoundTurns(p: Prims, b: nat, n: nat, key: Key, tweak: nat)
    requires b < Pow2(n)
    ensures RoundOf(p, b, Round(p, b, LeftLength(n), RightLength(n), key, tweak), n, key, tweak)
  {
    var l, r := LeftLength(n), RightLength(n);
    var half := Low(b, r);
    var mixed := BitXor(Shr(b, r), RoundFunc(p, half, key, tweak, l));
    RoundInverse(p, b, l, r, n, key, tweak);
    AskedBits(b, r, tweak);
    JoinMovesUp(b, mixed, l, r);
    JoinMixesDown(p, b, half, key, tweak, l, r);
    TurnedBy(p, b, Join(half, mixed, l), l, r, n, key, tweak, Asked(half, tweak));
  }

  lemma {:induction false} RoundsTraced(p: Prims, b: nat, n: nat, key: Key, k: nat) returns (t: seq<nat>)
    requires b < Pow2(n)
    ensures Traced(p, b, Rounds(p, b, n, key, k), n, key, k, t)
  {
    if k == 0 {
      t := [b];
    } else {
      var s := RoundsTraced(p, b, n, key, k - 1);
      var last := Rounds(p, b, n, key, k - 1);
      RoundsInverse(p, b, n, key, k - 1);
      RoundTurns(p, last, n, key, k);
      t := s + [Rounds(p, b, n, key, k)];
      TraceGrows(p, b, last, n, key, k, s, t[k]);
    }
  }

  /** The inverse rounds find the block that the rounds take to b. */
  lemma RoundsInvTraced(p: Prims, b: nat, n: nat, key: Key, k: nat)
    requires b < Pow2(n)
    ensures exists t :: Traced(p, RoundsInv(p, b, n, key, k), b, n, key, k, t)
  {
    RoundsInvInverse(p, b, n, key, k);
    var t := RoundsTraced(p, RoundsInv(p, b, n, key, k), n, key, k);
  }

  lemma TraceGrows(p: Prims, b: nat, last: nat, n: nat, key: Key, k: nat, s: seq<nat>, c: nat)
    requires k > 0 && Traced(p, b, last, n, key, k - 1, s) && RoundOf(p, last, c, n, key, k)
    ensures Traced(p, b, c, n, key, k, s + [c])
  {
    var t := s + [c];
    forall i | 0 <= i < k ensures RoundAt(p, t, i, n, key) {
      if i < k - 1 {
        assert RoundAt(p, s, i, n, key);
      }
      assert t[i] == s[i];
    }
  }

  /** The inverse rounds start with the last one. */
  lemma RoundsInvNext(p: Prims, b: nat, c: nat, n: nat, key: Key, k: nat, result: nat)
    requires k > 0 && result == RoundsInv(p, b, n, key, k)
    requires c == RoundInv(p, b, LeftLength(n), RightLength(n), key, k)
    ensures result == RoundsInv(p, c, n, key, k - 1)
  {
  }

  /** What is still to do: the inverse rounds with tweaks k, ..., 1 lead to the result. */
  predicate Remaining(p: Prims, b: nat, n: nat, key: Key, k: nat, result: nat) {
    result == RoundsInv(p, b, n, key, k)
  }

  // ---- The loops of the source

  method FeistelPrp(p: Prims, block: nat, blockLength: nat, rounds: nat, key: Key)
    returns (permBlock: nat)
    requires 1 <= blockLength <= 32 && 1 <= rounds && block < Pow2(blockLength)
    ensures permBlock == Rounds(p, block, blockLength, key, rounds) < Pow2(blockLength)
    ensures exists t :: Traced(p, block, permBlock, blockLength, key, rounds, t)
  {
    ghost var t := RoundsTraced(p, block, blockLength, key, rounds);
    var leftLength := LeftLength(blockLength);
    var rightLength := RightLength(blockLength);
    var left, right := Split(block, leftLength, rightLength, blockLength);
    permBlock := block;
    for i := 0 to rounds
      invariant permBlock == Rounds(p, block, blockLength, key, i) < Pow2(blockLength)
      invariant i < rounds ==> left == Shr(permBlock, rightLength) && right == Low(permBlock, rightLength)
    {
      permBlock := ForwardStep(p, permBlock, left, right, leftLength, rightLength, blockLength, key, i + 1);
      if i != rounds - 1 {
        left, right := Split(permBlock, leftLength, rightLength, blockLength);
      }
    }
  }

  method FeistelInvPrp(p: Prims, permBlock: nat, blockLength: nat, rounds: nat, key: Key)
    returns (block: nat)
    requires 1 <= blockLength <= 32 && 1 <= rounds && permBlock < Pow2(blockLength)
    ensures block == RoundsInv(p, permBlock, blockLength, key, rounds) < Pow2(blockLength)
    ensures exists t :: Traced(p, block, permBlock, blockLength, key, rounds, t)
  {
    RoundsInvTraced(p, permBlock, blockLength, key, rounds);
    var rightLength := LeftLength(blockLength);
    var leftLength := RightLength(blockLength);
    var left, right := Split(permBlock, leftLength, rightLength, blockLength);
    ghost var result, k := RoundsInv(p, permBlock, blockLength, key, rounds), rounds;
    block := permBlock;
    for i := 0 to rounds
      invariant k == rounds - i && block < Pow2(blockLength)
      invariant Remaining(p, block, blockLength, key, k, result)
      invariant i < rounds ==> left == Shr(block, rightLength) && right == Low(block, rightLength)
    {
      block, k := InverseRound(p, block, left, right, leftLength, rightLength, blockLength, key, rounds - i, k, result);
      if i != rounds - 1 {
        left, right := Split(block, leftLength, rightLength, blockLength);
      }
    }
  }

  /** The halves of a word of n bits, by shift and mask. */
  method Split(b: nat, leftLength: nat, rightLength: nat, ghost n: nat) returns (left: nat, right: nat)
    requires n == leftLength + rightLength && b < Pow2(n)
    ensures left == Shr(b, rightLength) && right == Low(b, rightLength)
  {
    left := BitAnd(Shr(b, rightLength), Mask(leftLength));
    right := BitAnd(b, Mask(rightLength));
    AndMask(Shr(b, rightLength), leftLength);
    AndMask(b, rightLength);
    ShrBound(b, rightLength, n);
    LowId(Shr(b, rightLength), leftLength);
  }

  /** The body of the forward loop: the halves swap, one of them mixed. */
  method ForwardStep(p: Prims, ghost b: nat, left: nat, right: nat, l: nat, r: nat, ghost n: nat, key: Key, tweak: nat)
    returns (c: nat)
    requires n == l + r <= 32 && b < Pow2(n) && left == Shr(b, r) && right == Low(b, r)
    ensures c == Round(p, b, l, r, key, tweak) < Pow2(n)
  {
    var left1 := right;
    var f := RoundFunc(p, right, key, tweak, l);
    var right1 := BitXor(left, f);
    SplitBounds(b, l, r, n);
    RoundFuncBound(p, right, key, tweak, l);
    XorBound(left, f, l);
    OrJoin32(left1, right1, r, l, n);
    c := BitOr(Shl32(left1, l), right1);
  }

  /** The body of the inverse loop. Its left half is the wider one. */
  method InverseStep(p: Prims, ghost b: nat, left: nat, right: nat, leftLength: nat, rightLength: nat, ghost n: nat,
      key: Key, tweak: nat)
    returns (c: nat)
    requires n == leftLength + rightLength <= 32 && b < Pow2(n)
    requires left == Shr(b, rightLength) && right == Low(b, rightLength)
    ensures c == RoundInv(p, b, rightLength, leftLength, key, tweak) < Pow2(n)
  {
    var right1 := left;
    var f := RoundFunc(p, left, key, tweak, rightLength);
    var left1 := BitXor(right, f);
    SplitBounds(b, leftLength, rightLength, n);
    RoundFuncBound(p, left, key, tweak, rightLength);
    XorBound(right, f, rightLength);
    OrJoin32(left1, right1, rightLength, leftLength, n);
    c := BitOr(Shl32(left1, leftLength), right1);
  }

  /** With the inverse round for one tweak done, the smaller tweaks are left to do. */
  method InverseRound(p: Prims, ghost b: nat, left: nat, right: nat, leftLength: nat, rightLength: nat, n: nat,
      key: Key, tweak: nat, ghost k: nat, ghost result: nat)
    returns (c: nat, ghost k': nat)
    requires rightLength == LeftLength(n) && leftLength == RightLength(n) && n <= 32 && b < Pow2(n)
    requires left == Shr(b, rightLength) && right == Low(b, rightLength)
    requires tweak == k > 0 && Remaining(p, b, n, key, k, result)
    ensures c < Pow2(n) && k' == k - 1 && Remaining(p, c, n, key, k', result)
  {
    c := InverseStep(p, b, left, right, leftLength, rightLength, n, key, tweak);
    k' := k - 1;
    RoundsInvNext(p, b, c, n, key, k, result);
  }
}
