/** Cycle walking: the Feistel permutation of the n-bit blocks restricted to
    [0, range) by applying it again until the result is in range. */
module CycleWalk {
  import opened Bits
  import opened Feistel
  import opened Keys
  import opened Orbits
  import opened Results

  const UINT32_SIZE: nat := 0x1_0000_0000

  /** One direction of the keyed permutation of the n-bit blocks. */
  ghost function Cipher(p: Prims, key: Key, n: nat, inverse: bool): Permutation {
    var forward := (b: nat) => Rounds(p, b, n, key, ROUNDS);
    var backward := (b: nat) => RoundsInv(p, b, n, key, ROUNDS);
    if inverse then Permutation(Pow2(n), backward, forward) else Permutation(Pow2(n), forward, backward)
  }

  lemma CipherFacts(p: Prims, key: Key, n: nat, inverse: bool) returns (c: Permutation)
    ensures c == Cipher(p, key, n, inverse)
    ensures c.Valid() && c.size == Pow2(n)
    ensures forall b: nat {:trigger c.Has(b)} | c.Has(b) ::
      c.to(b) == if inverse then RoundsInv(p, b, n, key, ROUNDS) else Rounds(p, b, n, key, ROUNDS)
  {
    c := Cipher(p, key, n, inverse);
    forall b: nat {:trigger c.Has(b)} | c.Has(b)
      ensures Rounds(p, b, n, key, ROUNDS) < Pow2(n) && RoundsInv(p, b, n, key, ROUNDS) < Pow2(n)
      ensures RoundsInv(p, Rounds(p, b, n, key, ROUNDS), n, key, ROUNDS) == b
      ensures Rounds(p, RoundsInv(p, b, n, key, ROUNDS), n, key, ROUNDS) == b
    {
      RoundsInverse(p, b, n, key, ROUNDS);
      RoundsInvInverse(p, b, n, key, ROUNDS);
    }
  }

  // ---- The block length

  function BlockLength(range: nat): nat
    requires 1 <= range
  {
    Log2(range) + 1
  }

  /** The block length is the smallest n with 2^n > range. */
  lemma BlockLengthSmallest(range: nat)
    requires 1 <= range
    ensures Pow2(BlockLength(range) - 1) <= range < Pow2(BlockLength(range))
  {
    Log2Bounds(range);
  }

  lemma BlockLength32(range: nat)
    requires 1 <= range < UINT32_SIZE
    ensures 1 <= BlockLength(range) <= 32
  {
    BlockLengthSmallest(range);
    assert Pow2(16) == 0x1_0000 && Pow2(32) == UINT32_SIZE by {
      assert Pow2(8) == 0x100;
      Pow2Add(8, 8);
      Pow2Add(16, 16);
    }
    if BlockLength(range) > 32 {
      Pow2Monotone(32, BlockLength(range) - 1);
      assert false;
    }
  }

  // ---- The walks as functions

  /** The permutation that is walked within [0, range). */
  ghost function WalkCipher(p: Prims, range: nat, key: Key, inverse: bool): Permutation
    requires 1 <= range
  {
    Cipher(p, key, BlockLength(range), inverse)
  }

  /** Where the orbit of `num` first comes back into range. */
  ghost function WalkTo(p: Prims, num: nat, range: nat, key: Key, inverse: bool): (y: nat)
    requires num < range
    ensures y < range
    ensures exists k :: FirstReturn(WalkCipher(p, range, key, inverse), range, num, y, k)
  {
    WalkExists(p, num, range, key, inverse);
    var y, k :| FirstReturn(WalkCipher(p, range, key, inverse), range, num, y, k);
    y
  }

  lemma WalkExists(p: Prims, num: nat, range: nat, key: Key, inverse: bool)
    requires num < range
    ensures exists y, k :: FirstReturn(WalkCipher(p, range, key, inverse), range, num, y, k)
  {
    var c := CipherFacts(p, key, BlockLength(range), inverse);
    BlockLengthSmallest(range);
    Returns(c, range, num, 0);
    var y, k :| FirstReturn(c, range, num, y, k);
    assert FirstReturn(WalkCipher(p, range, key, inverse), range, num, y, k);
  }

  ghost function Walk(p: Prims, num: nat, range: nat, key: Key): (y: nat)
    requires num < range
    ensures y < range
  {
    WalkTo(p, num, range, key, false)
  }

  ghost function WalkInv(p: Prims, num: nat, range: nat, key: Key): (x: nat)
    requires num < range
    ensures x < range
  {
    WalkTo(p, num, range, key, true)
  }

  /** The first point of the walk that is in range is its result. */
  lemma WalkIs(p: Prims, num: nat, range: nat, key: Key, inverse: bool, y: nat, k: nat)
    requires num < range && FirstReturn(WalkCipher(p, range, key, inverse), range, num, y, k)
    ensures y == WalkTo(p, num, range, key, inverse)
  {
    var c := WalkCipher(p, range, key, inverse);
    var y' := WalkTo(p, num, range, key, inverse);
    var k' :| FirstReturn(c, range, num, y', k');
    ReturnUnique(c, range, num, y, k, y', k');
  }

  /** A walk whose first block is in range ends there. */
  lemma WalkAtOnce(p: Prims, num: nat, range: nat, key: Key)
    requires num < range && Rounds(p, num, BlockLength(range), key, ROUNDS) < range
    ensures Walk(p, num, range, key) == Rounds(p, num, BlockLength(range), key, ROUNDS)
  {
    var c := CipherFacts(p, key, BlockLength(range), false);
    BlockLengthSmallest(range);
    assert c.Has(num);
    var y := c.to(num);
    assert Iterate(c, 1, num) == c.to(Iterate(c, 0, num));
    assert FirstReturn(c, range, num, y, 1);
    WalkIs(p, num, range, key, false, y, 1);
  }

  lemma WalkToBack(p: Prims, num: nat, range: nat, key: Key, inverse: bool)
    requires num < range
    ensures WalkTo(p, WalkTo(p, num, range, key, inverse), range, key, !inverse) == num
  {
    var c := CipherFacts(p, key, BlockLength(range), inverse);
    var y := WalkTo(p, num, range, key, inverse);
    var k :| FirstReturn(WalkCipher(p, range, key, inverse), range, num, y, k);
    BlockLengthSmallest(range);
    ReturnReverses(c, range, num, y, k);
    assert c.Back() == WalkCipher(p, range, key, !inverse);
    WalkIs(p, y, range, key, !inverse, num, k);
  }

  /** Walk and WalkInv are mutually inverse bijections of [0, range). */
  lemma WalkInverse(p: Prims, num: nat, range: nat, key: Key)
    requires num < range
    ensures WalkInv(p, Walk(p, num, range, key), range, key) == num
    ensures Walk(p, WalkInv(p, num, range, key), range, key) == num
  {
    WalkToBack(p, num, range, key, false);
    WalkToBack(p, num, range, key, true);
  }

  // ---- A walk block by block

  /** Seven rounds of the network on n bits take b to c. */
  ghost predicate SevenRounds(p: Prims, b: nat, c: nat, n: nat, key: Key) {
    exists t :: Traced(p, b, c, n, key, 7, t)
  }

  /** Seven rounds take block i of a walk to the next one. */
  ghost predicate StepAt(p: Prims, w: seq<nat>, i: nat, n: nat, key: Key) {
    i + 1 < |w| && SevenRounds(p, w[i], w[i + 1], n, key)
  }

  /** The blocks of a walk from num to y: seven rounds each, on the smallest number of
      bits that exceeds the range, and the blocks between num and y are out of range. */
  ghost predicate Walked(p: Prims, num: nat, y: nat, range: nat, key: Key, n: nat, w: seq<nat>) {
    && n > 0 && Pow2(n - 1) <= range < Pow2(n)
    && |w| >= 2 && w[0] == num && w[|w| - 1] == y < range
    && (forall i {:trigger w[i]} | 0 < i < |w| - 1 :: w[i] >= range)
    && (forall i {:trigger StepAt(p, w, i, n, key)} | 0 <= i < |w| - 1 :: StepAt(p, w, i, n, key))
  }

  /** The first k blocks of an orbit. */
  ghost function Orbit(c: Permutation, num: nat, k: nat): (w: seq<nat>)
    ensures |w| == k + 1 && forall i | 0 <= i <= k :: w[i] == Iterate(c, i, num)
  {
    seq(k + 1, i requires 0 <= i <= k => Iterate(c, i, num))
  }

  lemma OrbitStep(p: Prims, num: nat, n: nat, key: Key, c: Permutation, i: nat)
    requires c == Cipher(p, key, n, false) && num < Pow2(n)
    ensures SevenRounds(p, Iterate(c, i, num), Iterate(c, i + 1, num), n, key)
  {
    var d := CipherFacts(p, key, n, false);
    IterateBound(c, i, num);
    var b := Iterate(c, i, num);
    assert c.Has(b);
    assert Iterate(c, i + 1, num) == c.to(b);
    var t := RoundsTraced(p, b, n, key, ROUNDS);
  }

  lemma OrbitRounds(p: Prims, num: nat, n: nat, key: Key, c: Permutation, k: nat, w: seq<nat>, i: nat)
    requires c == Cipher(p, key, n, false) && num < Pow2(n) && w == Orbit(c, num, k) && i < k
    ensures StepAt(p, w, i, n, key)
  {
    OrbitStep(p, num, n, key, c, i);
  }

  lemma OrbitOut(range: nat, num: nat, c: Permutation, k: nat, w: seq<nat>)
    requires w == Orbit(c, num, k) && k > 0 && StaysOut(c, range, num, k - 1)
    ensures forall i {:trigger w[i]} | 0 < i < k :: w[i] >= range
  {
    forall i | 0 < i < k ensures w[i] >= range {
      StaysOutAt(c, range, num, k - 1, i);
    }
  }

  lemma WalkedBy(p: Prims, num: nat, y: nat, range: nat, key: Key, n: nat, k: nat, w: seq<nat>)
    requires n > 0 && Pow2(n - 1) <= range < Pow2(n) && k > 0
    requires |w| == k + 1 && w[0] == num && w[k] == y < range
    requires forall i {:trigger w[i]} | 0 < i < k :: w[i] >= range
    requires forall i: nat {:trigger StepAt(p, w, i, n, key)} | i < k :: StepAt(p, w, i, n, key)
    ensures Walked(p, num, y, range, key, n, w)
  {
  }

  /** The walk takes the blocks of the network, up to the first one in range. */
  lemma WalkWalked(p: Prims, num: nat, range: nat, key: Key)
    requires num < range
    ensures exists n, w :: Walked(p, num, Walk(p, num, range, key), range, key, n, w)
  {
    var n, y := BlockLength(range), Walk(p, num, range, key);
    BlockLengthSmallest(range);
    var k, w := ReturnOrbit(p, num, range, key, y);
    forall i: nat | i < k ensures StepAt(p, w, i, n, key) {
      OrbitRounds(p, num, n, key, WalkCipher(p, range, key, false), k, w, i);
    }
    WalkedBy(p, num, y, range, key, n, k, w);
  }

  lemma ReturnOrbit(p: Prims, num: nat, range: nat, key: Key, y: nat) returns (k: nat, w: seq<nat>)
    requires num < range && y == Walk(p, num, range, key)
    ensures k > 0 && w == Orbit(WalkCipher(p, range, key, false), num, k)
    ensures |w| == k + 1 && w[0] == num && w[k] == y
    ensures forall i {:trigger w[i]} | 0 < i < k :: w[i] >= range
  {
    var c := WalkCipher(p, range, key, false);
    k :| FirstReturn(c, range, num, y, k);
    w := Orbit(c, num, k);
    OrbitOut(range, num, c, k, w);
  }

  /** The inverse walk finds the point from which the walk leads to num. */
  lemma WalkInvWalked(p: Prims, num: nat, range: nat, key: Key)
    requires num < range
    ensures exists n, w :: Walked(p, WalkInv(p, num, range, key), num, range, key, n, w)
  {
    WalkWalked(p, WalkInv(p, num, range, key), range, key);
    WalkInverse(p, num, range, key);
  }

  // ---- The loops of the source

  method CycleWalk(p: Prims, num: nat, range: nat, key: Key) returns (r: Result<nat>)
    requires range < UINT32_SIZE
    ensures r.Ok? <==> num < range
    ensures r.Ok? ==> r.value == Walk(p, num, range, key)
    ensures r.Ok? ==> exists n, w :: Walked(p, num, r.value, range, key, n, w)
  {
    if num >= range {
      return Err(InvalidArgument("PRP input is invalid"));
    }
    ghost var c := CipherFacts(p, key, BlockLength(range), false);
    BlockLength32(range);
    BlockLengthSmallest(range);
    var tmp := WalkLoop(p, num, range, BlockLength(range), key, c);
    ghost var k :| FirstReturn(c, range, num, tmp, k);
    WalkIs(p, num, range, key, false, tmp, k);
    WalkWalked(p, num, range, key);
    return Ok(tmp);
  }

  /** The block that the network takes b to. */
  method Forward(p: Prims, b: nat, cnt: nat, key: Key, ghost c: Permutation) returns (d: nat)
    requires 1 <= cnt <= 32 && b < Pow2(cnt) && c.to(b) == Rounds(p, b, cnt, key, ROUNDS)
    ensures d == c.to(b) < Pow2(cnt)
  {
    d := FeistelPrp(p, b, cnt, ROUNDS, key);
  }

  /** The block that the inverse network takes b to. */
  method Backward(p: Prims, b: nat, cnt: nat, key: Key, ghost c: Permutation) returns (d: nat)
    requires 1 <= cnt <= 32 && b < Pow2(cnt) && c.to(b) == RoundsInv(p, b, cnt, key, ROUNDS)
    ensures d == c.to(b) < Pow2(cnt)
  {
    d := FeistelInvPrp(p, b, cnt, ROUNDS, key);
  }

  method WalkLoop(p: Prims, num: nat, range: nat, cnt: nat, key: Key, ghost c: Permutation)
    returns (tmp: nat)
    requires 1 <= cnt <= 32 && num < range <= Pow2(cnt)
    requires c.Valid() && c.size == Pow2(cnt)
    requires forall b: nat {:trigger c.Has(b)} | c.Has(b) :: c.to(b) == Rounds(p, b, cnt, key, ROUNDS)
    ensures exists k :: FirstReturn(c, range, num, tmp, k)
  {
    assert c.Has(num);
    tmp := Forward(p, num, cnt, key, c);
    ReachesFirst(c, range, num, tmp);
    ghost var k := 1;
    while tmp >= range
      invariant Reaches(c, range, num, tmp, k)
      decreases Pow2(cnt) - k
    {
      assert c.Has(tmp);
      var next := Forward(p, tmp, cnt, key, c);
      k := ReachesNext(c, range, num, tmp, next, k);
      tmp := next;
    }
    ReachesEnd(c, range, num, tmp, k);
  }

  method InvCycleWalk(p: Prims, num: nat, range: nat, key: Key) returns (r: Result<nat>)
    requires range < UINT32_SIZE
    ensures r.Ok? <==> num < range
    ensures r.Ok? ==> r.value == WalkInv(p, num, range, key)
    ensures r.Ok? ==> exists n, w :: Walked(p, r.value, num, range, key, n, w)
  {
    if num >= range {
      return Err(InvalidArgument("PRP input is invalid"));
    }
    ghost var c := CipherFacts(p, key, BlockLength(range), true);
    BlockLength32(range);
    BlockLengthSmallest(range);
    var tmp := InvWalkLoop(p, num, range, BlockLength(range), key, c);
    ghost var k :| FirstReturn(c, range, num, tmp, k);
    WalkIs(p, num, range, key, true, tmp, k);
    WalkInvWalked(p, num, range, key);
    return Ok(tmp);
  }

  method InvWalkLoop(p: Prims, num: nat, range: nat, cnt: nat, key: Key, ghost c: Permutation)
    returns (tmp: nat)
    requires 1 <= cnt <= 32 && num < range <= Pow2(cnt)
    requires c.Valid() && c.size == Pow2(cnt)
    requires forall b: nat {:trigger c.Has(b)} | c.Has(b) :: c.to(b) == RoundsInv(p, b, cnt, key, ROUNDS)
    ensures exists k :: FirstReturn(c, range, num, tmp, k)
  {
    assert c.Has(num);
    tmp := Backward(p, num, cnt, key, c);
    ReachesFirst(c, range, num, tmp);
    ghost var k := 1;
    while tmp >= range
      invariant Reaches(c, range, num, tmp, k)
      decreases Pow2(cnt) - k
    {
      assert c.Has(tmp);
      var next := Backward(p, tmp, cnt, key, c);
      k := ReachesNext(c, range, num, tmp, next, k);
      tmp := next;
    }
    ReachesEnd(c, range, num, tmp, k);
  }
}
