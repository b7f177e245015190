/** The store of 256-bit items that answers with the exclusive or of a selection. */
module HashStore {
  import opened Bits
  import opened Counting
  import opened DpfBlocks

  const HASH_SIZE: nat := BLOCK_SIZE * BLOCK_SIZE

  type Hash = x: nat | x < HASH_SIZE

  lemma HashPower()
    ensures Pow2(256) == HASH_SIZE
  {
    BlockPower();
    Pow2Square(128, BLOCK_SIZE);
  }

  function XorHash(a: Hash, b: Hash): Hash {
    HashPower();
    XorBound(a, b, 256);
    BitXor(a, b)
  }

  function AndHash(a: Hash, m: nat): Hash {
    AndBound(a, m);
    BitAnd(a, m)
  }

  /** `(tmp >> k) & 1`. */
  function BitOf(tmp: Byte, k: nat): (b: nat)
    ensures b == if BitAt(tmp, k) then 1 else 0
  {
    var x := Shr(tmp, k);
    if x > 0 then AndZero(x / 2); BitAnd(x, 1) else BitAnd(x, 1)
  }

  /** A register that holds four copies of the word `-b`. */
  function WordMask(b: nat): nat
    requires b < 2
  {
    Splat((WORD_SIZE - b) % WORD_SIZE, 64, 4)
  }

  lemma WordMaskZero(b: nat)
    requires b == 0
    ensures WordMask(b) == 0
  {
    FieldsOfZero(seq(4, _ => (WORD_SIZE - b) % WORD_SIZE), 64);
  }

  lemma WordMaskOne(b: nat)
    requires b == 1
    ensures WordMask(b) == Mask(256)
  {
    WordPower();
    FieldsOfOnes(seq(4, _ => (WORD_SIZE - b) % WORD_SIZE), 64);
  }

  lemma AndWordMask(x: Hash, b: nat)
    requires b < 2
    ensures AndHash(x, WordMask(b)) == if b == 1 then x else 0
  {
    if b == 0 {
      WordMaskZero(b);
      AndZero(x);
    } else {
      WordMaskOne(b);
      HashPower();
      AndOnes(x, 256);
    }
  }

  // ---- Accumulators

  /** The exclusive or of all accumulators, in the order in which they are folded. */
  function Fold(r: seq<Hash>): Hash {
    if r == [] then 0 else XorHash(Fold(r[..|r| - 1]), r[|r| - 1])
  }

  /** It does not matter which accumulator takes an item. */
  lemma {:induction false} FoldUpdate(r: seq<Hash>, k: nat, d: Hash)
    requires k < |r|
    ensures Fold(r[k := XorHash(r[k], d)]) == XorHash(Fold(r), d)
  {
    var s, last := r[k := XorHash(r[k], d)], |r| - 1;
    if k == last {
      assert s[..last] == r[..last];
      XorAssociates(Fold(r[..last]), r[last], d);
    } else {
      assert s[..last] == r[..last][k := XorHash(r[k], d)];
      FoldUpdate(r[..last], k, d);
      XorSwap(Fold(r[..last]), d, r[last]);
    }
  }

  lemma XorSwap(a: Hash, b: Hash, c: Hash)
    ensures XorHash(XorHash(a, b), c) == XorHash(XorHash(a, c), b)
  {
    XorAssociates(a, b, c);
    XorAssociates(a, c, b);
    XorCommutes(b, c);
  }

  lemma {:induction false} FoldZeros(r: seq<Hash>)
    requires forall i | 0 <= i < |r| :: r[i] == 0
    ensures Fold(r) == 0
  {
    if r != [] {
      FoldZeros(r[..|r| - 1]);
    }
  }

  /** Folding one more accumulator. */
  lemma FoldNext(r: seq<Hash>, n: nat)
    requires n < |r|
    ensures Fold(r[..n + 1]) == XorHash(Fold(r[..n]), r[n])
  {
    assert r[..n + 1][..n] == r[..n];
  }

  lemma FoldTwo(r: seq<Hash>)
    requires |r| >= 2
    ensures Fold(r[..2]) == XorHash(r[0], r[1])
  {
    XorCommutes(0, r[0]);
    XorWithZero(r[0]);
    FoldNext(r, 0);
    FoldNext(r, 1);
  }

  /** One step of the chain that folds the accumulators. */
  method FoldStep(r: seq<Hash>, result: Hash, n: nat) returns (next: Hash)
    requires n < |r| && result == Fold(r[..n])
    ensures next == Fold(r[..n + 1])
  {
    FoldNext(r, n);
    next := XorHash(result, r[n]);
  }

  method Combine(r: seq<Hash>) returns (result: Hash)
    requires |r| == 8
    ensures result == Fold(r)
  {
    FoldTwo(r);
    result := XorHash(r[0], r[1]);
    result := FoldStep(r, result, 2);
    result := FoldStep(r, result, 3);
    result := FoldStep(r, result, 4);
    result := FoldStep(r, result, 5);
    result := FoldStep(r, result, 6);
    result := FoldStep(r, result, 7);
    assert r[..8] == r;
  }

  /** The accumulators of selected items in `AnswerPir1`. */
  function Chosen(results: array2<Hash>): (r: seq<Hash>)
    requires results.Length0 == 8 && results.Length1 == 2
    reads results
    ensures |r| == 8 && forall k | 0 <= k < 8 :: r[k] == results[k, 1]
  {
    [results[0, 1], results[1, 1], results[2, 1], results[3, 1],
     results[4, 1], results[5, 1], results[6, 1], results[7, 1]]
  }

  /** The items below n whose bit is set in the indexing. */
  function Selected(data: seq<Hash>, indexing: seq<Byte>, n: nat): Hash
    requires n <= |data| <= 8 * |indexing|
  {
    if n == 0 then 0
    else if Bit(indexing, n - 1) then XorHash(Selected(data, indexing, n - 1), data[n - 1])
    else Selected(data, indexing, n - 1)
  }

  lemma SelectedNext(data: seq<Hash>, indexing: seq<Byte>, i: nat, k: nat)
    requires i % 8 == 0 && k < 8 && i + k < |data| <= 8 * |indexing|
    ensures i / 8 < |indexing|
    ensures Selected(data, indexing, i + k + 1) ==
      if BitAt(indexing[i / 8], k) then XorHash(Selected(data, indexing, i + k), data[i + k])
      else Selected(data, indexing, i + k)
  {
    assert (i + k) / 8 == i / 8 && (i + k) % 8 == k;
  }

  // ---- The selection bit by bit

  /** Whether item j is selected and has bit k. */
  ghost function Sets(data: seq<Hash>, indexing: seq<Byte>, k: nat): nat -> bool
    requires |data| <= 8 * |indexing|
  {
    (j: nat) => j < |data| && BitAt(indexing[j / 8], j % 8) && BitAt(data[j], k)
  }

  lemma Odd(m: nat, n: nat)
    requires n == m + 1
    ensures (n % 2 == 1) != (m % 2 == 1)
  {
  }

  lemma SelectedToggles(data: seq<Hash>, indexing: seq<Byte>, n: nat, k: nat)
    requires 0 < n <= |data| <= 8 * |indexing|
    ensures BitAt(Selected(data, indexing, n), k) <==>
      BitAt(Selected(data, indexing, n - 1), k) != Sets(data, indexing, k)(n - 1)
  {
    Toggled(Selected(data, indexing, n - 1), data[n - 1], k);
  }

  /** Bit k of the selection is set when an odd number of selected items has it. */
  lemma {:induction false} SelectedBit(data: seq<Hash>, indexing: seq<Byte>, n: nat, k: nat, has: nat -> bool)
    requires n <= |data| <= 8 * |indexing| && has == Sets(data, indexing, k)
    ensures BitAt(Selected(data, indexing, n), k) <==> |Holding(has, -1, n)| % 2 == 1
  {
    if n == 0 {
      BitOfZero(k);
      HoldingNone(has, -1);
    } else {
      SelectedBit(data, indexing, n - 1, k, has);
      HoldingNext(has, -1, n);
      SelectedToggles(data, indexing, n, k);
      if has(n - 1) {
        Odd(|Holding(has, -1, n - 1)|, |Holding(has, -1, n)|);
      }
    }
  }

  lemma Toggled(a: Hash, b: Hash, k: nat)
    ensures BitAt(XorHash(a, b), k) <==> BitAt(a, k) != BitAt(b, k)
  {
    BitAtXor(a, b, k);
  }

  /** The item whose bits are those parities. */
  ghost predicate OddlySet(data: seq<Hash>, indexing: seq<Byte>, item: Hash)
    requires |data| <= 8 * |indexing|
  {
    forall k: nat {:trigger BitAt(item, k)} :: BitAt(item, k) <==> |Holding(Sets(data, indexing, k), -1, |data|)| % 2 == 1
  }

  lemma SelectedIsOddlySet(data: seq<Hash>, indexing: seq<Byte>)
    requires |data| <= 8 * |indexing|
    ensures OddlySet(data, indexing, Selected(data, indexing, |data|))
  {
    forall k: nat
      ensures BitAt(Selected(data, indexing, |data|), k) <==> |Holding(Sets(data, indexing, k), -1, |data|)| % 2 == 1
    {
      SelectedBit(data, indexing, |data|, k, Sets(data, indexing, k));
    }
  }

  // ---- The store

  class HashDataStore {
    var data: seq<Hash>

    constructor ()
      ensures data == []
    {
      data := [];
    }

    method PushBack(item: Hash)
      modifies this
      ensures data == old(data) + [item]
    {
      data := data + [item];
    }

    /** One line of the loop of `AnswerPir1`: the slot of unselected items is scratch. */
    method Choose(results: array2<Hash>, indexing: seq<Byte>, i: nat, k: nat)
      requires results.Length0 == 8 && results.Length1 == 2
      requires i % 8 == 0 && k < 8 && i + k < |data| <= 8 * |indexing|
      requires Fold(Chosen(results)) == Selected(data, indexing, i + k)
      modifies results
      ensures Fold(Chosen(results)) == Selected(data, indexing, i + k + 1)
    {
      SelectedNext(data, indexing, i, k);
      FoldUpdate(Chosen(results), k, data[i + k]);
      ghost var before := Chosen(results);
      var bit := BitOf(indexing[i / 8], k);
      results[k, bit] := XorHash(results[k, 1], data[i + k]);
      assert Chosen(results) == if bit == 1 then before[k := XorHash(before[k], data[i + k])] else before;
    }

    method ChooseEight(results: array2<Hash>, indexing: seq<Byte>, i: nat)
      requires results.Length0 == 8 && results.Length1 == 2
      requires i % 8 == 0 && i + 8 <= |data| <= 8 * |indexing|
      requires Fold(Chosen(results)) == Selected(data, indexing, i)
      modifies results
      ensures Fold(Chosen(results)) == Selected(data, indexing, i + 8)
    {
      for k := 0 to 8
        invariant i + k <= |data| && Fold(Chosen(results)) == Selected(data, indexing, i + k)
      {
        Choose(results, indexing, i, k);
      }
    }

    method ChooseAll(results: array2<Hash>, indexing: seq<Byte>)
      requires results.Length0 == 8 && results.Length1 == 2
      requires |data| % 8 == 0 && |data| <= 8 * |indexing|
      requires Fold(Chosen(results)) == 0
      modifies results
      ensures Fold(Chosen(results)) == Selected(data, indexing, |data|)
    {
      ghost var q, m := 0, |data| / 8;
      var i := 0;
      while i < |data|
        invariant i == 8 * q && |data| == 8 * m && q <= m
        invariant Fold(Chosen(results)) == Selected(data, indexing, i)
      {
        ChooseEight(results, indexing, i);
        i, q := i + 8, q + 1;
      }
    }

    method AnswerPir1(indexing: seq<Byte>) returns (result: Hash)
      requires |data| % 8 == 0 && |data| <= 8 * |indexing|
      ensures result == Selected(data, indexing, |data|) && OddlySet(data, indexing, result)
    {
      var results := new Hash[8, 2]((_, _) => 0);
      FoldZeros(Chosen(results));
      ChooseAll(results, indexing);
      result := Combine(Chosen(results));
      SelectedIsOddlySet(data, indexing);
    }

    /** One line of the loop of `AnswerPir2`: items are masked by their bit. */
    method Masked(results: array<Hash>, indexing: seq<Byte>, i: nat, k: nat)
      requires results.Length == 8
      requires i % 8 == 0 && k < 8 && i + k < |data| <= 8 * |indexing|
      requires Fold(results[..]) == Selected(data, indexing, i + k)
      modifies results
      ensures Fold(results[..]) == Selected(data, indexing, i + k + 1)
    {
      SelectedNext(data, indexing, i, k);
      var bit := BitOf(indexing[i / 8], k);
      ghost var before := results[..];
      AndWordMask(data[i + k], bit);
      results[k] := XorHash(results[k], AndHash(data[i + k], WordMask(bit)));
      if bit == 1 {
        FoldUpdate(before, k, data[i + k]);
        assert results[..] == before[k := XorHash(before[k], data[i + k])];
      } else {
        XorWithZero(before[k]);
        assert results[..] == before;
      }
    }

    method MaskedEight(results: array<Hash>, indexing: seq<Byte>, i: nat)
      requires results.Length == 8
      requires i % 8 == 0 && i + 8 <= |data| <= 8 * |indexing|
      requires Fold(results[..]) == Selected(data, indexing, i)
      modifies results
      ensures Fold(results[..]) == Selected(data, indexing, i + 8)
    {
      for k := 0 to 8
        invariant i + k <= |data| && Fold(results[..]) == Selected(data, indexing, i + k)
      {
        Masked(results, indexing, i, k);
      }
    }

    method MaskedAll(results: array<Hash>, indexing: seq<Byte>)
      requires results.Length == 8
      requires |data| % 8 == 0 && |data| <= 8 * |indexing|
      requires Fold(results[..]) == 0
      modifies results
      ensures Fold(results[..]) == Selected(data, indexing, |data|)
    {
      ghost var q, m := 0, |data| / 8;
      var i := 0;
      while i < |data|
        invariant i == 8 * q && |data| == 8 * m && q <= m
        invariant Fold(results[..]) == Selected(data, indexing, i)
      {
        MaskedEight(results, indexing, i);
        i, q := i + 8, q + 1;
      }
    }

    method AnswerPir2(indexing: seq<Byte>) returns (result: Hash)
      requires |data| % 8 == 0 && |data| <= 8 * |indexing|
      ensures result == Selected(data, indexing, |data|) && OddlySet(data, indexing, result)
    {
      var results := new Hash[8](_ => 0);
      FoldZeros(results[..]);
      MaskedAll(results, indexing);
      result := Combine(results[..]);
      SelectedIsOddlySet(data, indexing);
    }
  }
}
