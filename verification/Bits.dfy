/** Machine words as natural numbers, with the shifts and bitwise operators of
    the source, and the facts about fields, masks and exclusive or that the
    models need. Everything recurses on the lowest bit. */
module Bits {

  type Byte = x: nat | x < 256

  function Pow2(n: nat): (r: nat)
    ensures r > 0
  {
    if n == 0 then 1 else 2 * Pow2(n - 1)
  }

  function BitAnd(a: nat, b: nat): nat
    decreases a
  {
    if a == 0 then 0
    else 2 * BitAnd(a / 2, b / 2) + (if a % 2 == 1 && b % 2 == 1 then 1 else 0)
  }

  function BitOr(a: nat, b: nat): nat
    decreases a + b
  {
    if a == 0 && b == 0 then 0
    else 2 * BitOr(a / 2, b / 2) + (if a % 2 == 1 || b % 2 == 1 then 1 else 0)
  }

  function BitXor(a: nat, b: nat): nat
    decreases a + b
  {
    if a == 0 && b == 0 then 0
    else 2 * BitXor(a / 2, b / 2) + (if a % 2 != b % 2 then 1 else 0)
  }

  /** `x >> k`. */
  function Shr(x: nat, k: nat): nat {
    if k == 0 then x else Shr(x / 2, k - 1)
  }

  /** `x << k`, without a register width. */
  function Shl(x: nat, k: nat): nat {
    if k == 0 then x else 2 * Shl(x, k - 1)
  }

  /** The lowest k bits of x. */
  function Low(x: nat, k: nat): nat {
    if k == 0 then 0 else 2 * Low(x / 2, k - 1) + x % 2
  }

  /** `x << k` in a 32-bit register. */
  function Shl32(x: nat, k: nat): nat {
    Low(Shl(x, k), 32)
  }

  /** Bit k of a word. */
  predicate BitAt(x: nat, k: nat) {
    Shr(x, k) % 2 == 1
  }

  /** The mask `(1 << k) - 1`. */
  function Mask(k: nat): nat {
    Pow2(k) - 1
  }

  /** The word with the fields `hi` above and `lo` in its lowest k bits. */
  function Join(hi: nat, lo: nat, k: nat): nat {
    if k == 0 then hi else 2 * Join(hi, lo / 2, k - 1) + lo % 2
  }

  /** The word made of fields of w bits, the lowest field first. */
  function FromFields(q: seq<nat>, w: nat): nat {
    if q == [] then 0 else Join(FromFields(q[1..], w), q[0], w)
  }

  /** The register that holds n copies of the field v. */
  function Splat(v: nat, w: nat, n: nat): nat {
    FromFields(seq(n, _ => v), w)
  }

  /** The integer part of the binary logarithm. */
  function Log2(x: nat): nat
    requires 1 <= x
  {
    if x == 1 then 0 else 1 + Log2(x / 2)
  }

  // ---- Powers of two

  lemma {:induction false} Log2Bounds(x: nat)
    requires 1 <= x
    ensures Pow2(Log2(x)) <= x < Pow2(Log2(x) + 1)
  {
    if x > 1 {
      Log2Bounds(x / 2);
    }
  }

  lemma {:induction false} Pow2Monotone(a: nat, b: nat)
    requires a <= b
    ensures Pow2(a) <= Pow2(b)
  {
    if a > 0 {
      Pow2Monotone(a - 1, b - 1);
    }
  }

  lemma {:induction false} Pow2Double(n: nat)
    ensures Pow2(n + n) == Pow2(n) * Pow2(n)
  {
    Pow2Add(n, n);
  }

  lemma {:induction false} Pow2Add(a: nat, b: nat)
    ensures Pow2(a + b) == Pow2(a) * Pow2(b)
  {
    if a > 0 {
      Pow2Add(a - 1, b);
      assert Pow2(a + b) == 2 * Pow2(a - 1 + b);
      assert 2 * (Pow2(a - 1) * Pow2(b)) == (2 * Pow2(a - 1)) * Pow2(b);
    }
  }

  // ---- Fields

  lemma {:induction false} LowBound(x: nat, k: nat)
    ensures Low(x, k) < Pow2(k)
  {
    if k > 0 {
      LowBound(x / 2, k - 1);
    }
  }

  lemma {:induction false} LowId(x: nat, k: nat)
    requires x < Pow2(k)
    ensures Low(x, k) == x
  {
    if k > 0 {
      LowId(x / 2, k - 1);
    }
  }

  lemma {:induction false} ShrBound(x: nat, k: nat, n: nat)
    requires k <= n && x < Pow2(n)
    ensures Shr(x, k) < Pow2(n - k)
  {
    if k > 0 {
      ShrBound(x / 2, k - 1, n - 1);
    }
  }

  lemma {:induction false} JoinBound(hi: nat, lo: nat, h: nat, k: nat, n: nat)
    requires n == h + k && hi < Pow2(h)
    ensures Join(hi, lo, k) < Pow2(n)
  {
    if k > 0 {
      JoinBound(hi, lo / 2, h, k - 1, n - 1);
    }
  }

  lemma {:induction false} SplitJoin(hi: nat, lo: nat, k: nat)
    requires lo < Pow2(k)
    ensures Shr(Join(hi, lo, k), k) == hi
    ensures Low(Join(hi, lo, k), k) == lo
  {
    if k > 0 {
      SplitJoin(hi, lo / 2, k - 1);
    }
  }

  lemma {:induction false} JoinSplit(b: nat, k: nat)
    ensures Join(Shr(b, k), Low(b, k), k) == b
  {
    if k > 0 {
      JoinSplit(b / 2, k - 1);
      var lo := Low(b, k);
      assert lo / 2 == Low(b / 2, k - 1) && lo % 2 == b % 2;
    }
  }

  lemma {:induction false} JoinSum(hi: nat, lo: nat, k: nat)
    requires lo < Pow2(k)
    ensures Join(hi, lo, k) == Pow2(k) * hi + lo
  {
    if k > 0 {
      JoinSum(hi, lo / 2, k - 1);
      assert 2 * (Pow2(k - 1) * hi) == (2 * Pow2(k - 1)) * hi;
    }
  }

  lemma {:induction false} ShrShr(x: nat, k: nat, m: nat)
    ensures Shr(Shr(x, k), m) == Shr(x, k + m)
  {
    if k > 0 {
      ShrShr(x / 2, k - 1, m);
    }
  }

  lemma {:induction false} BitAtLow(x: nat, k: nat, m: nat)
    requires k < m
    ensures BitAt(Low(x, m), k) <==> BitAt(x, k)
    decreases k
  {
    if k > 0 {
      BitAtLow(x / 2, k - 1, m - 1);
      assert Low(x, m) / 2 == Low(x / 2, m - 1);
    }
  }

  // ---- Shifts and fields as quotients, remainders and single bits

  lemma QuotientUnique(x: nat, m: nat, q: nat, r: nat)
    requires r < m && x == m * q + r
    ensures x / m == q && x % m == r
  {
    QuotientIs(x / m, x % m, q, r, m);
  }

  lemma QuotientIs(q: nat, r: nat, q': nat, r': nat, m: nat)
    requires r < m && r' < m && m * q + r == m * q' + r'
    ensures q == q' && r == r'
  {
    if q < q' {
      MulStep(m, q, q');
    } else if q' < q {
      MulStep(m, q', q);
    }
  }

  lemma MulStep(m: nat, a: nat, b: nat)
    requires a < b
    ensures m * a + m <= m * b
  {
    assert m * b == m * a + m * (b - a);
    assert m * (b - a) == m + m * (b - a - 1);
  }

  /** `x >> k` divides by 2^k, and the lowest k bits are the remainder. */
  lemma ShrIsQuotient(x: nat, k: nat)
    ensures Shr(x, k) == x / Pow2(k) && Low(x, k) == x % Pow2(k)
  {
    LowBound(x, k);
    JoinSplit(x, k);
    JoinSum(Shr(x, k), Low(x, k), k);
    QuotientUnique(x, Pow2(k), Shr(x, k), Low(x, k));
  }

  lemma {:induction false} BitOfZero(k: nat)
    ensures !BitAt(0, k)
  {
    if k > 0 {
      BitOfZero(k - 1);
    }
  }

  lemma {:induction false} BitAtLowAbove(x: nat, k: nat, m: nat)
    requires m <= k
    ensures !BitAt(Low(x, m), k)
    decreases k
  {
    if m == 0 {
      BitOfZero(k);
    } else {
      BitAtLowAbove(x / 2, k - 1, m - 1);
      assert Low(x, m) / 2 == Low(x / 2, m - 1);
    }
  }

  /** A number below 2^n has no bit from n on. */
  lemma {:induction false} BitAbove(x: nat, n: nat, k: nat)
    requires x < Pow2(n) && n <= k
    ensures !BitAt(x, k)
  {
    LowId(x, n);
    BitAtLowAbove(x, k, n);
  }

  lemma {:induction false} BitAtJoin(hi: nat, lo: nat, k: nat, m: nat)
    ensures BitAt(Join(hi, lo, k), m) <==> if m < k then BitAt(lo, m) else BitAt(hi, m - k)
    decreases k
  {
    if k > 0 {
      assert Join(hi, lo, k) / 2 == Join(hi, lo / 2, k - 1) && Join(hi, lo, k) % 2 == lo % 2;
      if m > 0 {
        BitAtJoin(hi, lo / 2, k - 1, m - 1);
      }
    }
  }

  lemma {:induction false} BitAtAnd(a: nat, b: nat, k: nat)
    ensures BitAt(BitAnd(a, b), k) <==> BitAt(a, k) && BitAt(b, k)
    decreases k
  {
    AndParts(a, b);
    if k > 0 {
      BitAtAnd(a / 2, b / 2, k - 1);
    }
  }

  lemma AndParts(a: nat, b: nat)
    ensures BitAnd(a, b) / 2 == BitAnd(a / 2, b / 2)
    ensures BitAnd(a, b) % 2 == if a % 2 == 1 && b % 2 == 1 then 1 else 0
  {
  }

  lemma {:induction false} BitAtOr(a: nat, b: nat, k: nat)
    ensures BitAt(BitOr(a, b), k) <==> BitAt(a, k) || BitAt(b, k)
    decreases k
  {
    OrParts(a, b);
    if k > 0 {
      BitAtOr(a / 2, b / 2, k - 1);
    }
  }

  lemma OrParts(a: nat, b: nat)
    ensures BitOr(a, b) / 2 == BitOr(a / 2, b / 2)
    ensures BitOr(a, b) % 2 == if a % 2 == 1 || b % 2 == 1 then 1 else 0
  {
  }

  lemma {:induction false} BitAtXor(a: nat, b: nat, k: nat)
    ensures BitAt(BitXor(a, b), k) <==> BitAt(a, k) != BitAt(b, k)
    decreases k
  {
    XorParts(a, b);
    if k > 0 {
      BitAtXor(a / 2, b / 2, k - 1);
    }
  }

  lemma {:induction false} BitAtShl(x: nat, k: nat, m: nat)
    ensures BitAt(Shl(x, k), m) <==> m >= k && BitAt(x, m - k)
    decreases k
  {
    if k > 0 {
      assert Shl(x, k) / 2 == Shl(x, k - 1) && Shl(x, k) % 2 == 0;
      if m > 0 {
        BitAtShl(x, k - 1, m - 1);
      }
    }
  }

  /** Bit j of field i of a register. */
  lemma {:induction false} BitAtFields(q: seq<nat>, w: nat, i: nat, j: nat)
    requires i < |q| && j < w
    ensures BitAt(FromFields(q, w), w * i + j) <==> BitAt(q[i], j)
    decreases i
  {
    BitAtJoin(FromFields(q[1..], w), q[0], w, w * i + j);
    if i > 0 {
      assert w * i + j - w == w * (i - 1) + j;
      MulStep(w, 0, i);
      BitAtFields(q[1..], w, i - 1, j);
    } else {
      assert w * i == 0;
    }
  }

  // ---- Shifts as sums

  lemma {:induction false} ShlSum(a: nat, b: nat, k: nat)
    ensures Shl(a + b, k) == Shl(a, k) + Shl(b, k)
  {
    if k > 0 {
      ShlSum(a, b, k - 1);
    }
  }

  lemma {:induction false} ShlOne(k: nat)
    ensures Shl(1, k) == Pow2(k) && Shl(0, k) == 0
  {
    if k > 0 {
      ShlOne(k - 1);
    }
  }

  /** Shifting the children of j one bit less. */
  lemma {:induction false} ShlChildren(j: nat, k: nat)
    ensures Shl(2 * j, k) == Shl(j, k + 1) && Shl(2 * j + 1, k) == Shl(j, k + 1) + Pow2(k)
  {
    ShlSum(j, j, k);
    ShlSum(2 * j, 1, k);
    ShlOne(k);
  }

  lemma {:induction false} JoinIsShl(hi: nat, lo: nat, k: nat)
    requires lo < Pow2(k)
    ensures Join(hi, lo, k) == Shl(hi, k) + lo
  {
    if k > 0 {
      JoinIsShl(hi, lo / 2, k - 1);
    }
  }

  lemma {:induction false} ShrMask(n: nat, k: nat)
    requires k <= n
    ensures Shr(Mask(n), k) == Mask(n - k)
  {
    if k > 0 {
      assert Mask(n) / 2 == Mask(n - 1);
      ShrMask(n - 1, k - 1);
    }
  }

  // ---- The source's operators on fields

  lemma {:induction false} AndZero(x: nat)
    ensures BitAnd(x, 0) == 0
  {
    if x > 0 {
      AndZero(x / 2);
    }
  }

  lemma {:induction false} AndBound(a: nat, b: nat)
    ensures BitAnd(a, b) <= a
    decreases a
  {
    if a != 0 {
      AndBound(a / 2, b / 2);
    }
  }

  lemma {:induction false} AndMask(x: nat, k: nat)
    ensures BitAnd(x, Mask(k)) == Low(x, k)
    decreases k
  {
    if k == 0 {
      AndZero(x);
    } else if x > 0 {
      AndMask(x / 2, k - 1);
    } else {
      LowId(0, k);
    }
  }

  /** Testing one bit: `x & (1 << k)` is the bit, in its place. */
  lemma {:induction false} AndBit(x: nat, k: nat)
    ensures BitAnd(x, Pow2(k)) == if Shr(x, k) % 2 == 1 then Pow2(k) else 0
    decreases k
  {
    if k == 0 {
      AndOne(x);
    } else {
      AndBit(x / 2, k - 1);
      AndEven(x, Pow2(k - 1));
    }
  }

  lemma AndOne(x: nat)
    ensures BitAnd(x, 1) == x % 2
  {
    if x > 0 {
      AndZero(x / 2);
    }
  }

  lemma AndEven(x: nat, w: nat)
    ensures BitAnd(x, 2 * w) == 2 * BitAnd(x / 2, w)
  {
    assert 2 * w % 2 == 0 && 2 * w / 2 == w;
    assert BitAnd(0, w) == 0;
  }

  /** Or-ing a shifted field with a narrower one packs the two. */
  lemma {:induction false} OrJoin(hi: nat, lo: nat, k: nat)
    requires lo < Pow2(k)
    ensures BitOr(Shl(hi, k), lo) == Join(hi, lo, k)
    decreases k
  {
    if k == 0 {
      OrZero(hi);
    } else {
      OrJoin(hi, lo / 2, k - 1);
    }
  }

  lemma {:induction false} OrZero(x: nat)
    ensures BitOr(x, 0) == x
  {
    if x > 0 {
      OrZero(x / 2);
    }
  }

  lemma {:induction false} ShlBound(x: nat, k: nat, n: nat)
    requires k <= n && x < Pow2(n - k)
    ensures Shl(x, k) < Pow2(n)
  {
    if k > 0 {
      ShlBound(x, k - 1, n - 1);
    }
  }

  /** The same packing through a 32-bit register, when the result fits. */
  lemma OrJoin32(hi: nat, lo: nat, h: nat, k: nat, n: nat)
    requires n == h + k <= 32 && hi < Pow2(h) && lo < Pow2(k)
    ensures BitOr(Shl32(hi, k), lo) == Join(hi, lo, k) < Pow2(n)
  {
    ShlBound(hi, k, n);
    Pow2Monotone(n, 32);
    LowId(Shl(hi, k), 32);
    OrJoin(hi, lo, k);
    JoinBound(hi, lo, h, k, n);
  }

  // ---- Exclusive or

  lemma {:induction false} XorCancel(a: nat, b: nat)
    ensures BitXor(BitXor(a, b), b) == a
    decreases a + b
  {
    if a != 0 || b != 0 {
      XorCancel(a / 2, b / 2);
      XorParts(a, b);
      XorParts(BitXor(a, b), b);
      SameParts(BitXor(BitXor(a, b), b), a);
    }
  }

  lemma SameParts(x: nat, y: nat)
    requires x / 2 == y / 2 && x % 2 == y % 2
    ensures x == y
  {
  }

  lemma {:induction false} XorWithZero(a: nat)
    ensures BitXor(a, 0) == a
  {
    if a != 0 {
      XorWithZero(a / 2);
    }
  }

  lemma {:induction false} XorCommutes(a: nat, b: nat)
    ensures BitXor(a, b) == BitXor(b, a)
    decreases a + b
  {
    if a != 0 || b != 0 {
      XorCommutes(a / 2, b / 2);
    }
  }

  lemma {:induction false} XorAssociates(a: nat, b: nat, c: nat)
    ensures BitXor(BitXor(a, b), c) == BitXor(a, BitXor(b, c))
    decreases a + b + c
  {
    if a != 0 || b != 0 || c != 0 {
      XorAssociates(a / 2, b / 2, c / 2);
      XorParts(a, b);
      XorParts(b, c);
      XorParts(BitXor(a, b), c);
      XorParts(a, BitXor(b, c));
      SameParts(BitXor(BitXor(a, b), c), BitXor(a, BitXor(b, c)));
    }
  }

  lemma XorParts(a: nat, b: nat)
    ensures BitXor(a, b) / 2 == BitXor(a / 2, b / 2)
    ensures BitXor(a, b) % 2 == if a % 2 != b % 2 then 1 else 0
  {
  }

  lemma {:induction false} XorBound(a: nat, b: nat, k: nat)
    requires a < Pow2(k) && b < Pow2(k)
    ensures BitXor(a, b) < Pow2(k)
  {
    if k > 0 {
      XorBound(a / 2, b / 2, k - 1);
    }
  }

  // ---- Mixing one field of a split word with a mask

  lemma SplitBounds(b: nat, h: nat, k: nat, n: nat)
    requires n == h + k && b < Pow2(n)
    ensures Shr(b, k) < Pow2(h) && Low(b, k) < Pow2(k)
    ensures Join(Shr(b, k), Low(b, k), k) == b
  {
    ShrBound(b, k, n);
    LowBound(b, k);
    JoinSplit(b, k);
  }

  lemma MixLow(hi: nat, lo: nat, f: nat, h: nat, k: nat, n: nat)
    requires n == h + k && hi < Pow2(h) && lo < Pow2(k) && f < Pow2(k)
    ensures BitXor(lo, f) < Pow2(k)
    ensures var c := Join(hi, BitXor(lo, f), k);
      c < Pow2(n) && Shr(c, k) == hi && BitXor(Low(c, k), f) == lo
  {
    var mixed := BitXor(lo, f);
    XorBound(lo, f, k);
    XorCancel(lo, f);
    JoinBound(hi, mixed, h, k, n);
    SplitJoin(hi, mixed, k);
  }

  lemma MixHigh(hi: nat, lo: nat, f: nat, h: nat, k: nat, n: nat)
    requires n == h + k && hi < Pow2(h) && lo < Pow2(k) && f < Pow2(h)
    ensures BitXor(hi, f) < Pow2(h)
    ensures var c := Join(BitXor(hi, f), lo, k);
      c < Pow2(n) && Low(c, k) == lo && BitXor(Shr(c, k), f) == hi
  {
    var mixed := BitXor(hi, f);
    XorBound(hi, f, h);
    XorCancel(hi, f);
    JoinBound(mixed, lo, h, k, n);
    SplitJoin(mixed, lo, k);
  }

  // ---- Masks that keep all of a register or nothing

  lemma {:induction false} FieldsOfZero(q: seq<nat>, w: nat)
    requires forall i | 0 <= i < |q| :: q[i] == 0
    ensures FromFields(q, w) == 0
  {
    if q != [] {
      FieldsOfZero(q[1..], w);
      JoinSum(0, 0, w);
    }
  }

  lemma {:induction false} FieldsOfOnes(q: seq<nat>, w: nat)
    requires forall i | 0 <= i < |q| :: q[i] == Mask(w)
    ensures FromFields(q, w) == Mask(|q| * w)
  {
    if q != [] {
      var k := (|q| - 1) * w;
      FieldsOfOnes(q[1..], w);
      JoinSum(Mask(k), Mask(w), w);
      Pow2Add(k, w);
      OnesSum(Pow2(k), Pow2(w));
      assert k + w == |q| * w;
    }
  }

  lemma OnesSum(p: nat, q: nat)
    ensures q * (p - 1) + (q - 1) == p * q - 1
  {
  }

  lemma AndOnes(x: nat, k: nat)
    requires x < Pow2(k)
    ensures BitAnd(x, Mask(k)) == x
  {
    AndMask(x, k);
    LowId(x, k);
  }
}
