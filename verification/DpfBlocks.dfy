/** 128-bit registers as natural numbers, and the sixteen bytes that they occupy
    in memory, lowest byte first. */
module DpfBlocks {
  import opened Bits

  const BLOCK_SIZE: nat := 0x1_0000_0000_0000_0000_0000_0000_0000_0000

  const WORD_SIZE: nat := 0x1_0000_0000_0000_0000

  const TOP_BIT: nat := 0x8000_0000_0000_0000_0000_0000_0000_0000

  type Block = x: nat | x < BLOCK_SIZE

  lemma BlockPower()
    ensures Pow2(128) == BLOCK_SIZE && Pow2(127) == TOP_BIT
  {
    WordPower();
    Pow2Square(64, WORD_SIZE);
    Pow2Next(127);
  }

  lemma WordPower()
    ensures Pow2(64) == WORD_SIZE
  {
    Pow2Small();
    Pow2Square(8, 0x100);
    Pow2Square(16, 0x1_0000);
    Pow2Square(32, 0x1_0000_0000);
  }

  lemma Pow2Small()
    ensures Pow2(8) == 256 && Pow2(7) == 128
  {
    assert Pow2(4) == 16;
  }

  lemma Pow2Square(n: nat, v: nat)
    requires Pow2(n) == v
    ensures Pow2(n + n) == v * v
  {
    Pow2Double(n);
  }

  lemma Pow2Next(n: nat)
    ensures Pow2(n + 1) == 2 * Pow2(n)
  {
  }

  function XorBlock(a: Block, b: Block): Block {
    BlockPower();
    XorBound(a, b, 128);
    BitXor(a, b)
  }

  function XorByte(a: Byte, b: Byte): Byte {
    Pow2Small();
    XorBound(a, b, 8);
    BitXor(a, b)
  }

  /** The top bit of the register, which serves as the control bit. */
  function GetT(b: Block): (t: Byte)
    ensures t == 0 || t == 1
  {
    if b >= TOP_BIT then 1 else 0
  }

  /** The register without its top bit. */
  function Clr(b: Block): Block {
    if b >= TOP_BIT then b - TOP_BIT else b
  }

  /** The register is its top bit and what Clr leaves. */
  lemma TopAndRest(b: Block)
    ensures GetT(b) == Shr(b, 127) && Clr(b) == Low(b, 127)
  {
    BlockPower();
    ShrBound(b, 127, 128);
    LowBound(b, 127);
    JoinSplit(b, 127);
    JoinSum(Shr(b, 127), Low(b, 127), 127);
  }

  lemma TopBit(b: Block)
    ensures GetT(b) == 1 <==> BitAt(b, 127)
  {
    TopAndRest(b);
  }

  lemma ClearedBit(b: Block, k: nat)
    ensures BitAt(Clr(b), k) <==> k < 127 && BitAt(b, k)
  {
    TopAndRest(b);
    if k < 127 {
      BitAtLow(b, k, 127);
    } else {
      BitAtLowAbove(b, k, 127);
    }
  }

  // ---- Bytes

  /** The lowest n bytes of a word. */
  function Bytes(x: nat, n: nat): (q: seq<Byte>)
    ensures |q| == n
    decreases n, x
  {
    Pow2Small();
    LowBound(x, 8);
    if n == 0 then [] else [Low(x, 8)] + Bytes(Shr(x, 8), n - 1)
  }

  function FromBytes(q: seq<Byte>): nat {
    if q == [] then 0 else Join(FromBytes(q[1..]), q[0], 8)
  }

  lemma {:induction false} BytesRoundTrip(x: nat, n: nat)
    requires x < Pow2(8 * n)
    ensures FromBytes(Bytes(x, n)) == x
    decreases n
  {
    if n > 0 {
      ShrBound(x, 8, 8 * n);
      BytesRoundTrip(Shr(x, 8), n - 1);
      assert Bytes(x, n)[1..] == Bytes(Shr(x, 8), n - 1);
      JoinSplit(x, 8);
    }
  }

  lemma {:induction false} FromBytesBound(q: seq<Byte>)
    ensures FromBytes(q) < Pow2(8 * |q|)
  {
    if q != [] {
      FromBytesBound(q[1..]);
      JoinBound(FromBytes(q[1..]), q[0], 8 * (|q| - 1), 8, 8 * |q|);
    }
  }

  lemma {:induction false} BytesOf(q: seq<Byte>)
    ensures Bytes(FromBytes(q), |q|) == q
  {
    if q != [] {
      BytesOf(q[1..]);
      Pow2Small();
      SplitJoin(FromBytes(q[1..]), q[0], 8);
      assert q == [q[0]] + q[1..];
    }
  }

  function ToBytes(b: Block): (q: seq<Byte>)
    ensures |q| == 16
  {
    Bytes(b, 16)
  }

  function ToBlock(q: seq<Byte>): Block
    requires |q| == 16
  {
    FromBytesBound(q);
    BlockPower();
    FromBytes(q)
  }

  lemma BlockRoundTrip(b: Block)
    ensures ToBlock(ToBytes(b)) == b
  {
    BlockPower();
    BytesRoundTrip(b, 16);
  }

  // ---- Single bits

  /** Bit k of a string of bytes. */
  predicate Bit(data: seq<Byte>, k: nat)
    requires k < 8 * |data|
  {
    BitAt(data[k / 8], k % 8)
  }

  /** Bits in memory are the bits of the register. */
  lemma {:induction false} BitOfBytes(x: nat, n: nat, k: nat)
    requires k < 8 * n
    ensures Bit(Bytes(x, n), k) <==> BitAt(x, k)
    decreases n
  {
    var q := Bytes(x, n);
    if k < 8 {
      assert q[0] == Low(x, 8);
      BitAtLow(x, k, 8);
    } else {
      BitOfBytes(Shr(x, 8), n - 1, k - 8);
      assert q[1..] == Bytes(Shr(x, 8), n - 1);
      assert q[k / 8] == q[1..][(k - 8) / 8];
      ShrShr(x, 8, k - 8);
    }
  }

  lemma {:induction false} BitAtPow2(k: nat, m: nat)
    ensures BitAt(Pow2(k), m) <==> m == k
    decreases m
  {
    if m > 0 {
      if k == 0 {
        ShrBound(0, m - 1, m - 1);
      } else {
        BitAtPow2(k - 1, m - 1);
      }
    }
  }

  /** The register with only bit k set, written as one byte among zeros. */
  function OneHotBlock(k: nat): Block
    requires k < 128
  {
    ToBlock(OneHotBytes(k / 8, k % 8))
  }

  function OneHotBytes(byte: nat, bit: nat): (q: seq<Byte>)
    requires byte < 16 && bit < 8
    ensures |q| == 16
    ensures forall i | 0 <= i < 16 :: q[i] == if i == byte then Pow2(bit) else 0
  {
    Pow2Small();
    Pow2Monotone(bit, 7);
    [0, 0, 0, 0, 0, 0, 0, 0, 0, 0, 0, 0, 0, 0, 0, 0][byte := Pow2(bit)]
  }

  lemma OneHotByteBit(byte: nat, bit: nat, i: nat, j: nat)
    requires byte < 16 && bit < 8 && i < 16 && j < 8
    ensures BitAt(OneHotBytes(byte, bit)[i], j) <==> i == byte && j == bit
  {
    if i == byte {
      BitAtPow2(bit, j);
    } else {
      ShrBound(0, j, j);
    }
  }

  lemma ByteBit(q: seq<Byte>, m: nat)
    requires |q| == 16 && m < 128
    ensures BitAt(ToBlock(q), m) <==> BitAt(q[m / 8], m % 8)
  {
    BytesOf(q);
    BitOfBytes(ToBlock(q), 16, m);
  }

  lemma OneHotBit(k: nat, m: nat)
    requires k < 128 && m < 128
    ensures BitAt(OneHotBlock(k), m) <==> m == k
  {
    ByteBit(OneHotBytes(k / 8, k % 8), m);
    OneHotByteBit(k / 8, k % 8, m / 8, m % 8);
  }
}
