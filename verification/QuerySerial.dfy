/** Packing of key bytes into 32-bit words for transport. The last word is filled
    up with 0xFF, which is also how the receiver recognises the end. */
module QuerySerial {
  import opened Bits

  type Word = x: nat | x < 0x1_0000_0000

  datatype ClientQuery = ClientQuery(left: seq<Byte>, right: seq<Byte>)

  /** The message between both ends: two lists of words. */
  datatype Message = Message(left: seq<Word>, right: seq<Word>)

  // ---- Words as functions

  lemma WordSizes()
    ensures Pow2(8) == 0x100 && Pow2(16) == 0x1_0000 && Pow2(24) == 0x100_0000 && Pow2(32) == 0x1_0000_0000
  {
    assert Pow2(4) == 16;
    Pow2Add(4, 4);
    Pow2Add(8, 8);
    Pow2Add(16, 8);
    Pow2Add(16, 16);
  }

  /** Byte k of a key, or the filler behind its end. */
  function Padded(q: seq<Byte>, k: nat): Byte {
    if k < |q| then q[k] else 0xFF
  }

  /** The first b bytes of word i, each one below those before it. */
  function Leading(q: seq<Byte>, i: nat, b: nat): (w: nat)
    ensures w < Pow2(8 * b)
  {
    if b == 0 then 0
    else
      JoinBound(Leading(q, i, b - 1), Padded(q, 4 * i + b - 1), 8 * (b - 1), 8, 8 * b);
      Join(Leading(q, i, b - 1), Padded(q, 4 * i + b - 1), 8)
  }

  function WordAt(q: seq<Byte>, i: nat): Word {
    WordSizes();
    Leading(q, i, 4)
  }

  function Words(q: seq<Byte>): (w: seq<Word>)
    ensures |w| == |q| / 4 + 1
  {
    seq(|q| / 4 + 1, i requires i >= 0 => WordAt(q, i))
  }

  /** `(tmp >> k) & 0xFF`. */
  function Field(w: Word, k: nat): Byte {
    WordSizes();
    assert Mask(8) == 0xFF;
    AndMask(Shr(w, k), 8);
    LowBound(Shr(w, k), 8);
    BitAnd(Shr(w, k), 0xFF)
  }

  function FourBytes(w: Word): (s: seq<Byte>)
    ensures |s| == 4
  {
    [Field(w, 24), Field(w, 16), Field(w, 8), Field(w, 0)]
  }

  /** The bytes before the first 0xFF. */
  function Cut(s: seq<Byte>): (t: seq<Byte>)
    ensures |t| <= |s| && t == s[..|t|]
    ensures 0xFF !in t && (|t| < |s| ==> s[|t|] == 0xFF)
  {
    if s == [] || s[0] == 0xFF then [] else [s[0]] + Cut(s[1..])
  }

  /** The bytes of the last word; one without filler is taken twice. */
  function LastBytes(w: Word): seq<Byte> {
    if |Cut(FourBytes(w))| < 4 then Cut(FourBytes(w)) else FourBytes(w) + FourBytes(w)
  }

  function Unpacked(words: seq<Word>, n: nat): seq<Byte>
    requires n <= |words|
  {
    if n == 0 then []
    else Unpacked(words, n - 1) + if n == |words| then LastBytes(words[n - 1]) else FourBytes(words[n - 1])
  }

  // ---- Taking words apart again

  lemma LeadingDown(q: seq<Byte>, i: nat, b: nat)
    ensures Shr(Leading(q, i, b + 1), 8) == Leading(q, i, b)
    ensures Low(Leading(q, i, b + 1), 8) == Padded(q, 4 * i + b)
  {
    WordSizes();
    SplitJoin(Leading(q, i, b), Padded(q, 4 * i + b), 8);
  }

  lemma FieldIs(w: Word, k: nat)
    ensures Field(w, k) == Low(Shr(w, k), 8)
  {
    WordSizes();
    AndMask(Shr(w, k), 8);
  }

  lemma FourBytesOf(q: seq<Byte>, i: nat)
    ensures FourBytes(WordAt(q, i)) ==
      [Padded(q, 4 * i), Padded(q, 4 * i + 1), Padded(q, 4 * i + 2), Padded(q, 4 * i + 3)]
  {
    var w := WordAt(q, i);
    LeadingDown(q, i, 3);
    LeadingDown(q, i, 2);
    LeadingDown(q, i, 1);
    LeadingDown(q, i, 0);
    ShrShr(w, 8, 8);
    ShrShr(w, 16, 8);
    FieldIs(w, 24);
    FieldIs(w, 16);
    FieldIs(w, 8);
    FieldIs(w, 0);
  }

  lemma FourMore(q: seq<Byte>, k: nat)
    requires k + 4 <= |q|
    ensures q[..k + 4] == q[..k] + [Padded(q, k), Padded(q, k + 1), Padded(q, k + 2), Padded(q, k + 3)]
  {
  }

  /** All words but the last give the key back. */
  lemma {:induction false} UnpackedPrefix(q: seq<Byte>, n: nat)
    requires n <= |q| / 4
    ensures Unpacked(Words(q), n) == q[..4 * n]
  {
    if n > 0 {
      UnpackedPrefix(q, n - 1);
      FourBytesOf(q, n - 1);
      FourMore(q, 4 * (n - 1));
    }
  }

  /** No byte behind the last full word looks like filler. */
  predicate NoFiller(q: seq<Byte>) {
    forall k | 4 * (|q| / 4) <= k < |q| :: q[k] != 0xFF
  }

  lemma LastWord(q: seq<Byte>)
    ensures LastBytes(WordAt(q, |q| / 4)) == Cut(FourBytes(WordAt(q, |q| / 4)))
    ensures LastBytes(WordAt(q, |q| / 4)) == q[4 * (|q| / 4)..] <==> NoFiller(q)
  {
    var m, s := 4 * (|q| / 4), FourBytes(WordAt(q, |q| / 4));
    FourBytesOf(q, |q| / 4);
    assert forall k | m <= k < |q| :: q[k] == s[k - m];
    assert s[|q| - m] == 0xFF;
    if NoFiller(q) {
      assert |Cut(s)| == |q| - m;
    } else {
      var k :| m <= k < |q| && q[k] == 0xFF;
      assert s[k - m] == 0xFF;
    }
  }

  lemma WithRest(q: seq<Byte>, k: nat, rest: seq<Byte>)
    requires k <= |q|
    ensures q[..k] + rest == q <==> rest == q[k..]
  {
    assert q == q[..k] + q[k..];
    assert (q[..k] + rest)[k..] == rest;
  }

  /** Packing and unpacking restore a key exactly when none of its last
      `size % 4` bytes is 0xFF. */
  lemma RoundTripIff(q: seq<Byte>)
    ensures Unpacked(Words(q), |Words(q)|) == q <==> NoFiller(q)
  {
    var m := |q| / 4;
    UnpackedPrefix(q, m);
    LastWord(q);
    WithRest(q, 4 * m, LastBytes(WordAt(q, m)));
    assert Unpacked(Words(q), m + 1) == q[..4 * m] + LastBytes(WordAt(q, m));
  }

  /** A one-byte key that does not survive. */
  lemma LostByte()
    ensures var q: seq<Byte> := [0xFF]; Unpacked(Words(q), |Words(q)|) != q
  {
    var q: seq<Byte> := [0xFF];
    assert q[0] == 0xFF && 4 * (|q| / 4) == 0;
    RoundTripIff(q);
  }

  // ---- The layout in numbers

  /** The word holds four bytes of the key, the first one on top, and 0xFF behind its end. */
  ghost predicate BigEndian(q: seq<Byte>, i: nat, w: Word) {
    var a: nat := if 4 * i < |q| then q[4 * i] else 0xFF;
    var b: nat := if 4 * i + 1 < |q| then q[4 * i + 1] else 0xFF;
    var c: nat := if 4 * i + 2 < |q| then q[4 * i + 2] else 0xFF;
    var d: nat := if 4 * i + 3 < |q| then q[4 * i + 3] else 0xFF;
    w == 0x100_0000 * a + 0x1_0000 * b + 0x100 * c + d
  }

  lemma LeadingSum(q: seq<Byte>, i: nat, b: nat)
    ensures Leading(q, i, b + 1) == 0x100 * Leading(q, i, b) + Padded(q, 4 * i + b)
  {
    WordSizes();
    JoinSum(Leading(q, i, b), Padded(q, 4 * i + b), 8);
  }

  lemma WordIsBigEndian(q: seq<Byte>, i: nat)
    ensures BigEndian(q, i, WordAt(q, i))
  {
    LeadingSum(q, i, 0);
    LeadingSum(q, i, 1);
    LeadingSum(q, i, 2);
    LeadingSum(q, i, 3);
  }

  /** The four bytes of a word, the top one first. */
  ghost predicate BytesOfWord(s: seq<Byte>, w: Word) {
    |s| == 4 && s[0] == w / 0x100_0000 && s[1] == w / 0x1_0000 % 0x100 && s[2] == w / 0x100 % 0x100 && s[3] == w % 0x100
  }

  lemma FieldIsQuotient(w: Word, k: nat, m: nat)
    requires m == Pow2(k)
    ensures Field(w, k) == w / m % 0x100
  {
    WordSizes();
    FieldIs(w, k);
    ShrIsQuotient(w, k);
    ShrIsQuotient(Shr(w, k), 8);
  }

  lemma FourBytesInNumbers(w: Word)
    ensures BytesOfWord(FourBytes(w), w)
  {
    WordSizes();
    assert Pow2(0) == 1;
    FieldIsQuotient(w, 24, 0x100_0000);
    FieldIsQuotient(w, 16, 0x1_0000);
    FieldIsQuotient(w, 8, 0x100);
    FieldIsQuotient(w, 0, 1);
  }

  /** What the last word yields: its bytes before the first 0xFF, or all of them twice. */
  ghost predicate LastPart(tail: seq<Byte>, w: Word) {
    exists s: seq<Byte> :: BytesOfWord(s, w) &&
      if 0xFF in s then |tail| < 4 && s[|tail|] == 0xFF && 0xFF !in tail && tail == s[..|tail|]
      else tail == s + s
  }

  /** The bytes of word i lie at their place in the key. */
  ghost predicate WordPlaced(q: seq<Byte>, i: nat, w: Word) {
    4 * i + 4 <= |q| && BytesOfWord(q[4 * i..4 * i + 4], w)
  }

  /** All words but the last yield four bytes each. */
  ghost predicate Restored(words: seq<Word>, q: seq<Byte>) {
    if words == [] then q == []
    else
      var m := |words| - 1;
      && 4 * m <= |q| && LastPart(q[4 * m..], words[m])
      && forall i {:trigger words[i]} | 0 <= i < m :: WordPlaced(q, i, words[i])
  }

  lemma LastBytesInNumbers(w: Word)
    ensures LastPart(LastBytes(w), w)
  {
    var s := FourBytes(w);
    FourBytesInNumbers(w);
    var t := Cut(s);
    if |t| < 4 {
      assert s[|t|] in s;
    } else {
      assert t == s;
    }
    assert if 0xFF in s then |LastBytes(w)| < 4 && s[|LastBytes(w)|] == 0xFF && 0xFF !in LastBytes(w)
      && LastBytes(w) == s[..|LastBytes(w)|] else LastBytes(w) == s + s;
  }

  lemma {:induction false} UnpackedSize(words: seq<Word>, n: nat)
    requires n <= |words| && n != |words|
    ensures |Unpacked(words, n)| == 4 * n
  {
    if n > 0 {
      UnpackedSize(words, n - 1);
    }
  }

  lemma UnpackedNext(words: seq<Word>, i: nat)
    requires i < |words|
    ensures Unpacked(words, i + 1) ==
      Unpacked(words, i) + if i + 1 == |words| then LastBytes(words[i]) else FourBytes(words[i])
  {
  }

  lemma PlacedPrefix(q: seq<Byte>, tail: seq<Byte>, i: nat, w: Word)
    requires WordPlaced(q, i, w)
    ensures WordPlaced(q + tail, i, w)
  {
    assert (q + tail)[4 * i..4 * i + 4] == q[4 * i..4 * i + 4];
  }

  lemma PlacedLast(q: seq<Byte>, s: seq<Byte>, i: nat, w: Word)
    requires |q| == 4 * i && BytesOfWord(s, w)
    ensures WordPlaced(q + s, i, w)
  {
    assert (q + s)[4 * i..4 * i + 4] == s;
  }

  lemma {:induction false} FullWordsPlaced(words: seq<Word>, n: nat, i: nat, p: seq<Byte>)
    requires i < n < |words| && p == Unpacked(words, n)
    ensures WordPlaced(p, i, words[i])
    decreases n
  {
    var q, s := Unpacked(words, n - 1), FourBytes(words[n - 1]);
    UnpackedNext(words, n - 1);
    if i < n - 1 {
      FullWordsPlaced(words, n - 1, i, q);
      PlacedPrefix(q, s, i, words[i]);
    } else {
      UnpackedSize(words, n - 1);
      FourBytesInNumbers(words[i]);
      PlacedLast(q, s, i, words[i]);
    }
  }

  lemma RestoredBy(words: seq<Word>, q: seq<Byte>, tail: seq<Byte>, m: nat)
    requires |words| == m + 1 && |q| == 4 * m && LastPart(tail, words[m])
    requires forall i {:trigger words[i]} | 0 <= i < m :: WordPlaced(q, i, words[i])
    ensures Restored(words, q + tail)
  {
    assert (q + tail)[4 * m..] == tail;
    forall i {:trigger words[i]} | 0 <= i < m ensures WordPlaced(q + tail, i, words[i]) {
      PlacedPrefix(q, tail, i, words[i]);
    }
  }

  lemma UnpackedIsRestored(words: seq<Word>)
    ensures Restored(words, Unpacked(words, |words|))
  {
    if words != [] {
      var m := |words| - 1;
      var q := Unpacked(words, m);
      UnpackedSize(words, m);
      LastBytesInNumbers(words[m]);
      forall i {:trigger words[i]} | 0 <= i < m ensures WordPlaced(q, i, words[i]) {
        FullWordsPlaced(words, m, i, q);
      }
      RestoredBy(words, q, LastBytes(words[m]), m);
      UnpackedNext(words, m);
    }
  }

  // ---- The loops

  /** One more byte behind the leading ones. */
  lemma LeadingNext(q: seq<Byte>, i: nat, b: nat)
    requires b < 4
    ensures BitOr(Shl32(Leading(q, i, b), 8), Padded(q, 4 * i + b)) == Leading(q, i, b + 1) < 0x1_0000_0000
  {
    WordSizes();
    OrJoin32(Leading(q, i, b), Padded(q, 4 * i + b), 8 * b, 8, 8 * (b + 1));
    Pow2Monotone(8 * (b + 1), 32);
  }

  method PackWord(q: seq<Byte>, i: nat) returns (tmp: Word)
    ensures tmp == WordAt(q, i)
  {
    tmp := 0;
    for b := 0 to 4
      invariant tmp == Leading(q, i, b)
    {
      LeadingNext(q, i, b);
      var shifted := Shl32(tmp, 8);
      if 4 * i + b < |q| {
        tmp := BitOr(shifted, q[4 * i + b]);
      } else {
        tmp := BitOr(shifted, 0xFF);
      }
    }
  }

  method Pack(q: seq<Byte>) returns (words: seq<Word>)
    ensures words == Words(q)
    ensures |words| == |q| / 4 + 1 && forall i | 0 <= i < |words| :: BigEndian(q, i, words[i])
  {
    forall i: nat ensures BigEndian(q, i, WordAt(q, i)) {
      WordIsBigEndian(q, i);
    }
    words := [];
    for i := 0 to |q| / 4 + 1
      invariant |words| == i && forall k | 0 <= k < i :: words[k] == WordAt(q, k)
    {
      var tmp := PackWord(q, i);
      words := words + [tmp];
    }
  }

  lemma CutStep(s: seq<Byte>, k: nat, t: seq<Byte>, whole: seq<Byte>)
    requires k < |s| && whole == t + Cut(s[k..])
    ensures s[k] == 0xFF ==> whole == t
    ensures s[k] != 0xFF ==> whole == (t + [s[k]]) + Cut(s[k + 1..])
  {
    assert s[k..][1..] == s[k + 1..];
  }

  /** Taking bytes until the first filler. */
  method TakeTail(s: seq<Byte>) returns (t: seq<Byte>)
    ensures t == Cut(s)
  {
    t := [];
    ghost var whole := Cut(s);
    assert s[0..] == s;
    for k := 0 to |s|
      invariant whole == t + Cut(s[k..])
    {
      CutStep(s, k, t, whole);
      if s[k] == 0xFF {
        return t;
      }
      t := t + [s[k]];
    }
    assert s[|s|..] == [];
  }

  /** Appending the cut bytes of the last word, and all of them again if none was cut off. */
  lemma AppendLast(q: seq<Byte>, w: Word, tail: seq<Byte>)
    requires tail == Cut(FourBytes(w))
    ensures |tail| < 4 ==> q + tail == q + LastBytes(w)
    ensures |tail| == 4 ==> q + tail + FourBytes(w) == q + LastBytes(w)
  {
    if |tail| == 4 {
      assert FourBytes(w)[..4] == FourBytes(w);
      assert q + tail + FourBytes(w) == q + (tail + FourBytes(w));
    }
  }

  method Unpack(words: seq<Word>) returns (q: seq<Byte>)
    ensures q == Unpacked(words, |words|) && Restored(words, q)
  {
    UnpackedIsRestored(words);
    q := [];
    for i := 0 to |words|
      invariant q == Unpacked(words, i)
    {
      UnpackedNext(words, i);
      var tmp := words[i];
      if i == |words| - 1 {
        var tail := TakeTail(FourBytes(tmp));
        AppendLast(q, tmp, tail);
        q := q + tail;
        if |tail| < 4 {
          break;
        }
      }
      q := q + FourBytes(tmp);
    }
  }

  method SerializeQuery(q: ClientQuery) returns (m: Message)
    ensures m == Message(Words(q.left), Words(q.right))
  {
    var left := Pack(q.left);
    var right := Pack(q.right);
    m := Message(left, right);
  }

  method DeserializeQuery(m: Message) returns (q: ClientQuery)
    ensures q == ClientQuery(Unpacked(m.left, |m.left|), Unpacked(m.right, |m.right|))
  {
    var left := Unpack(m.left);
    var right := Unpack(m.right);
    q := ClientQuery(left, right);
  }

  /** A query survives transport exactly when neither key ends in filler. */
  method SendQuery(q: ClientQuery) returns (received: ClientQuery)
    ensures received == q <==> NoFiller(q.left) && NoFiller(q.right)
  {
    var m := SerializeQuery(q);
    received := DeserializeQuery(m);
    RoundTripIff(q.left);
    RoundTripIff(q.right);
  }
}
