/** The eight-lane full evaluation: eight subtrees are evaluated side by side and
    written through eight advancing pointers into one buffer. */
module DpfEval8 {
  import opened Bits
  import opened DpfBlocks
  import opened DpfTree
  import opened DpfEval
  import opened DpfMask
  import opened LevelTree

  predicate Lane(i: int) {
    0 <= i < 8
  }

  predicate Segment(i: int) {
    0 <= i < 8
  }

  // ---- The buffer and the pointers into it

  /** The segments begin at the multiples of their length. */
  ghost function Starts(stride: nat): (s: seq<nat>)
    ensures |s| == 8
  {
    seq(8, (i: nat) => i * stride)
  }

  ghost function Nothing(): (w: seq<seq<Byte>>)
    ensures |w| == 8 && forall i | 0 <= i < 8 :: w[i] == []
  {
    seq(8, _ => [])
  }

  lemma {:induction false} Apart(i: nat, j: nat, stride: nat)
    requires i < j
    ensures i * stride + stride <= j * stride
    decreases j - i
  {
    assert j * stride == (j - 1) * stride + stride;
    if i < j - 1 {
      Apart(i, j - 1, stride);
    }
  }

  /** `memcpy` into the buffer. */
  method Store(data: array<Byte>, at: nat, q: seq<Byte>)
    requires at + |q| <= data.Length
    modifies data
    ensures data[..] == Stored(old(data[..]), at, q)
  {
    ghost var before := data[..];
    for k := 0 to |q|
      invariant forall m | 0 <= m < data.Length :: data[m] == if at <= m < at + k then q[m - at] else before[m]
    {
      data[at + k] := q[k];
    }
  }

  ghost function Stored(d: seq<Byte>, at: nat, q: seq<Byte>): (e: seq<Byte>)
    requires at + |q| <= |d|
    ensures |e| == |d|
  {
    d[..at] + q + d[at + |q|..]
  }

  /** Storing at one place extends the run that ends there. */
  lemma StoredHere(d: seq<Byte>, e: seq<Byte>, start: nat, off: nat, q: seq<Byte>)
    requires start + off + |q| <= |d| && e == Stored(d, start + off, q)
    ensures e[start..start + (off + |q|)] == d[start..start + off] + q
  {
  }

  lemma StoredElsewhere(d: seq<Byte>, e: seq<Byte>, at: nat, q: seq<Byte>, start: nat, len: nat)
    requires at + |q| <= |d| && e == Stored(d, at, q)
    requires start + len <= |d| && (start + len <= at || at + |q| <= start)
    ensures e[start..start + len] == d[start..start + len]
  {
  }

  /** Each of the eight disjoint segments of d begins with the bytes written to it. */
  ghost predicate Held(d: seq<Byte>, starts: seq<nat>, stride: nat, w: seq<seq<Byte>>) {
    && |starts| == |w| == 8
    && (forall i {:trigger Segment(i)} | Segment(i) ::
          && |w[i]| <= stride
          && starts[i] + stride <= |d|
          && d[starts[i]..starts[i] + |w[i]|] == w[i])
    && (forall i, j {:trigger Segment(i), Segment(j)} | Segment(i) && Segment(j) && i < j ::
          starts[i] + stride <= starts[j])
  }

  lemma HeldAppend(d: seq<Byte>, e: seq<Byte>, starts: seq<nat>, stride: nat, w: seq<seq<Byte>>, i: nat, q: seq<Byte>)
    requires Held(d, starts, stride, w) && Segment(i) && |w[i]| + |q| <= stride
    requires e == Stored(d, starts[i] + |w[i]|, q)
    ensures Held(e, starts, stride, w[i := w[i] + q])
  {
    var v := w[i := w[i] + q];
    forall k | Segment(k) ensures |v[k]| <= stride && e[starts[k]..starts[k] + |v[k]|] == v[k] {
      if k == i {
        StoredHere(d, e, starts[i], |w[i]|, q);
      } else {
        StoredElsewhere(d, e, starts[i] + |w[i]|, q, starts[k], |w[k]|);
      }
    }
  }

  /** A buffer of eight segments of `stride` bytes, and a pointer into each; `written`
      is what lies before the pointers. */
  class Segments {
    const data: array<Byte>
    const res: array<nat>
    ghost const starts: seq<nat>
    ghost const stride: nat
    ghost var written: seq<seq<Byte>>

    ghost predicate Valid()
      reads this, data, res
    {
      && Held(data[..], starts, stride, written)
      && res.Length == 8
      && (forall i {:trigger Segment(i)} | Segment(i) :: res[i] == starts[i] + |written[i]|)
    }

    constructor (n: nat, stride: nat)
      requires n == 8 * stride
      ensures Valid() && fresh(data) && fresh(res)
      ensures data.Length == n && this.stride == stride && starts == Starts(stride)
      ensures written == Nothing()
    {
      data := new Byte[n](_ => 0);
      res := new nat[8](i => i * stride);
      this.starts, this.stride, this.written := Starts(stride), stride, Nothing();
      new;
      forall i, j | Segment(i) && Segment(j) && i < j ensures starts[i] + stride <= starts[j] {
        Apart(i, j, stride);
      }
      forall i | Segment(i) ensures starts[i] + stride <= data.Length {
        Apart(i, 8, stride);
      }
    }

    /** `memcpy` to pointer i, which advances behind the copy. */
    method Append(i: nat, q: seq<Byte>)
      requires Valid() && i < 8 && |written[i]| + |q| <= stride
      modifies this`written, data, res
      ensures Valid()
      ensures written == old(written)[i := old(written)[i] + q]
    {
      assert Segment(i);
      ghost var before, w := data[..], written;
      var at := res[i];
      Store(data, at, q);
      HeldAppend(before, data[..], starts, stride, w, i, q);
      res[i] := at + |q|;
      written := written[i := written[i] + q];
    }
  }

  // ---- The recursion over eight lanes

  /** All lanes have written the same number of bytes. */
  ghost predicate Even(w: seq<seq<Byte>>, off: nat) {
    |w| == 8 && forall i {:trigger Lane(i)} | Lane(i) :: |w[i]| == off
  }

  /** In every lane the bytes below its node were appended. */
  ghost predicate Grown(w: seq<seq<Byte>>, v: seq<seq<Byte>>,
      t: Tree<Node>, leaf: Node -> Block, lanes: seq<Node>, lvl: nat, stop: nat)
    requires |lanes| == 8 && lvl <= stop
  {
    && |w| == |v| == 8
    && forall i {:trigger Lane(i)} | Lane(i) :: v[i] == w[i] + TreeBytes(t, leaf, lanes[i], lvl, stop)
  }

  ghost predicate SteppedDown(t: Tree<Node>, lanes: seq<Node>, l: seq<Node>, r: seq<Node>, lvl: nat) {
    && |lanes| == |l| == |r| == 8
    && forall i {:trigger Lane(i)} | Lane(i) :: l[i] == t.down(lvl, lanes[i], false) && r[i] == t.down(lvl, lanes[i], true)
  }

  lemma GrownTwice(w: seq<seq<Byte>>, v: seq<seq<Byte>>, u: seq<seq<Byte>>,
      t: Tree<Node>, leaf: Node -> Block, lanes: seq<Node>, l: seq<Node>, r: seq<Node>, lvl: nat, stop: nat)
    requires SteppedDown(t, lanes, l, r, lvl) && lvl < stop
    requires Grown(w, v, t, leaf, l, lvl + 1, stop) && Grown(v, u, t, leaf, r, lvl + 1, stop)
    ensures Grown(w, u, t, leaf, lanes, lvl, stop)
  {
    forall i | Lane(i) ensures u[i] == w[i] + TreeBytes(t, leaf, lanes[i], lvl, stop) {
      Associate(w[i], TreeBytes(t, leaf, l[i], lvl + 1, stop), TreeBytes(t, leaf, r[i], lvl + 1, stop));
    }
  }

  method Emit8(g: Prg, key: Key, lanes: seq<Node>, res: Segments,
      ghost off: nat, ghost stop: nat, ghost t: Tree<Node>, ghost leaf: Node -> Block)
    requires DescribesMasked(t, leaf, g, key, stop) && |lanes| == 8
    requires res.Valid() && Even(res.written, off) && off + 16 <= res.stride
    modifies res`written, res.data, res.res
    ensures res.Valid() && Even(res.written, off + 16)
    ensures Grown(old(res.written), res.written, t, leaf, lanes, stop, stop)
  {
    for i := 0 to 8
      invariant res.Valid()
      invariant forall k {:trigger Lane(k)} | Lane(k) ::
        res.written[k] == if k < i then old(res.written)[k] + ToBytes(leaf(lanes[k])) else old(res.written)[k]
    {
      var tmp := MaskedLeaf(g, key, lanes[i]);
      assert At(stop, lanes[i]) && Lane(i);
      res.Append(i, ToBytes(tmp));
    }
  }

  method Expand8(g: Prg, key: Key, lanes: seq<Node>, lvl: nat,
      ghost stop: nat, ghost t: Tree<Node>, ghost leaf: Node -> Block)
    returns (l: seq<Node>, r: seq<Node>)
    requires DescribesMasked(t, leaf, g, key, stop) && lvl < stop && |lanes| == 8
    ensures SteppedDown(t, lanes, l, r, lvl)
  {
    l, r := [], [];
    var sCW := ToBlock(key[17 + lvl * 18..17 + lvl * 18 + 16]);
    var tLCW, tRCW := key[17 + lvl * 18 + 16], key[17 + lvl * 18 + 17];
    for i := 0 to 8
      invariant |l| == |r| == i
      invariant forall k {:trigger Lane(k)} | Lane(k) && k < i ::
        l[k] == t.down(lvl, lanes[k], false) && r[k] == t.down(lvl, lanes[k], true)
    {
      var sL, sR := g.left(lanes[i].s), g.right(lanes[i].s);
      var tL, tR := GetT(sL), GetT(sR);
      sL, sR := Clr(sL), Clr(sR);
      tL, tR := XorByte(tL, AndByte(tLCW, lanes[i].t)), XorByte(tR, AndByte(tRCW, lanes[i].t));
      var tt := MaskOf(lanes[i].t);
      sL, sR := XorBlock(sL, AndBlock(sCW, tt)), XorBlock(sR, AndBlock(sCW, tt));
      assert At(lvl, lanes[i]);
      l, r := l + [Node(sL, tL)], r + [Node(sR, tR)];
    }
  }

  method EvalFullRecursive8(g: Prg, key: Key, lanes: seq<Node>, lvl: nat, stop: nat, res: Segments,
      ghost off: nat, ghost end: nat, ghost t: Tree<Node>, ghost leaf: Node -> Block)
    requires DescribesMasked(t, leaf, g, key, stop) && |lanes| == 8 && lvl <= stop
    requires end == off + 16 * Pow2(stop - lvl) && end <= res.stride
    requires res.Valid() && Even(res.written, off)
    modifies res`written, res.data, res.res
    ensures res.Valid() && Even(res.written, end)
    ensures Grown(old(res.written), res.written, t, leaf, lanes, lvl, stop)
    decreases stop - lvl
  {
    if lvl == stop {
      Emit8(g, key, lanes, res, off, stop, t, leaf);
      return;
    }
    var l, r := Expand8(g, key, lanes, lvl, stop, t, leaf);
    ghost var half, before := off + 16 * Pow2(stop - (lvl + 1)), res.written;
    EvalFullRecursive8(g, key, l, lvl + 1, stop, res, off, half, t, leaf);
    ghost var mid := res.written;
    EvalFullRecursive8(g, key, r, lvl + 1, stop, res, half, end, t, leaf);
    GrownTwice(before, mid, res.written, t, leaf, lanes, l, r, lvl, stop);
  }

  // ---- The first three levels

  /** Eight runs of bytes one after the other, bracketed as the tree nests them. */
  ghost function Side(w: seq<seq<Byte>>, i: nat): seq<Byte>
    requires i + 4 <= |w|
  {
    (w[i] + w[i + 1]) + (w[i + 2] + w[i + 3])
  }

  lemma Slices(d: seq<Byte>, a: nat, b: nat, c: nat)
    requires a <= b <= c <= |d|
    ensures d[a..c] == d[a..b] + d[b..c]
  {
  }

  lemma HalfFilled(d: seq<Byte>, s: nat, w: seq<seq<Byte>>, i: nat, at: nat)
    requires i + 4 <= |w| && at + 4 * s <= |d|
    requires d[at..at + s] == w[i] && d[at + s..at + 2 * s] == w[i + 1]
    requires d[at + 2 * s..at + 3 * s] == w[i + 2] && d[at + 3 * s..at + 4 * s] == w[i + 3]
    ensures d[at..at + 4 * s] == Side(w, i)
  {
    Slices(d, at, at + 2 * s, at + 4 * s);
    Slices(d, at, at + s, at + 2 * s);
    Slices(d, at + 2 * s, at + 3 * s, at + 4 * s);
  }

  lemma QuarterFilled(d: seq<Byte>, s: nat, w: seq<seq<Byte>>, i: nat, at: nat)
    requires Held(d, Starts(s), s, w) && Even(w, s) && i < 7 && at == i * s && at + 2 * s <= |d|
    ensures d[at..at + s] == w[i] && d[at + s..at + 2 * s] == w[i + 1]
  {
    assert Segment(i) && Segment(i + 1) && Lane(i) && Lane(i + 1);
  }

  /** Full segments lie side by side and make up the whole buffer. */
  lemma AllFilled(d: seq<Byte>, s: nat, w: seq<seq<Byte>>)
    requires Held(d, Starts(s), s, w) && Even(w, s) && |d| == 8 * s
    ensures d == Side(w, 0) + Side(w, 4)
  {
    SideFilled(d, s, w, 0, 0);
    SideFilled(d, s, w, 4, 4 * s);
    Slices(d, 0, 4 * s, 8 * s);
    assert d[0..8 * s] == d;
  }

  lemma SideFilled(d: seq<Byte>, s: nat, w: seq<seq<Byte>>, i: nat, at: nat)
    requires Held(d, Starts(s), s, w) && Even(w, s) && i <= 4 && at == i * s && at + 4 * s <= |d|
    ensures d[at..at + 4 * s] == Side(w, i)
  {
    QuarterFilled(d, s, w, i, at);
    assert (i + 2) * s == at + 2 * s;
    QuarterFilled(d, s, w, i + 2, at + 2 * s);
    HalfFilled(d, s, w, i, at);
  }

  /** The eight nodes of the third level, from left to right. */
  ghost predicate ThirdLevel(t: Tree<Node>, lanes: seq<Node>) {
    |lanes| == 8 &&
    var l, r := t.down(0, t.root, false), t.down(0, t.root, true);
    var ll, rl, lr, rr := t.down(1, l, false), t.down(1, l, true), t.down(1, r, false), t.down(1, r, true);
    && lanes[0] == t.down(2, ll, false) && lanes[1] == t.down(2, ll, true)
    && lanes[2] == t.down(2, rl, false) && lanes[3] == t.down(2, rl, true)
    && lanes[4] == t.down(2, lr, false) && lanes[5] == t.down(2, lr, true)
    && lanes[6] == t.down(2, rr, false) && lanes[7] == t.down(2, rr, true)
  }

  /** Two levels below one node. */
  lemma TwoLevels(t: Tree<Node>, leaf: Node -> Block, n: Node, lanes: seq<Node>, stop: nat, w: seq<seq<Byte>>, i: nat)
    requires 3 <= stop && i + 4 <= |w| == |lanes| == 8
    requires var l, r := t.down(1, n, false), t.down(1, n, true);
      && lanes[i] == t.down(2, l, false) && lanes[i + 1] == t.down(2, l, true)
      && lanes[i + 2] == t.down(2, r, false) && lanes[i + 3] == t.down(2, r, true)
    requires forall j {:trigger Lane(j)} | Lane(j) :: w[j] == TreeBytes(t, leaf, lanes[j], 3, stop)
    ensures TreeBytes(t, leaf, n, 1, stop) == Side(w, i)
  {
    assert Lane(i) && Lane(i + 1) && Lane(i + 2) && Lane(i + 3);
  }

  lemma EightSubtrees(t: Tree<Node>, leaf: Node -> Block, lanes: seq<Node>, stop: nat, w: seq<seq<Byte>>)
    requires 3 <= stop && ThirdLevel(t, lanes) && |w| == 8
    requires forall j {:trigger Lane(j)} | Lane(j) :: w[j] == TreeBytes(t, leaf, lanes[j], 3, stop)
    ensures TreeBytes(t, leaf, t.root, 0, stop) == Side(w, 0) + Side(w, 4)
  {
    TwoLevels(t, leaf, t.down(0, t.root, false), lanes, stop, w, 0);
    TwoLevels(t, leaf, t.down(0, t.root, true), lanes, stop, w, 4);
  }

  method FirstLevels(g: Prg, key: Key, ghost stop: nat, ghost t: Tree<Node>, ghost leaf: Node -> Block)
    returns (lanes: seq<Node>)
    requires Describes(t, leaf, g, key, stop) && 3 <= stop
    ensures ThirdLevel(t, lanes)
  {
    var root := Node(ToBlock(key[..16]), key[16]);
    var nL, nR := Expand(g, key, root, 0, stop, t, leaf);
    var nLL, nRL := Expand(g, key, nL, 1, stop, t, leaf);
    var nLR, nRR := Expand(g, key, nR, 1, stop, t, leaf);
    var nLLL, nRLL := Expand(g, key, nLL, 2, stop, t, leaf);
    var nLRL, nRRL := Expand(g, key, nRL, 2, stop, t, leaf);
    var nLLR, nRLR := Expand(g, key, nLR, 2, stop, t, leaf);
    var nLRR, nRRR := Expand(g, key, nRR, 2, stop, t, leaf);
    lanes := [nLLL, nRLL, nLRL, nRRL, nLLR, nRLR, nLRR, nRRR];
  }

  lemma BufferSizes(logn: nat)
    requires 10 <= logn
    ensures Pow2(logn - 3) == 8 * Pow2(logn - 6) && Pow2(logn - 6) == 16 * Pow2(Stop(logn) - 3)
  {
    Pow2Add(logn - 6, 3);
    Pow2Add(logn - 10, 4);
    assert Pow2(3) == 8 && Pow2(4) == 16;
  }

  /** What the eight lanes write, side by side: the first three levels with
      conditions, the rest with masks. */
  ghost predicate EightLanes(g: Prg, key: Key, stop: nat, data: seq<Byte>)
    requires 3 <= stop && Packed(key, stop)
  {
    exists lanes, w ::
      && ThirdLevel(KeyTree(g, key, stop), lanes)
      && Grown(Nothing(), w, MaskedTree(g, key, stop), MaskedLeafOf(g, key), lanes, 3, stop)
      && data == Side(w, 0) + Side(w, 4)
  }

  lemma ChildControl(g: Prg, cw: CorrectionWord, n: Node, right: bool)
    requires IsBit(cw.tl) && IsBit(cw.tr)
    ensures IsBit(Child(g, cw, n, right).t)
  {
    var c := if right then g.right(n.s) else g.left(n.s);
    XorOfBits(GetT(c), if right then cw.tr else cw.tl);
  }

  lemma LaneControls(g: Prg, key: Key, stop: nat, lanes: seq<Node>)
    requires 3 <= stop && Packed(key, stop) && ControlBits(key, stop, 2) && ThirdLevel(KeyTree(g, key, stop), lanes)
    ensures forall i {:trigger Lane(i)} | Lane(i) :: IsBit(lanes[i].t)
  {
    forall n: Node, right: bool ensures IsBit(KeyTree(g, key, stop).down(2, n, right).t) {
      assert BitWord(key, 2);
      ChildControl(g, KeyWord(key, 2), n, right);
    }
  }

  /** For a key whose control bytes are bits from the third level on, the lanes
      write what full evaluation appends. */
  lemma LanesSame(g: Prg, key: Key, stop: nat, data: seq<Byte>)
    requires 3 <= stop && Packed(key, stop) && ControlBits(key, stop, 2)
    requires EightLanes(g, key, stop, data)
    ensures data == FullBytes(g, key, stop)
  {
    var t, leaf := KeyTree(g, key, stop), LeafOf(g, key);
    var lanes, w :|
      && ThirdLevel(t, lanes)
      && Grown(Nothing(), w, MaskedTree(g, key, stop), MaskedLeafOf(g, key), lanes, 3, stop)
      && data == Side(w, 0) + Side(w, 4);
    LaneControls(g, key, stop, lanes);
    MaskedMatches(g, key, stop, 2);
    forall i | Lane(i) ensures w[i] == TreeBytes(t, leaf, lanes[i], 3, stop) {
      SameBytes(t, leaf, MaskedTree(g, key, stop), MaskedLeafOf(g, key), lanes[i], 3, 2, stop);
    }
    EightSubtrees(t, leaf, lanes, stop, w);
  }

  method EvalFull8(g: Prg, key: Key, logn: nat) returns (data: seq<Byte>)
    requires 10 <= logn <= 63 && Packed(key, Stop(logn))
    ensures |data| == Pow2(logn - 3) && EightLanes(g, key, Stop(logn), data)
    ensures ControlBits(key, Stop(logn), 2) ==> data == FullBytes(g, key, Stop(logn))
  {
    var stop := Stop(logn);
    BufferSizes(logn);
    var res := new Segments(Pow2(logn - 3), Pow2(logn - 6));
    KeyDescribes(g, key, stop);
    MaskedDescribes(g, key, stop);
    var lanes := FirstLevels(g, key, stop, KeyTree(g, key, stop), LeafOf(g, key));
    EvalFullRecursive8(g, key, lanes, 3, stop, res, 0, Pow2(logn - 6), MaskedTree(g, key, stop), MaskedLeafOf(g, key));
    data := res.data[..];
    AllFilled(data, Pow2(logn - 6), res.written);
    if ControlBits(key, stop, 2) {
      LanesSame(g, key, stop, data);
    }
  }
}
