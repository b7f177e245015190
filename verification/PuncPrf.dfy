/** The puncturable pseudorandom function: a tree of keys that grows by a
    length-doubling generator, and what can be computed from the keys that hang
    off one path. */
module PuncPrf {
  import opened Bits
  import opened LevelTree
  import opened PuncSteps
  import opened Results

  // ---- The function itself

  function Half(prg: Prg, k: Key, right: bool): Key {
    if right then prg(k).1 else prg(k).0
  }

  function GgmTree(prg: Prg, key: Key): Tree<Key> {
    var down: (nat, Key, bool) -> Key := (lvl, k, right) => Half(prg, k, right);
    Tree<Key>.Tree(key, down)
  }

  /** The first n bytes of a node as a big-endian word. */
  function Leading(node: Key, n: nat): nat
    requires n <= 8
  {
    if n == 0 then 0 else Join(Leading(node, n - 1), node.bytes[n - 1], 8)
  }

  /** The j-th window of lgn bits of a word. */
  function Window(v: nat, lgn: nat, j: nat): nat {
    Low(Shr(v, j), lgn)
  }

  /** Some window that the shifts of an int can address is in range. */
  predicate Extractable(node: Key, lgn: nat, range: nat) {
    exists j | 0 <= j <= 31 - lgn :: Window(Leading(node, 8), lgn, j) < range
  }

  /** The first window in range, from window j on. */
  function FirstWindow(v: nat, lgn: nat, range: nat, j: nat): nat
    decreases 32 - j
  {
    if j + lgn > 31 then 0
    else if Window(v, lgn, j) < range then Window(v, lgn, j)
    else FirstWindow(v, lgn, range, j + 1)
  }

  /** The output of a leaf: the first window in range of the word in its first eight bytes. */
  function Output(node: Key, lgn: nat, range: nat): nat {
    FirstWindow(Leading(node, 8), lgn, range, 0)
  }

  function Prf(prg: Prg, key: Key, x: nat, lgn: nat, range: nat): nat {
    Output(NodeAt(GgmTree(prg, key), x, lgn), lgn, range)
  }

  /** With a range of at least 2^lgn the first window always succeeds. */
  lemma FirstWindowFits(node: Key, lgn: nat, range: nat)
    requires lgn <= 31 && Pow2(lgn) <= range
    ensures Extractable(node, lgn, range) && Output(node, lgn, range) == Low(Leading(node, 8), lgn)
  {
    LowBound(Leading(node, 8), lgn);
    assert Shr(Leading(node, 8), 0) == Leading(node, 8);
    assert Window(Leading(node, 8), lgn, 0) < range;
  }

  /** Masking with a shifted mask and shifting back gives the window. */
  lemma {:induction false} SlideIsWindow(v: nat, lgn: nat, j: nat)
    ensures Shr(BitAnd(v, Shl(Mask(lgn), j)), j) == Window(v, lgn, j)
    decreases j
  {
    if j == 0 {
      AndMask(v, lgn);
    } else {
      SlideIsWindow(v / 2, lgn, j - 1);
      AndEven(v, Shl(Mask(lgn), j - 1));
    }
  }

  /** The first eight bytes as one word. */
  method LeadingWord(node: Key) returns (v: nat)
    ensures v == Leading(node, 8)
  {
    assert Pow2(8) == 256;
    v := 0;
    for ui := 0 to 8
      invariant v == Leading(node, ui)
    {
      OrJoin(v, node.bytes[ui], 8);
      v := BitOr(Shl(v, 8), node.bytes[ui]);
    }
  }

  /** The search for the first window in range. */
  method Extract(node: Key, lgn: nat, range: nat) returns (res: nat)
    requires lgn <= 30 && Extractable(node, lgn, range)
    ensures res == Output(node, lgn, range) && res < range
  {
    var v := LeadingWord(node);
    var j := 0;
    SlideIsWindow(v, lgn, j);
    res := Shr(BitAnd(v, Shl(Mask(lgn), j)), j);
    while res >= range
      invariant j <= 31 - lgn && res == Window(v, lgn, j)
      invariant exists k | j <= k <= 31 - lgn :: Window(v, lgn, k) < range
      invariant FirstWindow(v, lgn, range, 0) == FirstWindow(v, lgn, range, j)
      decreases 31 - j
    {
      j := j + 1;
      SlideIsWindow(v, lgn, j);
      res := Shr(BitAnd(v, Shl(Mask(lgn), j)), j);
    }
  }

  // ---- The output in numbers

  lemma LeadingNext(node: Key, n: nat)
    requires n < 8
    ensures Leading(node, n + 1) == 0x100 * Leading(node, n) + node.bytes[n]
  {
    assert Pow2(8) == 0x100;
    JoinSum(Leading(node, n), node.bytes[n], 8);
  }

  lemma LeadingIsFirstEight(node: Key)
    ensures Leading(node, 8) == FirstEight(node)
  {
    LeadingNext(node, 0);
    LeadingNext(node, 1);
    LeadingNext(node, 2);
    LeadingNext(node, 3);
    LeadingNext(node, 4);
    LeadingNext(node, 5);
    LeadingNext(node, 6);
    LeadingNext(node, 7);
  }

  lemma {:induction false} LeadingBit(node: Key, n: nat, b: nat)
    requires n <= 8 && b < 8 * n
    ensures BitAt(Leading(node, n), b) <==> BitAt(node.bytes[n - 1 - b / 8], b % 8)
  {
    var hi, lo := Leading(node, n - 1), node.bytes[n - 1];
    BitAtJoin(hi, lo, 8, b);
    assert Leading(node, n) == Join(hi, lo, 8);
    if b >= 8 {
      LeadingBit(node, n - 1, b - 8);
      assert (b - 8) / 8 == b / 8 - 1 && (b - 8) % 8 == b % 8;
    } else {
      assert b / 8 == 0 && b % 8 == b;
    }
  }

  lemma WindowIsQuotient(v: nat, lgn: nat, j: nat)
    ensures Window(v, lgn, j) == v / Pow2(j) % Pow2(lgn)
  {
    ShrIsQuotient(v, j);
    ShrIsQuotient(Shr(v, j), lgn);
  }

  lemma {:induction false} FirstWindowFound(v: nat, lgn: nat, range: nat, j: nat) returns (k: nat)
    requires lgn <= 31 && exists i: nat :: j <= i <= 31 - lgn && Window(v, lgn, i) < range
    requires forall i: nat | i < j :: v / Pow2(i) % Pow2(lgn) >= range
    ensures WindowFound(FirstWindow(v, lgn, range, j), v, lgn, range, k)
    decreases 32 - j
  {
    WindowIsQuotient(v, lgn, j);
    if Window(v, lgn, j) < range {
      k := j;
    } else {
      k := FirstWindowFound(v, lgn, range, j + 1);
    }
  }

  lemma OutputFound(node: Key, lgn: nat, range: nat) returns (j: nat)
    requires lgn <= 30 && Extractable(node, lgn, range)
    ensures WindowFound(Output(node, lgn, range), FirstEight(node), lgn, range, j)
  {
    LeadingIsFirstEight(node);
    j := FirstWindowFound(Leading(node, 8), lgn, range, 0);
  }

  lemma OutputBits(node: Key, lgn: nat, range: nat)
    requires lgn <= 30 && Pow2(lgn) <= range
    ensures Output(node, lgn, range) < Pow2(lgn) && BitsOfBytes(Output(node, lgn, range), node, lgn)
  {
    var v := Leading(node, 8);
    FirstWindowFits(node, lgn, range);
    LowBound(v, lgn);
    forall b: nat | b < lgn ensures BitAt(Low(v, lgn), b) <==> BitAt(node.bytes[7 - b / 8], b % 8) {
      BitAtLow(v, b, lgn);
      LeadingBit(node, 8, b);
    }
  }

  // ---- Walking down

  /** The bit of x that decides the step to level i. */
  lemma PathBit(x: nat, lgn: nat, i: nat)
    requires 1 <= i <= lgn
    ensures PathNode(x, lgn, i) / 2 == PathNode(x, lgn, i - 1)
    ensures BitAnd(Shr(x, lgn - i), 1) == PathNode(x, lgn, i) % 2
  {
    PathStep(x, lgn, i - 1);
    var s := Shr(x, lgn - i);
    if s > 0 {
      AndZero(s / 2);
    }
  }

  /** The label of x on level i. */
  function OnPath(prg: Prg, key: Key, x: nat, lgn: nat, i: nat): Key
    requires i <= lgn
  {
    NodeAt(GgmTree(prg, key), PathNode(x, lgn, i), i)
  }

  lemma PathLabel(prg: Prg, key: Key, x: nat, lgn: nat, i: nat)
    requires 1 <= i <= lgn
    ensures OnPath(prg, key, x, lgn, i) ==
      if BitAnd(Shr(x, lgn - i), 1) == 0 then prg(OnPath(prg, key, x, lgn, i - 1)).0
      else prg(OnPath(prg, key, x, lgn, i - 1)).1
  {
    PathBit(x, lgn, i);
  }

  /** The leaf that the remaining bits of x lead to, from a node on level `from`. */
  function Below(prg: Prg, node: Key, x: nat, lgn: nat, from: nat): Key
    requires from <= lgn
    decreases lgn - from
  {
    if from == lgn then node
    else Below(prg, Half(prg, node, BitAnd(Shr(x, lgn - (from + 1)), 1) != 0), x, lgn, from + 1)
  }

  /** From the node of x that is the leaf of x. */
  lemma {:induction false} BelowOnPath(prg: Prg, key: Key, x: nat, lgn: nat, from: nat)
    requires from <= lgn
    ensures Below(prg, OnPath(prg, key, x, lgn, from), x, lgn, from) == OnPath(prg, key, x, lgn, lgn)
    decreases lgn - from
  {
    if from < lgn {
      PathLabel(prg, key, x, lgn, from + 1);
      BelowOnPath(prg, key, x, lgn, from + 1);
    }
  }

  /** The labels on the way. */
  lemma {:induction false} BelowLabels(prg: Prg, node: Key, x: nat, lgn: nat, from: nat) returns (ls: seq<Key>)
    requires from <= lgn
    ensures Labels(prg, node, x, lgn - from, ls) && ls[lgn - from] == Below(prg, node, x, lgn, from)
    decreases lgn - from
  {
    if from == lgn {
      ls := [node];
    } else {
      var k := lgn - (from + 1);
      AndOne(Shr(x, k));
      var next := Half(prg, node, BitAt(x, k));
      var rest := BelowLabels(prg, next, x, lgn, from + 1);
      LabelsBelow(prg, node, next, x, lgn - from, rest);
      ls := [node] + rest;
    }
  }

  lemma BelowEvaluates(prg: Prg, node: Key, x: nat, lgn: nat, from: nat, range: nat)
    requires from <= lgn <= 30 && Extractable(Below(prg, node, x, lgn, from), lgn, range)
    ensures Evaluates(prg, node, x, lgn - from, lgn, range, Output(Below(prg, node, x, lgn, from), lgn, range))
  {
    var leaf := Below(prg, node, x, lgn, from);
    var ls := BelowLabels(prg, node, x, lgn, from);
    var j := OutputFound(leaf, lgn, range);
    if Pow2(lgn) <= range {
      OutputBits(leaf, lgn, range);
    }
  }

  /** The function in labels and bytes. */
  lemma PrfEvaluates(prg: Prg, key: Key, x: nat, lgn: nat, range: nat)
    requires lgn <= 30 && x < Pow2(lgn) && Extractable(NodeAt(GgmTree(prg, key), x, lgn), lgn, range)
    ensures Evaluates(prg, key, x, lgn, lgn, range, Prf(prg, key, x, lgn, range))
  {
    ShrBound(x, lgn, lgn);
    BelowOnPath(prg, key, x, lgn, 0);
    BelowEvaluates(prg, key, x, lgn, 0, range);
  }

  method Descend(prg: Prg, node: Key, x: nat, lgn: nat, from: nat) returns (leaf: Key)
    requires from <= lgn
    ensures leaf == Below(prg, node, x, lgn, from)
  {
    leaf := node;
    for i := from + 1 to lgn + 1
      invariant Below(prg, node, x, lgn, from) == Below(prg, leaf, x, lgn, i - 1)
    {
      var derived := prg(leaf);
      if BitAnd(Shr(x, lgn - i), 1) == 0 {
        leaf := derived.0;
      } else {
        leaf := derived.1;
      }
    }
  }

  method Eval(prg: Prg, key: Key, x: nat, lgn: nat, range: nat) returns (r: Result<nat>)
    requires lgn <= 30
    requires x < Pow2(lgn) ==> Extractable(NodeAt(GgmTree(prg, key), x, lgn), lgn, range)
    ensures r.Err? <==> x >= Pow2(lgn)
    ensures r.Ok? ==> r.value == Prf(prg, key, x, lgn, range) && r.value < range
    ensures r.Ok? ==> Evaluates(prg, key, x, lgn, lgn, range, r.value)
  {
    if x >= Pow2(lgn) {
      return Err(InvalidArgument("Eval input invalid"));
    }
    ShrBound(x, lgn, lgn);
    var leaf := Descend(prg, key, x, lgn, 0);
    BelowOnPath(prg, key, x, lgn, 0);
    var res := Extract(leaf, lgn, range);
    PrfEvaluates(prg, key, x, lgn, range);
    return Ok(res);
  }

  // ---- All leaves of the leftmost subtree at once

  /** The labels from the left end of a level. */
  ghost predicate LeftEnd(prg: Prg, key: Key, s: seq<Key>, lvl: nat) {
    forall j | 0 <= j < |s| :: s[j] == NodeAt(GgmTree(prg, key), j, lvl)
  }

  lemma ChildLabel(prg: Prg, key: Key, c: nat, lvl: nat)
    ensures NodeAt(GgmTree(prg, key), c, lvl + 1) == Half(prg, NodeAt(GgmTree(prg, key), c / 2, lvl), c % 2 == 1)
  {
  }

  lemma LeftEndGrows(prg: Prg, key: Key, cur: seq<Key>, parent: Key, b: nat, lvl: nat)
    requires LeftEnd(prg, key, cur, lvl + 1) && |cur| == 2 * b && parent == NodeAt(GgmTree(prg, key), b, lvl)
    ensures LeftEnd(prg, key, cur + [prg(parent).0] + [prg(parent).1], lvl + 1)
  {
    assert 2 * b / 2 == b && (2 * b + 1) / 2 == b;
    ChildLabel(prg, key, 2 * b, lvl);
    ChildLabel(prg, key, 2 * b + 1, lvl);
  }

  /** One level of the frontier from the level above. */
  method NextLevel(prg: Prg, ghost key: Key, prev: seq<Key>, ghost lvl: nat) returns (cur: seq<Key>)
    requires LeftEnd(prg, key, prev, lvl)
    ensures |cur| == 2 * |prev| && LeftEnd(prg, key, cur, lvl + 1)
  {
    cur := [];
    for b := 0 to |prev|
      invariant |cur| == 2 * b && LeftEnd(prg, key, cur, lvl + 1)
    {
      LeftEndGrows(prg, key, cur, prev[b], b, lvl);
      var derived := prg(prev[b]);
      cur := cur + [derived.0];
      cur := cur + [derived.1];
    }
  }

  /** The frontier below the straight left path: all labels of the leftmost subtree. */
  method Frontier(prg: Prg, rootkey: Key, lgn: nat) returns (nodes: seq<Key>)
    ensures |nodes| == Pow2(lgn - lgn / 2) && LeftEnd(prg, rootkey, nodes, lgn)
  {
    var subheight := lgn / 2;
    var subroot := rootkey;
    for i := 0 to subheight
      invariant subroot == NodeAt(GgmTree(prg, rootkey), 0, i)
    {
      ChildLabel(prg, rootkey, 0, i);
      subroot := prg(subroot).0;
    }
    nodes := [subroot];
    for i := subheight to lgn
      invariant |nodes| == Pow2(i - subheight) && LeftEnd(prg, rootkey, nodes, i)
    {
      nodes := NextLevel(prg, rootkey, nodes, i);
    }
  }

  /** As many values as the interval is long, always from point 0 on. */
  method BreadthEval(prg: Prg, rootkey: Key, low: nat, high: nat, lgn: nat, range: nat) returns (vec: seq<nat>)
    requires lgn <= 30 && low <= high && high - low <= Pow2(lgn - lgn / 2)
    requires forall i | 0 <= i < high - low :: Extractable(NodeAt(GgmTree(prg, rootkey), i, lgn), lgn, range)
    ensures |vec| == high - low && forall i | 0 <= i < |vec| :: vec[i] == Prf(prg, rootkey, i, lgn, range) < range
    ensures forall i | 0 <= i < |vec| :: Evaluates(prg, rootkey, i, lgn, lgn, range, vec[i])
  {
    Pow2Monotone(lgn - lgn / 2, lgn);
    var nodes := Frontier(prg, rootkey, lgn);
    vec := [];
    for i := 0 to high - low
      invariant |vec| == i && forall k | 0 <= k < i :: vec[k] == Prf(prg, rootkey, k, lgn, range) < range
    {
      assert Extractable(nodes[i], lgn, range);
      var res := Extract(nodes[i], lgn, range);
      vec := vec + [res];
    }
    forall i | 0 <= i < |vec| ensures Evaluates(prg, rootkey, i, lgn, lgn, range, vec[i]) {
      PrfEvaluates(prg, rootkey, i, lgn, range);
    }
  }

  // ---- Puncturing

  /** The keys that hang off the path to p, from the root down: everything needed to
      evaluate anywhere but at p. */
  ghost predicate OffPath(prg: Prg, key: Key, p: nat, lgn: nat, keys: seq<Key>, n: nat)
    requires n <= lgn
  {
    |keys| == n &&
    forall i | 0 <= i < n :: keys[i] == NodeAt(GgmTree(prg, key), Sibling(PathNode(p, lgn, i + 1)), i + 1)
  }

  ghost predicate PuncturedAt(prg: Prg, key: Key, p: nat, lgn: nat, pk: PuncKeys) {
    pk.height == lgn && pk.bitvec == p && OffPath(prg, key, p, lgn, pk.keys, lgn)
  }

  /** What is left of x below a level, and the bit that the level takes away. */
  lemma LowNext(x: nat, k: nat)
    ensures Shr(x, k) == 2 * Shr(x, k + 1) + Shr(x, k) % 2
    ensures Low(x, k + 1) == Low(x, k) + (if Shr(x, k) % 2 == 1 then Pow2(k) else 0)
    ensures Low(x, k) < Pow2(k)
  {
    ShrNext(x, k);
    JoinSplit(x, k);
    JoinSplit(x, k + 1);
    LowBound(x, k);
    LowBound(x, k + 1);
    JoinIsShl(Shr(x, k), Low(x, k), k);
    JoinIsShl(Shr(x, k + 1), Low(x, k + 1), k + 1);
    ShlChildren(Shr(x, k + 1), k);
  }

  /** Setting the bit of a level in the bits above it. */
  lemma SetBit(s: nat, k: nat)
    ensures BitOr(Shl(s, k + 1), Pow2(k)) == Shl(2 * s + 1, k)
  {
    OrJoin(s, Pow2(k), k + 1);
    JoinIsShl(s, Pow2(k), k + 1);
    ShlChildren(s, k);
  }

  /** The point that is punctured: larger ones are cut to the last leaf. */
  function Punctured(x: nat, lgn: nat): (p: nat)
    ensures p < Pow2(lgn) && p <= x
    ensures p < x ==> p == Mask(lgn)
  {
    if x < Pow2(lgn) then x else Pow2(lgn) - 1
  }

  /** The path to the last leaf always turns right. */
  lemma LastLeaf(lgn: nat, k: nat)
    requires k < lgn
    ensures Shr(Mask(lgn), k) % 2 == 1
  {
    ShrMask(lgn, k);
    assert Mask(lgn - k) == 2 * Pow2(lgn - k - 1) - 1;
  }

  /** One step of puncturing on the values: what is left of the point, the bits
      collected so far, and the node on the path. What exceeds the last leaf stays. */
  lemma PuncNumbers(p: nat, excess: nat, lgn: nat, i: nat)
    requires 1 <= i <= lgn && (excess > 0 ==> p == Mask(lgn))
    ensures var half, low, right := Pow2(lgn - i), Low(p, lgn - (i - 1)), PathNode(p, lgn, i) % 2 == 1;
      && (half <= low + excess <==> right)
      && Low(p, lgn - i) == (if right then low - half else low)
      && Shl(PathNode(p, lgn, i), lgn - i) ==
        (if right then BitOr(Shl(PathNode(p, lgn, i - 1), lgn - (i - 1)), half)
         else Shl(PathNode(p, lgn, i - 1), lgn - (i - 1)))
  {
    var s := PathNode(p, lgn, i - 1);
    LowNext(p, lgn - i);
    SetBit(s, lgn - i);
    ShlChildren(s, lgn - i);
    if excess > 0 {
      LastLeaf(lgn, lgn - i);
    }
  }

  /** The label of the other child of a node. */
  lemma SiblingLabel(prg: Prg, key: Key, c: nat, lvl: nat)
    ensures NodeAt(GgmTree(prg, key), Sibling(c), lvl + 1)
      == Half(prg, NodeAt(GgmTree(prg, key), c / 2, lvl), c % 2 == 0)
  {
    var s := Sibling(c);
    assert s / 2 == c / 2 && (s % 2 == 1 <==> c % 2 == 0);
    ChildLabel(prg, key, s, lvl);
  }

  /** One step of puncturing on the labels: the child off the path is kept. */
  lemma PuncLabels(prg: Prg, key: Key, p: nat, lgn: nat, i: nat, keys: seq<Key>)
    requires 1 <= i <= lgn && OffPath(prg, key, p, lgn, keys, i - 1)
    ensures var derived, right := prg(OnPath(prg, key, p, lgn, i - 1)), PathNode(p, lgn, i) % 2 == 1;
      && OnPath(prg, key, p, lgn, i) == (if right then derived.1 else derived.0)
      && OffPath(prg, key, p, lgn, keys + [if right then derived.0 else derived.1], i)
  {
    PathBit(p, lgn, i);
    PathLabel(prg, key, p, lgn, i);
    SiblingLabel(prg, key, PathNode(p, lgn, i), i - 1);
  }

  /** After n levels: what is left of the point, the bits and the keys collected so
      far, and the node on the path. */
  ghost predicate PuncState(prg: Prg, key: Key, p: nat, excess: nat, lgn: nat, n: nat,
      left: nat, bitvec: nat, node: Key, keys: seq<Key>) {
    && n <= lgn
    && left == Low(p, lgn - n) + excess
    && bitvec == Shl(PathNode(p, lgn, n), lgn - n)
    && node == OnPath(prg, key, p, lgn, n)
    && OffPath(prg, key, p, lgn, keys, n)
  }

  method PuncLevel(prg: Prg, ghost key: Key, ghost p: nat, ghost excess: nat, lgn: nat, i: nat,
      left: nat, bitvec: nat, node: Key, keys: seq<Key>)
    returns (left': nat, bitvec': nat, node': Key, keys': seq<Key>)
    requires 1 <= i <= lgn && (excess > 0 ==> p == Mask(lgn))
    requires PuncState(prg, key, p, excess, lgn, i - 1, left, bitvec, node, keys)
    ensures PuncState(prg, key, p, excess, lgn, i, left', bitvec', node', keys')
  {
    PuncNumbers(p, excess, lgn, i);
    PuncLabels(prg, key, p, lgn, i, keys);
    var derived := prg(node);
    if Pow2(lgn - i) <= left {
      left' := left - Pow2(lgn - i);
      keys' := keys + [derived.0];
      node' := derived.1;
      bitvec' := BitOr(bitvec, Pow2(lgn - i));
    } else {
      left', bitvec' := left, bitvec;
      keys' := keys + [derived.1];
      node' := derived.0;
    }
  }

  lemma PuncBegins(prg: Prg, key: Key, x: nat, lgn: nat)
    ensures var p := Punctured(x, lgn); PuncState(prg, key, p, x - p, lgn, 0, x, 0, key, [])
  {
    var p := Punctured(x, lgn);
    ShrBound(p, lgn, lgn);
    LowId(p, lgn);
    ShlOne(lgn);
  }

  lemma PuncEnds(prg: Prg, key: Key, p: nat, excess: nat, lgn: nat, left: nat, bitvec: nat, node: Key, keys: seq<Key>)
    requires PuncState(prg, key, p, excess, lgn, lgn, left, bitvec, node, keys)
    ensures PuncturedAt(prg, key, p, lgn, PuncKeys(lgn, bitvec, keys))
  {
    assert Shr(p, 0) == p && Shl(p, 0) == p;
  }

  /** The labels of the path to p from the root. */
  lemma PathLabels(prg: Prg, key: Key, p: nat, lgn: nat) returns (ls: seq<Key>)
    requires p < Pow2(lgn)
    ensures Labels(prg, key, p, lgn, ls) && forall i | 0 <= i <= lgn :: ls[i] == OnPath(prg, key, p, lgn, i)
  {
    ls := seq(lgn + 1, i requires 0 <= i <= lgn => OnPath(prg, key, p, lgn, i));
    ShrBound(p, lgn, lgn);
    forall i: nat | i < lgn ensures LabelAt(prg, p, lgn, ls, i) {
      PathLabel(prg, key, p, lgn, i + 1);
      AndOne(Shr(p, lgn - (i + 1)));
    }
  }

  lemma KeptLabel(prg: Prg, key: Key, p: nat, lgn: nat, ls: seq<Key>, keys: seq<Key>, i: nat)
    requires i < lgn && OffPath(prg, key, p, lgn, keys, lgn)
    requires |ls| == lgn + 1 && ls[i] == OnPath(prg, key, p, lgn, i)
    ensures KeptAt(prg, p, lgn, ls, keys, i)
  {
    PathBit(p, lgn, i + 1);
    AndOne(Shr(p, lgn - (i + 1)));
    SiblingLabel(prg, key, PathNode(p, lgn, i + 1), i);
  }

  lemma PuncturedPunctures(prg: Prg, key: Key, x: nat, lgn: nat, pk: PuncKeys)
    requires PuncturedAt(prg, key, Punctured(x, lgn), lgn, pk)
    ensures Punctures(prg, key, x, lgn, pk)
  {
    var p := Punctured(x, lgn);
    var ls := PathLabels(prg, key, p, lgn);
    forall i: nat | i < lgn ensures KeptAt(prg, p, lgn, ls, pk.keys, i) {
      KeptLabel(prg, key, p, lgn, ls, pk.keys, i);
    }
  }

  method Punc(prg: Prg, key: Key, puncX: nat, lgn: nat) returns (pk: PuncKeys)
    requires lgn <= 30
    ensures PuncturedAt(prg, key, Punctured(puncX, lgn), lgn, pk) && Punctures(prg, key, puncX, lgn, pk)
  {
    ghost var p := Punctured(puncX, lgn);
    ghost var excess := puncX - p;
    var puncNumber, node, bitvec, keys := puncX, key, 0, [];
    PuncBegins(prg, key, puncX, lgn);
    for i := 1 to lgn + 1
      invariant PuncState(prg, key, p, excess, lgn, i - 1, puncNumber, bitvec, node, keys)
    {
      puncNumber, bitvec, node, keys := PuncLevel(prg, key, p, excess, lgn, i, puncNumber, bitvec, node, keys);
    }
    PuncEnds(prg, key, p, excess, lgn, puncNumber, bitvec, node, keys);
    pk := PuncKeys(lgn, bitvec, keys);
    PuncturedPunctures(prg, key, puncX, lgn, pk);
  }

  // ---- Evaluating with the punctured key

  /** The first level, from i on, whose bit differs between x and p. */
  function Leaving(x: nat, p: nat, lgn: nat, i: nat): (l: nat)
    requires 1 <= i <= lgn + 1
    ensures i <= l <= lgn + 1
    decreases lgn + 1 - i
  {
    if i > lgn || BitAnd(x, Pow2(lgn - i)) != BitAnd(p, Pow2(lgn - i)) then i else Leaving(x, p, lgn, i + 1)
  }

  /** Where x parts from the punctured path, it turns to the sibling. */
  lemma {:induction false} LeavingTurns(x: nat, p: nat, lgn: nat, i: nat)
    requires 1 <= i <= lgn + 1 && PathNode(x, lgn, i - 1) == PathNode(p, lgn, i - 1)
    ensures var l := Leaving(x, p, lgn, i);
      if l <= lgn then PathNode(x, lgn, l) == Sibling(PathNode(p, lgn, l)) else x == p
    decreases lgn + 1 - i
  {
    if i <= lgn {
      SamePath(x, p, lgn, i);
      if BitAnd(x, Pow2(lgn - i)) == BitAnd(p, Pow2(lgn - i)) {
        LeavingTurns(x, p, lgn, i + 1);
      }
    }
  }

  lemma SamePath(x: nat, p: nat, lgn: nat, i: nat)
    requires 1 <= i <= lgn && PathNode(x, lgn, i - 1) == PathNode(p, lgn, i - 1)
    ensures BitAnd(x, Pow2(lgn - i)) == BitAnd(p, Pow2(lgn - i)) ==> PathNode(x, lgn, i) == PathNode(p, lgn, i)
    ensures BitAnd(x, Pow2(lgn - i)) != BitAnd(p, Pow2(lgn - i)) ==> PathNode(x, lgn, i) == Sibling(PathNode(p, lgn, i))
  {
    PathStep(x, lgn, i - 1);
    PathStep(p, lgn, i - 1);
    AndBit(x, lgn - i);
    AndBit(p, lgn - i);
  }

  /** The leaf that the kept key of the leaving level leads to. */
  function PuncLeaf(prg: Prg, pk: PuncKeys, x: nat, lgn: nat): Key
    requires |pk.keys| == lgn && Leaving(x, pk.bitvec, lgn, 1) <= lgn
  {
    var l := Leaving(x, pk.bitvec, lgn, 1);
    Below(prg, pk.keys[l - 1], x, lgn, l)
  }

  /** With the keys of a punctured tree it is the leaf of x, for every other point. */
  lemma PuncLeafIsLeaf(prg: Prg, key: Key, pk: PuncKeys, x: nat, lgn: nat)
    requires x < Pow2(lgn) && pk.bitvec < Pow2(lgn) && x != pk.bitvec
    requires PuncturedAt(prg, key, pk.bitvec, lgn, pk)
    ensures Leaving(x, pk.bitvec, lgn, 1) <= lgn
    ensures PuncLeaf(prg, pk, x, lgn) == NodeAt(GgmTree(prg, key), x, lgn)
  {
    PartsInside(x, pk.bitvec, lgn);
    var l := Leaving(x, pk.bitvec, lgn, 1);
    assert pk.keys[l - 1] == OnPath(prg, key, x, lgn, l);
    BelowOnPath(prg, key, x, lgn, l);
  }

  lemma PartsInside(x: nat, p: nat, lgn: nat)
    requires x < Pow2(lgn) && p < Pow2(lgn) && x != p
    ensures var l := Leaving(x, p, lgn, 1); l <= lgn && PathNode(x, lgn, l) == Sibling(PathNode(p, lgn, l))
  {
    ShrBound(x, lgn, lgn);
    ShrBound(p, lgn, lgn);
    LeavingTurns(x, p, lgn, 1);
  }

  // ---- Points beyond the last leaf

  /** Only the lowest lgn bits of a point matter. */
  lemma SameBit(x: nat, lgn: nat, k: nat)
    requires k < lgn
    ensures BitAnd(Low(x, lgn), Pow2(k)) == BitAnd(x, Pow2(k))
    ensures BitAnd(Shr(Low(x, lgn), k), 1) != 0 <==> BitAnd(Shr(x, k), 1) != 0
  {
    BitAtLow(x, k, lgn);
    AndBit(x, k);
    AndBit(Low(x, lgn), k);
    AndBit(Shr(x, k), 0);
    AndBit(Shr(Low(x, lgn), k), 0);
    assert Pow2(0) == 1 && Shr(Shr(x, k), 0) == Shr(x, k) && Shr(Shr(Low(x, lgn), k), 0) == Shr(Low(x, lgn), k);
  }

  lemma {:induction false} LeavingLow(x: nat, p: nat, lgn: nat, i: nat)
    requires 1 <= i <= lgn + 1
    ensures Leaving(Low(x, lgn), p, lgn, i) == Leaving(x, p, lgn, i)
    decreases lgn + 1 - i
  {
    if i <= lgn {
      SameBit(x, lgn, lgn - i);
      LeavingLow(x, p, lgn, i + 1);
    }
  }

  lemma {:induction false} BelowLow(prg: Prg, node: Key, x: nat, lgn: nat, from: nat)
    requires from <= lgn
    ensures Below(prg, node, Low(x, lgn), lgn, from) == Below(prg, node, x, lgn, from)
    decreases lgn - from
  {
    if from < lgn {
      SameBit(x, lgn, lgn - (from + 1));
      BelowLow(prg, Half(prg, node, BitAnd(Shr(x, lgn - (from + 1)), 1) != 0), x, lgn, from + 1);
    }
  }

  /** A point beyond the last leaf is evaluated at its lowest lgn bits. */
  lemma PuncLeafLow(prg: Prg, pk: PuncKeys, x: nat, lgn: nat)
    requires |pk.keys| == lgn && Leaving(x, pk.bitvec, lgn, 1) <= lgn
    ensures Leaving(Low(x, lgn), pk.bitvec, lgn, 1) <= lgn
    ensures PuncLeaf(prg, pk, Low(x, lgn), lgn) == PuncLeaf(prg, pk, x, lgn)
  {
    LeavingLow(x, pk.bitvec, lgn, 1);
    var l := Leaving(x, pk.bitvec, lgn, 1);
    BelowLow(prg, pk.keys[l - 1], x, lgn, l);
  }

  /** The leaving level in bits. */
  lemma {:induction false} LeavingParts(x: nat, p: nat, lgn: nat, i: nat)
    requires 1 <= i <= lgn + 1 && Leaving(x, p, lgn, i) <= lgn
    requires forall b: nat | lgn - i < b < lgn :: BitAt(x, b) == BitAt(p, b)
    ensures PartsAt(x, p, lgn, Leaving(x, p, lgn, i))
    decreases lgn + 1 - i
  {
    if i <= lgn {
      AndBit(x, lgn - i);
      AndBit(p, lgn - i);
      if BitAt(x, lgn - i) == BitAt(p, lgn - i) {
        LeavingParts(x, p, lgn, i + 1);
      }
    }
  }

  // ---- The loops

  method LeavingLevel(x: nat, lgn: nat, bitvec: nat) returns (i: nat)
    requires Leaving(x, bitvec, lgn, 1) <= lgn
    ensures i == Leaving(x, bitvec, lgn, 1)
  {
    i := 1;
    while BitAnd(x, Pow2(lgn - i)) == BitAnd(bitvec, Pow2(lgn - i))
      invariant 1 <= i <= lgn && Leaving(x, bitvec, lgn, 1) == Leaving(x, bitvec, lgn, i)
      decreases lgn - i
    {
      i := i + 1;
    }
  }

  /** At the punctured point -1; everywhere else the output of the leaf that the kept
      keys lead to. Points that agree with the punctured one in the lowest lgn bits have no
      kept key. */
  method EvalPunc(prg: Prg, pk: PuncKeys, x: nat, lgn: nat, range: nat) returns (y: int)
    requires lgn <= 30 && |pk.keys| == lgn
    requires x != pk.bitvec ==>
      Leaving(x, pk.bitvec, lgn, 1) <= lgn && Extractable(PuncLeaf(prg, pk, x, lgn), lgn, range)
    ensures y == if x == pk.bitvec then -1 else Output(PuncLeaf(prg, pk, x, lgn), lgn, range)
    ensures x != pk.bitvec ==> 0 <= y < range && EvaluatesKept(prg, pk, x, lgn, range, y)
  {
    if x == pk.bitvec {
      return -1;
    }
    var i := LeavingLevel(x, lgn, pk.bitvec);
    var leaf := Descend(prg, pk.keys[i - 1], x, lgn, i);
    y := Extract(leaf, lgn, range);
    LeavingParts(x, pk.bitvec, lgn, 1);
    BelowEvaluates(prg, pk.keys[i - 1], x, lgn, i, range);
  }

  /** Puncturing and evaluating: -1 at the punctured point, and the value of the
      function at every other point. */
  method PuncThenEval(prg: Prg, key: Key, puncX: nat, x: nat, lgn: nat, range: nat) returns (y: int)
    requires lgn <= 30 && Pow2(lgn) <= range && puncX < Pow2(lgn) && x < Pow2(lgn)
    ensures y == if x == puncX then -1 else Prf(prg, key, x, lgn, range)
  {
    var pk := Punc(prg, key, puncX, lgn);
    if x != puncX {
      PuncLeafIsLeaf(prg, key, pk, x, lgn);
      FirstWindowFits(PuncLeaf(prg, pk, x, lgn), lgn, range);
    }
    y := EvalPunc(prg, pk, x, lgn, range);
  }
}
