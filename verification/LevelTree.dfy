/** Binary trees whose nodes are computed from their parents, as the key trees of
    the point function and of the puncturable function are: the nodes of one
    level are numbered from left to right, so that the number of a node spells
    the path to it. */
module LevelTree {
  import opened Bits

  datatype Tree<!N> = Tree(root: N, down: (nat, N, bool) -> N)

  /** Node number j of a level. */
  function NodeAt<N>(t: Tree<N>, j: nat, lvl: nat): N
    decreases lvl
  {
    if lvl == 0 then t.root else t.down(lvl - 1, NodeAt(t, j / 2, lvl - 1), j % 2 == 1)
  }

  lemma Children<N>(t: Tree<N>, j: nat, lvl: nat)
    ensures NodeAt(t, 2 * j, lvl + 1) == t.down(lvl, NodeAt(t, j, lvl), false)
    ensures NodeAt(t, 2 * j + 1, lvl + 1) == t.down(lvl, NodeAt(t, j, lvl), true)
  {
    assert 2 * j / 2 == j && (2 * j + 1) / 2 == j;
  }

  /** The other child of the same parent. */
  function Sibling(j: nat): nat {
    if j % 2 == 1 then j - 1 else j + 1
  }

  // ---- Paths

  lemma {:induction false} ShrNext(x: nat, k: nat)
    ensures Shr(x, k + 1) == Shr(x, k) / 2
  {
    if k > 0 {
      ShrNext(x / 2, k - 1);
    } else {
      assert Shr(x, 1) == Shr(x / 2, 0);
    }
  }

  /** The number, on level lvl, of the node on the path to leaf x of level logn. */
  function PathNode(x: nat, logn: nat, lvl: nat): nat
    requires lvl <= logn
  {
    Shr(x, logn - lvl)
  }

  /** Below level lvl the path follows one bit of x. */
  lemma PathStep(x: nat, logn: nat, lvl: nat)
    requires lvl < logn
    ensures PathNode(x, logn, lvl + 1) / 2 == PathNode(x, logn, lvl)
    ensures PathNode(x, logn, lvl + 1) % 2 == 1 <==> BitAnd(x, Pow2(logn - 1 - lvl)) != 0
  {
    ShrNext(x, logn - 1 - lvl);
    AndBit(x, logn - 1 - lvl);
  }

  lemma PathDown<N>(t: Tree<N>, x: nat, logn: nat, lvl: nat)
    requires lvl < logn
    ensures NodeAt(t, PathNode(x, logn, lvl + 1), lvl + 1) ==
      t.down(lvl, NodeAt(t, PathNode(x, logn, lvl), lvl), BitAnd(x, Pow2(logn - 1 - lvl)) != 0)
  {
    PathStep(x, logn, lvl);
  }

  // ---- Whole levels

  /** The nodes of level `stop` below a node of level `lvl`, from left to right. */
  function Leaves<N>(t: Tree<N>, n: N, lvl: nat, stop: nat): seq<N>
    requires lvl <= stop
    decreases stop - lvl
  {
    if lvl == stop then [n]
    else Leaves(t, t.down(lvl, n, false), lvl + 1, stop) + Leaves(t, t.down(lvl, n, true), lvl + 1, stop)
  }

  lemma {:induction false} LeavesLength<N>(t: Tree<N>, n: N, lvl: nat, stop: nat)
    requires lvl <= stop
    ensures |Leaves(t, n, lvl, stop)| == Pow2(stop - lvl)
    decreases stop - lvl
  {
    if lvl < stop {
      LeavesLength(t, t.down(lvl, n, false), lvl + 1, stop);
      LeavesLength(t, t.down(lvl, n, true), lvl + 1, stop);
    }
  }

  /** The first half of the leaves is below the left child, the rest below the right one. */
  lemma HalfLeaves<N>(t: Tree<N>, n: N, lvl: nat, stop: nat, m: nat)
    requires lvl < stop && m < Pow2(stop - lvl)
    ensures |Leaves(t, n, lvl, stop)| == Pow2(stop - lvl)
    ensures var half := Pow2(stop - lvl - 1);
      var side := Leaves(t, t.down(lvl, n, half <= m), lvl + 1, stop);
      |side| == half && Leaves(t, n, lvl, stop)[m] == side[if half <= m then m - half else m]
  {
    LeavesLength(t, t.down(lvl, n, false), lvl + 1, stop);
    LeavesLength(t, t.down(lvl, n, true), lvl + 1, stop);
  }

  /** The m-th leaf below node j is a node of its level in its own right: its number
      spells the path to j and then the path down to the leaf. */
  lemma {:induction false} LeafBelow<N>(t: Tree<N>, n: N, j: nat, lvl: nat, stop: nat, first: nat, m: nat)
    requires lvl <= stop && m < Pow2(stop - lvl) && n == NodeAt(t, j, lvl) && first == Shl(j, stop - lvl)
    ensures |Leaves(t, n, lvl, stop)| == Pow2(stop - lvl)
    ensures Leaves(t, n, lvl, stop)[m] == NodeAt(t, first + m, stop)
    decreases stop - lvl
  {
    if lvl == stop {
      assert first + m == j;
    } else {
      var half := Pow2(stop - lvl - 1);
      HalfLeaves(t, n, lvl, stop, m);
      Children(t, j, lvl);
      ShlChildren(j, stop - lvl - 1);
      var right := half <= m;
      LeafBelow(t, t.down(lvl, n, right), if right then 2 * j + 1 else 2 * j, lvl + 1, stop,
        if right then first + half else first, if right then m - half else m);
    }
  }

  /** Level `stop` of the tree, from left to right. */
  lemma WholeLevel<N>(t: Tree<N>, stop: nat, m: nat)
    requires m < Pow2(stop)
    ensures |Leaves(t, t.root, 0, stop)| == Pow2(stop)
    ensures Leaves(t, t.root, 0, stop)[m] == NodeAt(t, m, stop)
  {
    LeavesLength(t, t.root, 0, stop);
    ShlOne(stop);
    LeafBelow(t, t.root, 0, 0, stop, 0, m);
  }
}
