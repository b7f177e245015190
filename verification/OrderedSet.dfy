/** Iterating over an ordered set: its elements, smallest first. */
module OrderedSet {
  import opened Counting

  predicate Increasing(q: seq<nat>) {
    forall i, j | 0 <= i < j < |q| :: q[i] < q[j]
  }

  /** The members of s below n, in the order in which an iterator visits them. */
  function Ascending(s: set<nat>, n: nat): (q: seq<nat>)
    ensures forall i | 0 <= i < |q| :: q[i] < n && q[i] in s
    ensures Increasing(q)
  {
    if n == 0 then []
    else if n - 1 in s then Ascending(s, n - 1) + [n - 1]
    else Ascending(s, n - 1)
  }

  /** The iterator visits every member once. */
  lemma {:induction false} AscendingSize(s: set<nat>, n: nat)
    requires forall x | x in s :: x < n
    ensures |Ascending(s, n)| == |s|
  {
    if n == 0 {
      assert s == {};
    } else {
      var rest := s - {n - 1};
      AscendingSize(rest, n - 1);
      AscendingIgnores(s, n - 1, n - 1);
      if n - 1 !in s {
        assert rest == s;
      }
    }
  }

  lemma {:induction false} AscendingIgnores(s: set<nat>, x: nat, n: nat)
    requires n <= x
    ensures Ascending(s - {x}, n) == Ascending(s, n)
  {
    if n > 0 {
      AscendingIgnores(s, x, n - 1);
    }
  }

  // ---- Places in the order

  /** The members below n. */
  function Below(s: set<nat>, n: nat): set<nat> {
    set y | y in s && y < n
  }

  lemma {:induction false} BelowSize(s: set<nat>, n: nat)
    ensures |Below(s, n)| == |Ascending(s, n)|
  {
    if n == 0 {
      assert Below(s, n) == {};
    } else {
      BelowSize(s, n - 1);
      var more := n - 1 in s;
      assert Below(s, n) == if more then Below(s, n - 1) + {n - 1} else Below(s, n - 1);
      OneMoreSize(Below(s, n - 1), Below(s, n), n - 1, more);
    }
  }

  /** The k-th element that an iterator visits has exactly k smaller ones. */
  lemma {:induction false} AscendingRank(s: set<nat>, n: nat, k: nat)
    requires k < |Ascending(s, n)|
    ensures |Below(s, Ascending(s, n)[k])| == k
  {
    if k < |Ascending(s, n - 1)| {
      AscendingRank(s, n - 1, k);
    } else {
      BelowSize(s, n - 1);
    }
  }
}
