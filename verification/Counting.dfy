/** Counting the numbers at which something holds. */
module Counting {

  /** The numbers below m, without `skip`, at which something holds. */
  ghost function Holding(has: nat -> bool, skip: int, m: nat): set<nat> {
    set i: nat | 0 <= i < m && i != skip && has(i)
  }

  lemma OneMoreSize(s: set<nat>, t: set<nat>, x: nat, more: bool)
    requires x !in s && t == if more then s + {x} else s
    ensures |t| == |s| + if more then 1 else 0
  {
  }

  lemma HoldingGrows(has: nat -> bool, skip: int, m: nat, more: bool)
    requires m > 0 && more == (m - 1 != skip && has(m - 1))
    ensures Holding(has, skip, m) == if more then Holding(has, skip, m - 1) + {m - 1} else Holding(has, skip, m - 1)
  {
    forall i: nat | i < m
      ensures i in Holding(has, skip, m) <==> i in Holding(has, skip, m - 1) || (more && i == m - 1)
    {
    }
  }

  lemma HoldingNext(has: nat -> bool, skip: int, m: nat)
    requires m > 0
    ensures |Holding(has, skip, m)| == |Holding(has, skip, m - 1)| + if m - 1 != skip && has(m - 1) then 1 else 0
  {
    var more := m - 1 != skip && has(m - 1);
    HoldingGrows(has, skip, m, more);
    OneMoreSize(Holding(has, skip, m - 1), Holding(has, skip, m), m - 1, more);
  }

  lemma HoldingNone(has: nat -> bool, skip: int)
    ensures Holding(has, skip, 0) == {}
  {
  }
}
