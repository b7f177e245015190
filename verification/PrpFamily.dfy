/** What the protocol uses of the cryptographic layer: a permutation of
    [0, range) for every range and key, its inverse, and key derivation. The
    cycle-walked Feistel network is one such family for any choice of AES. */
module PrpFamily {
  import CycleWalk
  import opened Keys
  import opened Results

  datatype Family = Family(
    walk: (nat, nat, Key) -> nat,
    unwalk: (nat, nat, Key) -> nat,
    kdf: (Key, Key, nat) -> Key)
  {
    /** Names the points at which Valid is to be used. */
    predicate At(num: nat, range: nat, key: Key) {
      num < range
    }

    /** Names the points at which Realizes is to be used. */
    predicate Computed(num: nat, range: nat, key: Key) {
      num < range
    }

    /** For each range and key, `walk` and `unwalk` are mutually inverse on [0, range). */
    ghost predicate Valid() {
      forall num: nat, range: nat, key: Key {:trigger At(num, range, key)} | At(num, range, key) ::
        && walk(num, range, key) < range
        && unwalk(num, range, key) < range
        && unwalk(walk(num, range, key), range, key) == num
        && walk(unwalk(num, range, key), range, key) == num
    }

    /** The family is the one that the source computes from the primitives p. */
    ghost predicate Realizes(p: Prims) {
      && kdf == p.kdf
      && forall num: nat, range: nat, key: Key {:trigger Computed(num, range, key)} | Computed(num, range, key) ::
        && walk(num, range, key) == CycleWalk.Walk(p, num, range, key)
        && unwalk(num, range, key) == CycleWalk.WalkInv(p, num, range, key)
    }
  }

  /** Whatever AES computes, the source's walks are a valid family. */
  lemma FamilyOf(p: Prims) returns (f: Family)
    ensures f.Realizes(p) && f.Valid()
  {
    var walk := (num: nat, range: nat, key: Key) =>
      if num < range then CycleWalk.Walk(p, num, range, key) else 0;
    var unwalk := (num: nat, range: nat, key: Key) =>
      if num < range then CycleWalk.WalkInv(p, num, range, key) else 0;
    f := Family(walk, unwalk, p.kdf);
    RealizedIsValid(p, f);
  }

  lemma RealizedIsValid(p: Prims, f: Family)
    requires f.Realizes(p)
    ensures f.Valid()
  {
    forall num: nat, range: nat, key: Key {:trigger f.At(num, range, key)} | f.At(num, range, key)
      ensures f.walk(num, range, key) < range
      ensures f.unwalk(num, range, key) < range
      ensures f.unwalk(f.walk(num, range, key), range, key) == num
      ensures f.walk(f.unwalk(num, range, key), range, key) == num
    {
      CycleWalk.WalkInverse(p, num, range, key);
      assert f.Computed(num, range, key);
      assert f.Computed(f.walk(num, range, key), range, key);
      assert f.Computed(f.unwalk(num, range, key), range, key);
    }
  }

  method Walk(p: Prims, ghost f: Family, num: nat, range: nat, key: Key) returns (r: Result<nat>)
    requires range < CycleWalk.UINT32_SIZE && f.Realizes(p)
    ensures r.Ok? <==> num < range
    ensures r.Ok? ==> r.value == f.walk(num, range, key) < range
  {
    r := CycleWalk.CycleWalk(p, num, range, key);
    assert num < range ==> f.Computed(num, range, key);
  }

  method Unwalk(p: Prims, ghost f: Family, num: nat, range: nat, key: Key) returns (r: Result<nat>)
    requires range < CycleWalk.UINT32_SIZE && f.Realizes(p)
    ensures r.Ok? <==> num < range
    ensures r.Ok? ==> r.value == f.unwalk(num, range, key) < range
  {
    r := CycleWalk.InvCycleWalk(p, num, range, key);
    assert num < range ==> f.Computed(num, range, key);
  }
}
