/** For one set and one index: when does the search agree with the expansion
    whatever the permutations are? */
module SearchExactness {
  import opened Keys
  import opened PirSearch
  import opened PirSets
  import opened PrpFamily

  /** Under every family of permutations the search accepts the set for the index
      exactly when the set contains the index. */
  ghost predicate ExactOn(d: SetDesc, idx: nat)
    requires Fits(d)
  {
    forall f: Family, mk: Key | f.Valid() :: Accepts(f, mk, d, idx) <==> idx in Expansion(f, mk, d)
  }

  // ---- A family that tells two keys apart

  function Exchanged(x: nat, a: nat, b: nat): nat {
    if x == a then b else if x == b then a else x
  }

  /** Exchanges a and b, where both are in range. */
  function Transposed(x: nat, a: nat, b: nat, range: nat): (y: nat)
    ensures x < range ==> y < range
  {
    if a < range && b < range then Exchanged(x, a, b) else x
  }

  lemma TransposedTwice(x: nat, a: nat, b: nat, range: nat)
    ensures Transposed(Transposed(x, a, b, range), a, b, range) == x
  {
  }

  function OtherKey(k: Key): (other: Key)
    ensures other != k
  {
    var zeros: Key := [0, 0, 0, 0, 0, 0, 0, 0, 0, 0, 0, 0, 0, 0, 0, 0];
    var ones: Key := [1, 1, 1, 1, 1, 1, 1, 1, 1, 1, 1, 1, 1, 1, 1, 1];
    assert zeros[0] != ones[0];
    if k == zeros then ones else zeros
  }

  function Partner(sk: Key, last: nat, key: Key): nat {
    if key == sk then 0 else last
  }

  /** With the key sk the index goes to 0, with every other key to `last`; the derived
      keys are other keys. */
  function TellsApart(sk: Key, idx: nat, last: nat): Family {
    var swap := (num: nat, range: nat, key: Key) => Transposed(num, idx, Partner(sk, last, key), range);
    Family(swap, swap, (mk, k, batch) => OtherKey(k))
  }

  lemma TellsApartValid(sk: Key, idx: nat, last: nat)
    ensures TellsApart(sk, idx, last).Valid()
  {
    forall num: nat, range: nat, partner: nat | num < range
      ensures Transposed(Transposed(num, idx, partner, range), idx, partner, range) == num
    {
      TransposedTwice(num, idx, partner, range);
    }
  }

  lemma ApartAt(f: Family, sk: Key, idx: nat, last: nat, range: nat)
    requires f == TellsApart(sk, idx, last) && idx < range && last < range
    ensures f.unwalk(idx, range, sk) == 0
    ensures f.unwalk(idx, range, f.kdf(sk, sk, 0)) == last
  {
    assert Partner(sk, last, sk) == 0 && Partner(sk, last, OtherKey(sk)) == last;
  }

  // ---- The exact condition

  lemma FaultyFamily(d: SetDesc, idx: nat)
    requires Fits(d) && !SearchUsesSetKey(d, idx) && 0 < d.aux[0].count < d.aux[0].range
    ensures !ExactOn(d, idx)
  {
    var last := d.aux[0].range - 1;
    var f := TellsApart(d.sk, idx, last);
    TellsApartValid(d.sk, idx, last);
    ApartAt(f, d.sk, idx, last, d.aux[0].range);
    SearchWithoutShift(f, d.sk, d, idx);
    assert idx in Expansion(f, d.sk, d) && !Accepts(f, d.sk, d, idx);
  }

  lemma SlotZeroFull(f: Family, mk: Key, d: SetDesc, idx: nat)
    requires f.Valid() && Fits(d) && !SearchUsesSetKey(d, idx)
    requires d.aux[0].count == 0 || d.aux[0].count == d.aux[0].range
    ensures Accepts(f, mk, d, idx) <==> idx in Expansion(f, mk, d)
  {
    var range := d.aux[0].range;
    SearchWithoutShift(f, mk, d, idx);
    assert f.At(idx, range, f.kdf(mk, d.sk, 0)) && f.At(idx, range, d.sk);
  }

  /** The search agrees with the expansion under every family exactly when it uses
      the key of the set, or slot 0 is empty, or slot 0 is full. */
  lemma ExactOnIff(d: SetDesc, idx: nat)
    requires Fits(d)
    ensures ExactOn(d, idx) <==>
      SearchUsesSetKey(d, idx) || d.aux[0].count == 0 || d.aux[0].count == d.aux[0].range
  {
    if SearchUsesSetKey(d, idx) {
      forall f: Family, mk: Key | f.Valid() ensures Accepts(f, mk, d, idx) <==> idx in Expansion(f, mk, d) {
        SearchExact(f, mk, d, idx);
      }
    } else if 0 < d.aux[0].count < d.aux[0].range {
      FaultyFamily(d, idx);
    } else {
      forall f: Family, mk: Key | f.Valid() ensures Accepts(f, mk, d, idx) <==> idx in Expansion(f, mk, d) {
        SlotZeroFull(f, mk, d, idx);
      }
    }
  }
}
