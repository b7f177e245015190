/** The search is exact for every set description if and only if the shift is
    not zero. The converse is a concrete pair of keys on a two-element slot. */
module SearchFault {
  import opened Bits
  import opened CycleWalk
  import opened Feistel
  import opened Keys
  import opened PirSearch
  import opened PirSets
  import opened PrpFamily

  const SET_KEY: Key := [0, 0, 0, 0, 0, 0, 0, 0, 0, 0, 0, 0, 0, 0, 0, 0]
  const DERIVED_KEY: Key := [1, 1, 1, 1, 1, 1, 1, 1, 1, 1, 1, 1, 1, 1, 1, 1]

  /** Primitives under which the set key permutes {0, 1} trivially and every
      derived key exchanges the two. */
  function Exchange(): Prims {
    Prims((k, b) => if k == SET_KEY then 0 else 1, (mk, sk, batch) => DERIVED_KEY)
  }

  /** Slot 0 holds one of two indices, as after one addition to a database of two. */
  function TwoSlots(): SetDesc {
    SetDesc(SET_KEY, 0, [Slot(2, 1), Slot(1, 1)])
  }

  /** One round on two bits when the round function is the constant `bit`. */
  function TwoBit(b: nat, bit: nat): nat
    requires b < 4 && bit < 2
  {
    if b == 0 then bit else if b == 1 then 2 + bit else if b == 2 then 1 - bit else 3 - bit
  }

  function TwoBits(b: nat, bit: nat, k: nat): (c: nat)
    requires b < 4 && bit < 2
    ensures c < 4
  {
    if k == 0 then b else TwoBit(TwoBits(b, bit, k - 1), bit)
  }

  lemma RoundFuncConstant(p: Prims, x: nat, key: Key, tweak: nat, bit: nat)
    requires bit < 2 && forall w :: p.aes(key, w) == bit
    ensures RoundFunc(p, x, key, tweak, 1) == bit
  {
    AndMask(bit, 1);
    assert Low(bit, 1) == bit;
  }

  lemma JoinOne(hi: nat, lo: nat)
    requires lo < 2
    ensures Join(hi, lo, 1) == 2 * hi + lo
  {
    assert Join(hi, lo / 2, 0) == hi;
  }

  lemma TwoBitRound(p: Prims, b: nat, key: Key, tweak: nat, bit: nat)
    requires b < 4 && bit < 2 && forall w :: p.aes(key, w) == bit
    ensures Round(p, b, 1, 1, key, tweak) == TwoBit(b, bit)
  {
    RoundFuncConstant(p, Low(b, 1), key, tweak, bit);
    var hi := b / 2;
    assert Shr(b, 1) == hi by {
      assert Shr(hi, 0) == hi;
    }
    assert Low(b, 1) == b % 2 by {
      assert Low(hi, 0) == 0;
    }
    assert BitXor(0, 0) == 0;
    var mixed := if hi == bit then 0 else 1;
    assert BitXor(hi, bit) == mixed;
    JoinOne(b % 2, mixed);
  }

  lemma {:induction false} TwoBitRounds(p: Prims, b: nat, key: Key, bit: nat, k: nat)
    requires b < 4 && bit < 2 && forall w :: p.aes(key, w) == bit
    ensures Rounds(p, b, 2, key, k) == TwoBits(b, bit, k)
  {
    if k > 0 {
      TwoBitRounds(p, b, key, bit, k - 1);
      TwoBitRound(p, TwoBits(b, bit, k - 1), key, k, bit);
    }
  }

  lemma WalkOfOneStep(p: Prims, f: Family, key: Key, bit: nat, x: nat)
    requires f.Realizes(p) && f.Valid() && x < 2
    requires bit < 2 && forall w :: p.aes(key, w) == bit
    requires TwoBits(x, bit, ROUNDS) == 0
    ensures f.unwalk(0, 2, key) == x && f.unwalk(1, 2, key) == 1 - x
  {
    assert f.walk(x, 2, key) == 0 by {
      TwoBitRounds(p, x, key, bit, ROUNDS);
      assert BlockLength(2) == 2;
      WalkAtOnce(p, x, 2, key);
      assert f.Computed(x, 2, key);
    }
    TwoPoints(f, key, x);
  }

  lemma TwoPoints(f: Family, key: Key, x: nat)
    requires f.Valid() && x < 2 && f.walk(x, 2, key) == 0
    ensures f.unwalk(0, 2, key) == x && f.unwalk(1, 2, key) == 1 - x
  {
    assert f.At(x, 2, key) && f.At(1, 2, key);
  }

  lemma SevenRounds()
    ensures TwoBits(0, 0, ROUNDS) == 0 && TwoBits(1, 1, ROUNDS) == 0
  {
    assert TwoBits(0, 0, 4) == 0;
    assert TwoBits(1, 1, 4) == 1;
  }

  /** The set key keeps 0 and 1; the derived key exchanges them. */
  lemma ExchangeWalks(f: Family)
    requires f.Realizes(Exchange()) && f.Valid()
    ensures f.unwalk(0, 2, SET_KEY) == 0 && f.unwalk(1, 2, SET_KEY) == 1
    ensures f.unwalk(0, 2, DERIVED_KEY) == 1 && f.unwalk(1, 2, DERIVED_KEY) == 0
  {
    SevenRounds();
    WalksByKeys(Exchange(), f, SET_KEY, DERIVED_KEY);
  }

  lemma WalksByKeys(p: Prims, f: Family, k0: Key, k1: Key)
    requires f.Realizes(p) && f.Valid()
    requires (forall w :: p.aes(k0, w) == 0) && (forall w :: p.aes(k1, w) == 1)
    requires TwoBits(0, 0, ROUNDS) == 0 && TwoBits(1, 1, ROUNDS) == 0
    ensures f.unwalk(0, 2, k0) == 0 && f.unwalk(1, 2, k0) == 1
    ensures f.unwalk(0, 2, k1) == 1 && f.unwalk(1, 2, k1) == 0
  {
    WalkOfOneStep(p, f, k0, 0, 0);
    WalkOfOneStep(p, f, k1, 1, 1);
  }

  lemma TwoSlotsWellFormed()
    ensures WellFormed(TwoSlots(), 3, 2)
  {
    var aux := TwoSlots().aux;
    assert Accum(aux, 1) == 2 && Accum(aux, 2) == 3;
    assert Total(aux, 1) == 1 && Total(aux, 2) == 2;
  }

  /** The set contains index 0, and the search does not take it for index 0; it
      takes it for index 1, which the set does not contain. */
  lemma ZeroShiftFault(f: Family, mk: Key)
    requires f.Realizes(Exchange()) && f.Valid()
    ensures WellFormed(TwoSlots(), 3, 2)
    ensures 0 in Expansion(f, mk, TwoSlots()) && !Accepts(f, mk, TwoSlots(), 0)
    ensures 1 !in Expansion(f, mk, TwoSlots()) && Accepts(f, mk, TwoSlots(), 1)
  {
    ExchangeWalks(f);
    TwoSlotsWellFormed();
    assert f.kdf(mk, SET_KEY, 0) == DERIVED_KEY;
    SearchWithoutShift(f, mk, TwoSlots(), 0);
    SearchWithoutShift(f, mk, TwoSlots(), 1);
  }

  /** The search is exact for all sets with a shift exactly when it is not zero. */
  lemma SearchExactIff(shift: nat)
    ensures SearchExactForShift(shift) <==> shift != 0
  {
    if shift == 0 {
      var f := FamilyOf(Exchange());
      ZeroShiftFault(f, SET_KEY);
    } else {
      forall p: Prims, f: Family, mk: Key, d: SetDesc, idx: nat
        | f.Realizes(p) && f.Valid() && Fits(d) && d.shift == shift
        ensures Accepts(f, mk, d, idx) <==> idx in Expansion(f, mk, d)
      {
        SearchExact(f, mk, d, idx);
      }
    }
  }
}
