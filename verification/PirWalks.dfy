/** The walk to one member of a slot, as client and server compute it. */
module PirWalks {
  import opened Keys
  import opened PirBatch
  import opened PirSets
  import opened PrpFamily
  import opened Results

  /** Rotation by a shift in 32-bit registers. */
  function Rotate32(y: nat, shift: nat, range: nat): (z: nat)
    requires y < range < MAX_RANGE && shift < MAX_RANGE
    ensures z < range
    ensures z == (y + shift) % range
    ensures shift < range ==> z == Rotate(y, shift, range)
  {
    Add32(y, shift) % range
  }

  function RotateBack32(z: nat, shift: nat, range: nat): (y: nat)
    requires shift < range < MAX_RANGE
    ensures y < range
    ensures z < range ==> y == RotateBack(z, shift, range)
  {
    (Add32(z, range) - shift) % UINT32_SIZE % range
  }

  /** Without a carry out of 32 bits the rotation is exact. */
  lemma RotatedBack(z: nat, shift: nat, range: nat)
    requires shift < range < MAX_RANGE && z + range < UINT32_SIZE
    ensures RotateBack32(z, shift, range) == (z + range - shift) % range
  {
    assert (Add32(z, range) - shift) % UINT32_SIZE == z + range - shift;
  }

  /** Where the walk of the x-th member of a slot ends, counted from the start of the range. */
  ghost function Walked(f: Family, mk: Key, d: SetDesc, slot: nat, x: nat): (z: nat)
    requires f.Valid() && slot < |d.aux| && x < d.aux[slot].range < MAX_RANGE && d.shift < MAX_RANGE
    ensures z < d.aux[slot].range
  {
    var range, key := d.aux[slot].range, SlotKey(f, mk, d.sk, slot);
    assert f.At(x, range, key);
    var y := f.walk(x, range, key);
    if d.shift != 0 && slot == 0 then Rotate32(y, d.shift, range) else y
  }

  /** With the shift inside slot 0 that is the member of the expansion. */
  lemma WalkedIsLocal(f: Family, mk: Key, d: SetDesc, slot: nat, x: nat)
    requires f.Valid() && Laid(d) && slot < |d.aux| && x < d.aux[slot].range < MAX_RANGE && d.shift < MAX_RANGE
    ensures Walked(f, mk, d, slot, x) == Local(f, mk, d, slot, x)
  {
    assert f.At(x, d.aux[slot].range, SlotKey(f, mk, d.sk, slot));
  }

  /** The x-th member of a slot; it fails when x is not below the slot's range. */
  method SlotWalk(p: Prims, ghost f: Family, ghost mk: Key, d: SetDesc, slot: nat, ki: Key, x: nat) returns (r: Result<nat>)
    requires f.Realizes(p) && f.Valid() && slot < |d.aux| && ki == SlotKey(f, mk, d.sk, slot)
    requires d.aux[slot].range < MAX_RANGE && d.shift < MAX_RANGE
    ensures r.Ok? <==> x < d.aux[slot].range
    ensures r.Ok? ==> r.value == Walked(f, mk, d, slot, x)
  {
    var range := d.aux[slot].range;
    r := Walk(p, f, x, range, ki);
    if r.Ok? {
      if d.shift != 0 && slot == 0 {
        r := Ok(Rotate32(r.value, d.shift, range));
      }
    }
  }
}
