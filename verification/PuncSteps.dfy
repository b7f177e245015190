/** What evaluation and puncturing do, label by label and byte by byte, without the
    functions that compute them. */
module PuncSteps {
  import opened Bits
  import Keys

  /** The label of a node: its sixteen bytes. */
  datatype Key = Key(bytes: Keys.Key)

  /** The generator, as an arbitrary function. */
  type Prg = Key -> (Key, Key)

  datatype PuncKeys = PuncKeys(height: nat, bitvec: nat, keys: seq<Key>)

  // ---- Labels

  /** The step from label i follows one of the lowest `bits` bits of x, the top one first. */
  predicate LabelAt(prg: Prg, x: nat, bits: nat, ls: seq<Key>, i: nat) {
    && i + 1 < |ls| && i < bits
    && ls[i + 1] == if BitAt(x, bits - 1 - i) then prg(ls[i]).1 else prg(ls[i]).0
  }

  /** The labels on the way down from a node. */
  ghost predicate Labels(prg: Prg, node: Key, x: nat, bits: nat, ls: seq<Key>) {
    && |ls| == bits + 1 && ls[0] == node
    && forall i: nat {:trigger LabelAt(prg, x, bits, ls, i)} | i < bits :: LabelAt(prg, x, bits, ls, i)
  }

  lemma LabelsBelow(prg: Prg, node: Key, next: Key, x: nat, bits: nat, ls: seq<Key>)
    requires bits > 0 && Labels(prg, next, x, bits - 1, ls)
    requires next == if BitAt(x, bits - 1) then prg(node).1 else prg(node).0
    ensures Labels(prg, node, x, bits, [node] + ls)
  {
    var all := [node] + ls;
    forall i: nat | i < bits ensures LabelAt(prg, x, bits, all, i) {
      if i > 0 {
        assert LabelAt(prg, x, bits - 1, ls, i - 1);
        assert all[i] == ls[i - 1] && all[i + 1] == ls[i];
      }
    }
  }

  // ---- Outputs

  /** The first eight bytes of a label, the first one on top. */
  function FirstEight(k: Key): nat {
    var b0: nat, b1: nat, b2: nat, b3: nat := k.bytes[0], k.bytes[1], k.bytes[2], k.bytes[3];
    var b4: nat, b5: nat, b6: nat, b7: nat := k.bytes[4], k.bytes[5], k.bytes[6], k.bytes[7];
    0x100_0000_0000_0000 * b0 + 0x1_0000_0000_0000 * b1 + 0x100_0000_0000 * b2 + 0x1_0000_0000 * b3
    + 0x100_0000 * b4 + 0x1_0000 * b5 + 0x100 * b6 + b7
  }

  /** y is the window of lgn bits of w at shift j, in range, and the windows before are not. */
  ghost predicate WindowFound(y: nat, w: nat, lgn: nat, range: nat, j: nat) {
    && j + lgn <= 31
    && y == w / Pow2(j) % Pow2(lgn) < range
    && forall i: nat {:trigger Pow2(i)} | i < j :: w / Pow2(i) % Pow2(lgn) >= range
  }

  /** The lowest bits of the eighth byte come first, then those of the bytes before it. */
  ghost predicate BitsOfBytes(y: nat, k: Key, lgn: nat)
    requires lgn <= 64
  {
    forall b: nat {:trigger BitAt(y, b)} | b < lgn :: BitAt(y, b) <==> BitAt(k.bytes[7 - b / 8], b % 8)
  }

  /** y is the output of the leaf that the lowest `bits` bits of x lead to. */
  ghost predicate Evaluates(prg: Prg, node: Key, x: nat, bits: nat, lgn: nat, range: nat, y: nat)
    requires lgn <= 30
  {
    exists ls, j :: Labels(prg, node, x, bits, ls) && WindowFound(y, FirstEight(ls[bits]), lgn, range, j)
      && (Pow2(lgn) <= range ==> y < Pow2(lgn) && BitsOfBytes(y, ls[bits], lgn))
  }

  // ---- Puncturing

  /** y is what the key that was kept for the first bit in which x leaves the hole leads to. */
  ghost predicate EvaluatesKept(prg: Prg, pk: PuncKeys, x: nat, lgn: nat, range: nat, y: nat)
    requires |pk.keys| == lgn <= 30
  {
    exists l :: PartsAt(x, pk.bitvec, lgn, l) && Evaluates(prg, pk.keys[l - 1], x, lgn - l, lgn, range, y)
  }

  /** Key i is the child of label i that the path to p does not take. */
  predicate KeptAt(prg: Prg, p: nat, lgn: nat, ls: seq<Key>, keys: seq<Key>, i: nat) {
    && i < |ls| && i < |keys| && i < lgn
    && keys[i] == if BitAt(p, lgn - 1 - i) then prg(ls[i]).0 else prg(ls[i]).1
  }

  /** The punctured key holds the point, cut to the last leaf, and one key per level. */
  ghost predicate Punctures(prg: Prg, key: Key, x: nat, lgn: nat, pk: PuncKeys) {
    var p := if x < Pow2(lgn) then x else Pow2(lgn) - 1;
    && pk.height == lgn && pk.bitvec == p && |pk.keys| == lgn
    && exists ls :: Labels(prg, key, p, lgn, ls) &&
         forall i: nat {:trigger KeptAt(prg, p, lgn, ls, pk.keys, i)} | i < lgn :: KeptAt(prg, p, lgn, ls, pk.keys, i)
  }

  /** The l-th bit from the top, of lgn bits, is the first in which x and p differ. */
  ghost predicate PartsAt(x: nat, p: nat, lgn: nat, l: nat) {
    && 1 <= l <= lgn && BitAt(x, lgn - l) != BitAt(p, lgn - l)
    && forall i: nat {:trigger BitAt(x, i)} | lgn - l < i < lgn :: BitAt(x, i) == BitAt(p, i)
  }
}
