/** Keys and the foreign primitives of the incremental scheme. AES is left as
    an arbitrary function: every theorem holds for each choice of it. */
module Keys {
  import opened Bits

  const KEY_LEN: nat := 16

  /** A 128-bit key as its sixteen bytes. */
  type Key = k: seq<Byte> | |k| == KEY_LEN witness seq(KEY_LEN, _ => 0)

  /** `aes(key, block)` is the two-byte output word that the round function
      reads from AES-CBC; `kdf(mk, sk, batch)` derives the key of a later slot. */
  datatype Prims = Prims(aes: (Key, nat) -> nat, kdf: (Key, Key, nat) -> Key)
}
