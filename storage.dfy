/** Shared vocabulary of the three consent registries: the account address that
    keys all per-user state, and the read of a contract mapping, which yields the
    zero value of its type for a key that was never written. */
module Storage {

  /** A 160-bit account address. */
  newtype Address = x: int | 0 <= x < 0x1_0000_0000_0000_0000_0000_0000_0000_0000_0000

  /** Reads entry `a` of a contract mapping; a key never written reads as `zero`. */
  function Lookup<V>(m: map<Address, V>, a: Address, zero: V): V
  {
    if a in m then m[a] else zero
  }
}
