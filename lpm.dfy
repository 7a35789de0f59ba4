/** The interface of the longest-prefix-match library the list store calls
    (lpm.h). The library itself is not part of this model: its operations are
    fields of `Lpm<T>`, where `T` stands for an opaque trie handle, so every
    property proved below holds for whatever the library does. */
module Lpm {
  import opened Base

  newtype byte = x: int | 0 <= x < 256

  /** What lpm_strtobin writes back: the address buffer, its effective length
      in bytes, and the prefix length in bits. */
  datatype PrefixKey = PrefixKey(addr: seq<byte>, len: nat, preflen: nat)

  datatype Lpm<!T> = Lpm(
    /** lpm_create: a fresh, empty trie. */
    create: T,
    /** lpm_strtobin: the address codec; None where it returns non-zero. */
    strtobin: string -> Option<PrefixKey>,
    /** lpm_insert: the trie afterwards and whether the call returned 0. */
    insert: (T, PrefixKey, string) -> (T, bool),
    /** lpm_lookup: the tag stored for the best match of (addr, len), if any. */
    lookup: (T, seq<byte>, nat) -> Option<string>
  )
}
