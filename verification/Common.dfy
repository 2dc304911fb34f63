/** What several components share: optional values, C strings' terminator, and the machine's word size. */
module Common {

  datatype Option<T> = None | Some(value: T)

  const NUL := '\0'
  const LIMIT32 := 0x1_0000_0000
  const KERNBASE := 0x8000_0000      // first kernel virtual address

  function Min(a: nat, b: nat): (m: nat) { if a < b then a else b }

  function Max(a: nat, b: nat): (m: nat) { if a < b then b else a }
}
