/** What every part of the model shares: 64-bit words, optional values, the end of a sequence. */
module Basics {

  const U64: nat := 0x1_0000_0000_0000_0000

  datatype Option<+T> = None | Some(value: T)

  function WrappingSub(a: int, b: int): nat {
    (a - b) % U64
  }

  /** The difference of two 64-bit words, as the machine takes it. */
  lemma WrapsAround(a: nat, b: nat)
    requires a < 0x1_0000_0000_0000_0000 && b < 0x1_0000_0000_0000_0000
    ensures WrappingSub(a, b) == if a >= b then a - b else a - b + 0x1_0000_0000_0000_0000
  {
  }

  function Last<T>(s: seq<T>): T
    requires s != []
  {
    s[|s| - 1]
  }
}
