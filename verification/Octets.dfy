/** Bytes, options, and the few facts about sequences that every other module uses. */
module Octets {

  type Byte = b: int | 0 <= b < 256

  datatype Option<+T> = None | Some(value: T)

  const TWO_TO_THE_64: int := 0x1_0000_0000_0000_0000

  /** The largest length of a Python object (PY_SSIZE_T_MAX on a 64-bit build). */
  const SSIZE_MAX: int := 0x7FFF_FFFF_FFFF_FFFF

  lemma AppendSplits<T>(a: seq<T>, b: seq<T>)
    ensures (a + b)[..|a|] == a && (a + b)[|a|..] == b
  {
  }

  lemma AppendAssociates<T>(a: seq<T>, b: seq<T>, c: seq<T>)
    ensures (a + b) + c == a + (b + c)
  {
  }
}
