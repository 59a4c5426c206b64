/** Bytes and their little-endian words, shared by the codecs. */
module Bytes {

  type byte = b: int | 0 <= b < 256

  datatype Option<+T> = None | Some(value: T)

  datatype Result<+T, +E> = Ok(value: T) | Err(error: E)

  const TWO_31 := 0x8000_0000
  const TWO_63 := 0x8000_0000_0000_0000

  predicate IsInt32(v: int) { -TWO_31 <= v < TWO_31 }

  predicate IsInt64(v: int) { -TWO_63 <= v < TWO_63 }

  lemma Assoc<T>(a: seq<T>, b: seq<T>, c: seq<T>)
    ensures (a + b) + c == a + (b + c)
  {
  }
}
