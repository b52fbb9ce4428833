/** What several modules share.

    An optional value, a byte and a string of bytes, and the one law about sequences that
    the verifier does not see for itself: concatenation may be regrouped. The modules that
    read protocols and files (`NdjsonStream`, `SemanticBin`, `Leb128`) work on bytes; the
    others take only `Option`, for a Python `None`, a JSON `null` or a value that may be
    missing. */
module Basics {

  datatype Option<+T> = None | Some(value: T)

  type byte = b: int | 0 <= b < 256

  type Bytes = seq<byte>

  lemma Associate<T>(a: seq<T>, b: seq<T>, c: seq<T>)
    ensures a + (b + c) == (a + b) + c
  {
  }
}
