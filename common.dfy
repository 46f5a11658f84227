/** Shared vocabulary: optional values, results, byte blobs and sequence helpers. */
module Common {

  /** A value that may be absent (Go's nil pointer or the "ok" flag of a lookup). */
  datatype Option<+T> = None | Some(value: T)

  /** The outcome of an operation that returns either a value or a Go `error`. */
  datatype Result<+T, +E> = Ok(value: T) | Err(error: E)

  /** A byte (Go's `byte`). */
  newtype byte = b: int | 0 <= b < 256

  /** A byte blob (Go's `[]byte`). */
  type Bytes = seq<byte>

  /** No element occurs twice. */
  predicate NoDuplicates<T(==)>(s: seq<T>) {
    forall i, j :: 0 <= i < j < |s| ==> s[i] != s[j]
  }

  /** The elements of a sequence, as a set. */
  function Elements<T>(s: seq<T>): set<T> {
    set x | x in s
  }
}
