/** Small vocabulary shared by every component of the model. */
module Common {

  datatype Option<+T> = None | Some(value: T)

  /** An unsigned 8-bit value, as it travels on a socket. */
  type byte = b: int | 0 <= b < 256

  /** A notify pipe holds this many bytes; a reader drains it in chunks. */
  const PIPE_CAPACITY: nat := 65536
  const DRAIN_CHUNK: nat := 64

  function Min(a: int, b: int): int {
    if a <= b then a else b
  }

  lemma {:induction false} Regroup<T>(a: seq<T>, b: seq<T>, c: seq<T>)
    ensures a + b + c == a + (b + c)
  {
  }
}
