/** Types shared by the components. */
module Common {

  datatype Option<T> = None | Some(value: T)

  type Byte = b: int | 0 <= b < 256

  /** An instant or a duration, in nanoseconds. */
  type Time = int

  const SECOND: Time := 1_000_000_000

  function Min(a: int, b: int): int { if a <= b then a else b }

  /** The pieces of a stream, joined. */
  function Concat<T>(chunks: seq<seq<T>>): seq<T> {
    if chunks == [] then [] else Concat(chunks[..|chunks| - 1]) + chunks[|chunks| - 1]
  }
}
