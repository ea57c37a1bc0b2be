/** Small value types shared by every module of the model. */
module Common {

  /** A C pointer that may be NULL, or a value that may be absent. */
  datatype Option<+T> = None | Some(value: T)

  /** The values of an `uint8_t`. */
  type byte = x: int | 0 <= x < 0x100

  /** The values of an `uint32_t`. */
  type u32 = x: int | 0 <= x < 0x1_0000_0000

  const U32Modulus: int := 0x1_0000_0000

  /** Appending is associative: a log grown call by call equals one grown by whole batches. */
  lemma AppendAssoc<T>(a: seq<T>, b: seq<T>, c: seq<T>)
    ensures (a + b) + c == a + (b + c)
  {
  }
}
