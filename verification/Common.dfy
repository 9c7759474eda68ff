/** Values every part of the model uses: optional and failing results, machine integers. */
module Common {

  datatype Option<+T> = None | Some(value: T)

  datatype Result<+T, +E> = Ok(value: T) | Err(error: E)

  const U64_LIMIT := 0x1_0000_0000_0000_0000

  type U32 = n: int | 0 <= n < 0x1_0000_0000
  type U64 = n: int | 0 <= n < U64_LIMIT

  function SaturatingSub(a: nat, b: nat): (r: nat)
    ensures r <= a
  {
    if a >= b then a - b else 0
  }

  lemma AppendAssoc<T>(a: seq<T>, b: seq<T>, c: seq<T>)
    ensures a + b + c == a + (b + c)
  {
  }
}
