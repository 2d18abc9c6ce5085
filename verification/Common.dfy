/** A few notions that several components need. */
module Common {
  type Byte = n: int | 0 <= n < 256

  type Bytes = seq<Byte>

  datatype Option<T> = None | Some(value: T)

  function Min(a: int, b: int): int { if a < b then a else b }

  function Max(a: int, b: int): int { if a < b then b else a }

  function Pow2(k: nat): (p: nat)
    ensures p > 0
  {
    if k == 0 then 1 else 2 * Pow2(k - 1)
  }

  lemma Distribute(a: int, b: int, c: int)
    ensures (a + b) * c == a * c + b * c && (a - b) * c == a * c - b * c && c * (a + b) == c * a + c * b
  {
  }
}
