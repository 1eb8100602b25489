/** Unsigned 64-bit numbers, as the source computes with them. */
module Words {
  const MAX_UINT64: nat := 0xFFFF_FFFF_FFFF_FFFF

  type Uint64 = n: nat | n <= MAX_UINT64

  /** Unsigned 64-bit arithmetic wraps around. */
  function Wrap(n: int): Uint64 {
    n % (MAX_UINT64 + 1)
  }

  function Min(a: int, b: int): int {
    if b < a then b else a
  }

  function Max(a: int, b: int): int {
    if a < b then b else a
  }

  lemma WrapTwice(n: int, m: int)
    ensures Wrap(Wrap(n) + m) == Wrap(n + m)
  {
  }

  lemma Fits(n: nat)
    requires n <= MAX_UINT64
    ensures Wrap(n) == n
  {
  }
}
