/** Bytes and powers of two. */
module Numbers {
  type Byte = n: nat | n < 256

  function Pow2(n: nat): nat { if n == 0 then 1 else 2 * Pow2(n - 1) }
}
