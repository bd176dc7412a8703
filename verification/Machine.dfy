/** Machine integers of the boundary: bytes, the allocator's size limit, and C's `int`. */
module Machine {
  type byte = b: int | 0 <= b < 256

  // The largest size `Layout::array::<u8>` accepts, and the largest Go slice length.
  const ISIZE_MAX: int := 0x7FFF_FFFF_FFFF_FFFF

  const INT_MODULUS: int := 0x1_0000_0000
  const INT_LIMIT: int := 0x8000_0000

  /** The conversion `C.int(n)` of a `size_t`: the low 32 bits, read as a signed number. */
  function CInt(n: nat): (i: int)
    ensures -INT_LIMIT <= i < INT_LIMIT
    ensures i <= n
  {
    var low := n % INT_MODULUS;
    if low < INT_LIMIT then low else low - INT_MODULUS
  }

  /** The length Go passes to its copying reads is exact precisely below two gigabytes, and
      it differs from the true length by whole multiples of four gigabytes above that. */
  lemma CIntExact(n: nat)
    ensures CInt(n) == n <==> n < INT_LIMIT
    ensures (n - CInt(n)) % INT_MODULUS == 0
    ensures INT_LIMIT <= n < INT_MODULUS ==> CInt(n) < 0
  {
    var q := n / INT_MODULUS;
    assert n == q * INT_MODULUS + n % INT_MODULUS;
    if n % INT_MODULUS < INT_LIMIT {
      assert n - CInt(n) == q * INT_MODULUS;
    } else {
      assert n - CInt(n) == (q + 1) * INT_MODULUS;
    }
  }
}
