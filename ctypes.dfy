/** Machine-level value types shared by every part of the kernel model:
    the fixed-width unsigned integers of the i386 C ABI, the two's
    complement reading of a 32-bit word, powers of two, and Option. */
module CTypes {

  type u8 = x: int | 0 <= x < 0x100
  type u16 = x: int | 0 <= x < 0x1_0000
  type u32 = x: int | 0 <= x < 0x1_0000_0000
  type i32 = x: int | -0x8000_0000 <= x < 0x8000_0000

  const U32_MODULUS: int := 0x1_0000_0000

  datatype Option<T> = None | Some(value: T)

  /** The result of C's unsigned 32-bit arithmetic on the mathematical value x. */
  function Wrap32(x: int): (r: u32)
    ensures (x - r) % U32_MODULUS == 0
    ensures 0 <= x < U32_MODULUS ==> r == x
  {
    x % U32_MODULUS
  }

  /** `(int)w` for a uint32_t w on a two's-complement target. */
  function AsSigned32(w: u32): (r: i32)
    ensures Wrap32(r) == w
    ensures (r < 0) <==> (w >= 0x8000_0000)
  {
    if w < 0x8000_0000 then w else w - U32_MODULUS
  }

  /** Converting a signed value to its 32-bit pattern and back is the identity. */
  lemma SignedWrapRoundTrip(v: i32)
    ensures AsSigned32(Wrap32(v)) == v
  {
  }

  /** `1 << k`. */
  function Pow2(k: nat): (r: nat)
    ensures r >= 1
  {
    if k == 0 then 1 else 2 * Pow2(k - 1)
  }

  lemma Pow2Values()
    ensures Pow2(0) == 1 && Pow2(1) == 2 && Pow2(2) == 4 && Pow2(3) == 8 && Pow2(4) == 16
    ensures Pow2(5) == 32 && Pow2(6) == 64 && Pow2(7) == 128 && Pow2(8) == 256
    ensures Pow2(9) == 512 && Pow2(10) == 1024
  {
    assert Pow2(2) == 4;
    assert Pow2(4) == 16;
    assert Pow2(6) == 64;
    assert Pow2(8) == 256;
  }

  /** The byte whose code is that of an ASCII character; used to write C string literals. */
  function Ascii(s: string): (r: seq<u8>)
    ensures |r| == |s|
    ensures forall k :: 0 <= k < |s| && s[k] as int < 0x100 ==> r[k] == s[k] as int
  {
    seq(|s|, k requires 0 <= k < |s| => (s[k] as int) % 0x100)
  }

  /** A C string literal: its ASCII bytes followed by the terminating NUL. */
  function CLiteral(s: string): (r: seq<u8>)
    ensures |r| == |s| + 1 && r[|s|] == 0
  {
    Ascii(s) + [0]
  }
}
