/** Bytes, powers of two, bit fields and big-endian 16-bit words, as Python's
    `>>`, `&` and `struct` ">H"/">h" formats compute them on unbounded integers. */
module Bytes {

  type byte = x: int | 0 <= x < 0x100

  function Pow2(n: nat): (r: nat)
    ensures r >= 1
  {
    if n == 0 then 1 else 2 * Pow2(n - 1)
  }

  /** Python's `x >> k` on an unbounded integer: `k` halvings, each a floor
      division by 2 (so a negative `x` stays negative). */
  function ShiftRight(x: int, k: nat): int
    decreases k, x
  {
    if k == 0 then x else ShiftRight(x / 2, k - 1)
  }

  /** Python's `x & (2**width - 1)`: the low `width` bits of `x`, as a non-negative
      number, taken one bit at a time. */
  function LowBits(x: int, width: nat): (r: int)
    ensures 0 <= r < Pow2(width)
    decreases width, x
  {
    if width == 0 then 0 else x % 2 + 2 * LowBits(x / 2, width - 1)
  }

  /** Python's `(x >> shift) & (2**width - 1)`. */
  function Bits(x: int, shift: nat, width: nat): (r: int)
    ensures 0 <= r < Pow2(width)
  {
    LowBits(ShiftRight(x, shift), width)
  }

  lemma {:induction false} Pow2Add(a: nat, b: nat)
    ensures Pow2(a + b) == Pow2(a) * Pow2(b)
  {
    if a > 0 {
      Pow2Add(a - 1, b);
    }
  }

  /** Shifting `2**n` right by `k <= n` leaves `2**(n - k)`. */
  lemma {:induction false} ShiftPow2(n: nat, k: nat)
    requires k <= n
    ensures ShiftRight(Pow2(n), k) == Pow2(n - k)
    decreases k
  {
    if k > 0 {
      assert Pow2(n) / 2 == Pow2(n - 1);
      ShiftPow2(n - 1, k - 1);
    }
  }

  /** The low `w` bits of `2**m` are all clear when `w <= m`. */
  lemma {:induction false} LowBitsOfPow2(m: nat, w: nat)
    requires w <= m
    ensures LowBits(Pow2(m), w) == 0
    decreases w
  {
    if w > 0 {
      assert Pow2(m) % 2 == 0 && Pow2(m) / 2 == Pow2(m - 1);
      LowBitsOfPow2(m - 1, w - 1);
    }
  }

  /** Every field of 0 is 0. */
  lemma {:induction false} BitsOfZero(shift: nat, width: nat)
    ensures Bits(0, shift, width) == 0
  {
    ShiftZero(shift);
    LowBitsOfZero(width);
  }

  lemma {:induction false} ShiftZero(k: nat)
    ensures ShiftRight(0, k) == 0
    decreases k
  {
    if k > 0 {
      ShiftZero(k - 1);
    }
  }

  lemma {:induction false} LowBitsOfZero(w: nat)
    ensures LowBits(0, w) == 0
    decreases w
  {
    if w > 0 {
      LowBitsOfZero(w - 1);
    }
  }

  /** No field of a 16-bit word sees the bit just above it: `(0x10000 >> shift) & mask`
      is 0 whenever the field ends at or below bit 16. */
  lemma BitsOfWordSize(shift: nat, width: nat)
    requires shift + width <= 16
    ensures Bits(0x10000, shift, width) == 0
  {
    Pow2Values();
    ShiftPow2(16, shift);
    LowBitsOfPow2(16 - shift, width);
  }

  /** Shifting by `a` and then by `b` is shifting by `a + b`. */
  lemma {:induction false} ShiftRightAdd(x: int, a: nat, b: nat)
    ensures ShiftRight(x, a + b) == ShiftRight(ShiftRight(x, a), b)
    decreases a
  {
    if a > 0 {
      ShiftRightAdd(x / 2, a - 1, b);
    }
  }

  /** `x >> 4 == x // 16`. */
  lemma ShiftRightNibble(x: int)
    ensures ShiftRight(x, 4) == x / 16
  {
    var a, b, c := x / 2, x / 2 / 2, x / 2 / 2 / 2;
    assert ShiftRight(x, 4) == ShiftRight(a, 3);
    assert ShiftRight(a, 3) == ShiftRight(b, 2);
    assert ShiftRight(b, 2) == ShiftRight(c, 1);
    assert ShiftRight(c, 1) == c / 2;
  }

  /** `x & 0xF == x % 16`. */
  lemma LowBitsNibble(x: int)
    ensures LowBits(x, 4) == x % 16
  {
    var a, b, c := x / 2, x / 2 / 2, x / 2 / 2 / 2;
    assert LowBits(x, 4) == x % 2 + 2 * LowBits(a, 3);
    assert LowBits(a, 3) == a % 2 + 2 * LowBits(b, 2);
    assert LowBits(b, 2) == b % 2 + 2 * LowBits(c, 1);
    assert LowBits(c, 1) == c % 2;
  }

  /** The four nibbles of 0xABCD, high to low. */
  lemma NibblesOfABCD()
    ensures Bits(0xABCD, 12, 4) == 10 && Bits(0xABCD, 8, 4) == 11 && Bits(0xABCD, 4, 4) == 12 && Bits(0xABCD, 0, 4) == 13
  {
    ShiftRightNibble(0xABCD);
    ShiftRightNibble(0xABC);
    ShiftRightNibble(0xAB);
    ShiftRightAdd(0xABCD, 4, 4);
    ShiftRightAdd(0xABCD, 8, 4);
    LowBitsNibble(0xABCD);
    LowBitsNibble(0xABC);
    LowBitsNibble(0xAB);
    LowBitsNibble(0xA);
  }

  lemma Pow2Values()
    ensures Pow2(4) == 0x10 && Pow2(8) == 0x100 && Pow2(12) == 0x1000 && Pow2(16) == 0x10000
  {
    assert Pow2(4) == 16;
    Pow2Add(4, 4);
    Pow2Add(8, 4);
    Pow2Add(8, 8);
  }

  /** The big-endian unsigned 16-bit word at `offset` (struct format ">H"). */
  function U16At(buf: seq<byte>, offset: nat): (w: int)
    requires offset + 2 <= |buf|
    ensures 0 <= w < 0x10000
  {
    (buf[offset] as int) * 0x100 + buf[offset + 1]
  }

  /** The big-endian signed 16-bit word at `offset` (struct format ">h"). */
  function I16At(buf: seq<byte>, offset: nat): (w: int)
    requires offset + 2 <= |buf|
    ensures -0x8000 <= w < 0x8000
    ensures w % 0x10000 == U16At(buf, offset)
  {
    var u := U16At(buf, offset);
    if u < 0x8000 then u else u - 0x10000
  }

  /** The two bytes of a word in 0..0xFFFF, high byte first. */
  function WordBytes(w: int): (r: seq<byte>)
    requires 0 <= w < 0x10000
    ensures |r| == 2 && U16At(r, 0) == w
  {
    [w / 0x100, w % 0x100]
  }

  /** `buf` with `bytes` written over it from `offset` on; its length is unchanged. */
  function Put(buf: seq<byte>, offset: nat, bytes: seq<byte>): (r: seq<byte>)
    requires offset + |bytes| <= |buf|
    ensures |r| == |buf|
    ensures r[offset..offset + |bytes|] == bytes
    ensures forall i :: 0 <= i < |buf| && !(offset <= i < offset + |bytes|) ==> r[i] == buf[i]
  {
    buf[..offset] + bytes + buf[offset + |bytes|..]
  }

  /** Python's slice `s[i:j]` for 0 <= i <= j: bounds past the end are clamped. */
  function Slice<T>(s: seq<T>, i: nat, j: nat): (r: seq<T>)
    requires i <= j
    ensures |r| == (if j <= |s| then j - i else if i <= |s| then |s| - i else 0)
    ensures forall k :: 0 <= k < |r| ==> r[k] == s[i + k]
  {
    if j <= |s| then s[i..j] else if i <= |s| then s[i..] else []
  }
}
