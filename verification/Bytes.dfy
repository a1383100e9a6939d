/** Bytes, fixed-width big-endian integers, and the XOR that a keystream applies. */
module Bytes {

  type byte = b: int | 0 <= b < 256
  type bytes = seq<byte>
  type u16 = n: int | 0 <= n < 0x1_0000
  type u32 = n: int | 0 <= n < 0x1_0000_0000

  datatype Result<+T, +E> = Ok(value: T) | Err(error: E)

  datatype Option<+T> = None | Some(value: T)

  function Pow2(n: nat): (r: nat)
    ensures r > 0
  {
    if n == 0 then 1 else 2 * Pow2(n - 1)
  }

  /** Bitwise exclusive or of the low `width` bits. */
  function XorBits(a: nat, b: nat, width: nat): (r: nat)
    ensures r < Pow2(width)
  {
    if width == 0 then 0
    else (a % 2 + b % 2) % 2 + 2 * XorBits(a / 2, b / 2, width - 1)
  }

  lemma {:induction false} XorBitsCancels(a: nat, b: nat, width: nat)
    requires a < Pow2(width)
    ensures XorBits(XorBits(a, b, width), b, width) == a
  {
    if width > 0 {
      XorBitsCancels(a / 2, b / 2, width - 1);
      XorCancelsStep(a % 2, a / 2, b % 2, b / 2, width - 1);
    }
  }

  lemma XorStep(a0: nat, a: nat, b0: nat, b: nat, width: nat)
    requires a0 < 2 && b0 < 2
    ensures XorBits(a0 + 2 * a, b0 + 2 * b, width + 1) == (a0 + b0) % 2 + 2 * XorBits(a, b, width)
  {
    assert (a0 + 2 * a) / 2 == a && (b0 + 2 * b) / 2 == b;
  }

  lemma XorCancelsStep(a0: nat, a: nat, b0: nat, b: nat, width: nat)
    requires a0 < 2 && b0 < 2 && XorBits(XorBits(a, b, width), b, width) == a
    ensures XorBits(XorBits(a0 + 2 * a, b0 + 2 * b, width + 1), b0 + 2 * b, width + 1) == a0 + 2 * a
  {
    hide XorBits;
    XorStep(a0, a, b0, b, width);
    XorStep((a0 + b0) % 2, XorBits(a, b, width), b0, b, width);
  }

  /** Bit `k` of a number, the lowest being bit 0. */
  function Bit(n: nat, k: nat): nat {
    if k == 0 then n % 2 else Bit(n / 2, k - 1)
  }

  /** Every bit of the result is set exactly when one of the two is and the other is not. */
  lemma {:induction false} XorBit(a: nat, b: nat, width: nat, k: nat)
    requires k < width
    ensures Bit(XorBits(a, b, width), k) == 1 <==> Bit(a, k) != Bit(b, k)
  {
    var rest := XorBits(a / 2, b / 2, width - 1);
    assert XorBits(a, b, width) / 2 == rest;
    if k > 0 {
      XorBit(a / 2, b / 2, width - 1, k - 1);
    }
  }

  /** The second operand can be recovered from the result and the first. */
  lemma {:induction false} XorBitsRecovers(a: nat, b: nat, width: nat)
    requires b < Pow2(width)
    ensures XorBits(XorBits(a, b, width), a, width) == b
  {
    if width > 0 {
      XorBitsRecovers(a / 2, b / 2, width - 1);
      XorRecoversStep(a % 2, a / 2, b % 2, b / 2, width - 1);
    }
  }

  lemma XorRecoversStep(a0: nat, a: nat, b0: nat, b: nat, width: nat)
    requires a0 < 2 && b0 < 2 && XorBits(XorBits(a, b, width), a, width) == b
    ensures XorBits(XorBits(a0 + 2 * a, b0 + 2 * b, width + 1), a0 + 2 * a, width + 1) == b0 + 2 * b
  {
    hide XorBits;
    XorStep(a0, a, b0, b, width);
    XorStep((a0 + b0) % 2, XorBits(a, b, width), a0, a, width);
  }

  function Xor(a: byte, b: byte): byte {
    assert Pow2(8) == 256 by { assert Pow2(4) == 16; }
    XorBits(a, b, 8)
  }

  lemma XorCancels(a: byte, b: byte)
    ensures Xor(Xor(a, b), b) == a
  {
    assert Pow2(8) == 256 by { assert Pow2(4) == 16; }
    XorBitsCancels(a, b, 8);
  }

  lemma XorRecovers(a: byte, b: byte)
    ensures Xor(Xor(a, b), a) == b
  {
    assert Pow2(8) == 256 by { assert Pow2(4) == 16; }
    XorBitsRecovers(a, b, 8);
  }

  /** Exclusive or, bit by bit. */
  lemma XorIsBitwise(a: byte, b: byte, k: nat)
    requires k < 8
    ensures Bit(Xor(a, b), k) == 1 <==> Bit(a, k) != Bit(b, k)
  {
    XorBit(a, b, 8, k);
  }

  function Zeros(n: nat): (z: bytes)
    ensures |z| == n
  {
    seq(n, _ => 0)
  }

  /** Big-endian `>H`. */
  function PackU16(n: u16): (b: bytes)
    ensures |b| == 2
  {
    [n / 256, n % 256]
  }

  function UnpackU16(b: bytes): u16
    requires |b| == 2
  {
    var high: int := b[0];
    256 * high + b[1]
  }

  lemma U16RoundTrip(n: u16, b: bytes)
    requires |b| == 2
    ensures UnpackU16(PackU16(n)) == n
    ensures PackU16(UnpackU16(b)) == b
  {
  }

  /** `int.from_bytes(b, "big")`. */
  function Number(b: bytes): int {
    if b == [] then 0 else 0x100 * Number(b[..|b| - 1]) + b[|b| - 1]
  }

  lemma TwoBytes(b: bytes)
    requires |b| == 2
    ensures Number(b) == UnpackU16(b)
  {
    assert Number(b[..1]) == b[0] by { assert b[..1][..0] == []; }
  }

  /** The first byte weighs most: packed numbers compare as the numbers do. */
  lemma U16Order(m: u16, n: u16)
    ensures var a, b := PackU16(m), PackU16(n);
            m < n <==> a[0] < b[0] || (a[0] == b[0] && a[1] < b[1])
  {
  }
}
