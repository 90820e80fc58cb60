/** Bytes, 16-byte blocks and 32-byte keys, and exclusive-or on them. */
module Bytes {
  type Byte = x: int | 0 <= x < 256

  const ZEROS: seq<Byte> := seq(16, _ => 0)

  type Block = s: seq<Byte> | |s| == 16 witness ZEROS

  type Key = s: seq<Byte> | |s| == 32 witness ZEROS + ZEROS

  function Pow2(n: nat): (r: nat)
    ensures r > 0
  {
    if n == 0 then 1 else 2 * Pow2(n - 1)
  }

  function XorBit(p: nat, q: nat): (r: nat)
    requires p < 2 && q < 2
    ensures r < 2
  {
    if p == q then 0 else 1
  }

  /** Exclusive-or of the low `n` bits, written on the binary digits. */
  function XorBits(a: nat, b: nat, n: nat): (r: nat)
    ensures r < Pow2(n)
  {
    if n == 0 then 0 else 2 * XorBits(a / 2, b / 2, n - 1) + XorBit(a % 2, b % 2)
  }

  lemma Digits(h: nat, l: nat)
    requires l < 2
    ensures (2 * h + l) / 2 == h && (2 * h + l) % 2 == l
  {
  }

  lemma {:induction false} XorBitsInvolution(a: nat, b: nat, n: nat)
    requires a < Pow2(n)
    ensures XorBits(XorBits(a, b, n), b, n) == a
  {
    if n > 0 {
      var a', p, b', q := a / 2, a % 2, b / 2, b % 2;
      var h, l := XorBits(a', b', n - 1), XorBit(p, q);
      XorBitsInvolution(a', b', n - 1);
      Digits(h, l);
      calc {
        XorBits(2 * h + l, b, n);
        2 * XorBits(h, b', n - 1) + XorBit(l, q);
        2 * a' + p;
      }
    }
  }

  lemma Pow2Eight()
    ensures Pow2(8) == 256
  {
    assert Pow2(4) == 16;
    assert Pow2(6) == 64;
  }

  function XorByte(a: Byte, b: Byte): Byte {
    Pow2Eight();
    XorBits(a, b, 8)
  }

  /** Digit `k` of the binary form of `a`. */
  function BitOf(a: nat, k: nat): nat {
    if k == 0 then a % 2 else BitOf(a / 2, k - 1)
  }

  /** Exclusive-or is addition without carry, digit by digit. */
  lemma {:induction false} XorBitsAt(a: nat, b: nat, n: nat, k: nat)
    requires k < n
    ensures BitOf(XorBits(a, b, n), k) == (BitOf(a, k) + BitOf(b, k)) % 2
  {
    Digits(XorBits(a / 2, b / 2, n - 1), XorBit(a % 2, b % 2));
    if k > 0 {
      XorBitsAt(a / 2, b / 2, n - 1, k - 1);
    }
  }

  lemma XorByteAt(a: Byte, b: Byte, k: nat)
    requires k < 8
    ensures BitOf(XorByte(a, b), k) == (BitOf(a, k) + BitOf(b, k)) % 2
  {
    XorBitsAt(a, b, 8, k);
  }

  function Xor(a: Block, b: Block): Block {
    seq(16, i requires 0 <= i < 16 => XorByte(a[i], b[i]))
  }

  /** Byte by byte and digit by digit. */
  lemma XorAt(a: Block, b: Block, i: nat, k: nat)
    requires i < 16 && k < 8
    ensures BitOf(Xor(a, b)[i], k) == (BitOf(a[i], k) + BitOf(b[i], k)) % 2
  {
    XorByteAt(a[i], b[i], k);
  }

  lemma XorInvolution(a: Block, b: Block)
    ensures Xor(Xor(a, b), b) == a
  {
    Pow2Eight();
    forall i | 0 <= i < 16 ensures Xor(Xor(a, b), b)[i] == a[i] {
      XorBitsInvolution(a[i], b[i], 8);
    }
  }
}
