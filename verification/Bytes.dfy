/** Bytes, and the two fixed-width big-endian integers of the packet header and bodies. */
module Bytes {

  newtype byte = x: int | 0 <= x < 0x100

  /** The Go expression `b++` on a byte: 255 is followed by 0. */
  function Succ(b: byte): byte {
    if b == 255 then 0 else b + 1
  }

  /** Exclusive or, bit by bit from the lowest: a sum without carry. */
  function XorBits(a: nat, b: nat): nat
    decreases a + b
  {
    if a == 0 && b == 0 then 0 else 2 * XorBits(a / 2, b / 2) + (a + b) % 2
  }

  function Pow2(n: nat): nat {
    if n == 0 then 1 else 2 * Pow2(n - 1)
  }

  lemma XorStep(a: nat, b: nat)
    ensures XorBits(a, b) == 2 * XorBits(a / 2, b / 2) + (a + b) % 2
  {
  }

  lemma Halve(x: nat, bit: nat)
    requires bit < 2
    ensures (2 * x + bit) / 2 == x && (2 * x + bit) % 2 == bit
  {
  }

  lemma Parity(x: nat, a: nat, b: nat)
    ensures (2 * x + (a + b) % 2 + b) % 2 == a % 2
  {
  }

  lemma XorBack(x: nat, a: nat, b: nat)
    requires XorBits(x, b / 2) == a / 2
    ensures XorBits(2 * x + (a + b) % 2, b) == a
  {
    Halve(x, (a + b) % 2);
    Parity(x, a, b);
    XorStep(2 * x + (a + b) % 2, b);
  }

  lemma {:induction false} XorBitsInvolution(a: nat, b: nat)
    ensures XorBits(XorBits(a, b), b) == a
    decreases a + b
  {
    if a != 0 || b != 0 {
      XorBitsInvolution(a / 2, b / 2);
      XorBack(XorBits(a / 2, b / 2), a, b);
    }
  }

  lemma {:induction false} XorBitsRange(a: nat, b: nat, width: nat)
    requires a < Pow2(width) && b < Pow2(width)
    ensures XorBits(a, b) < Pow2(width)
  {
    if width != 0 {
      XorBitsRange(a / 2, b / 2, width - 1);
      XorStep(a, b);
    }
  }

  lemma ByteRange()
    ensures Pow2(8) == 0x100
  {
    assert Pow2(4) == 16;
  }

  function Xor(a: byte, b: byte): byte {
    ByteRange();
    XorBitsRange(a as nat, b as nat, 8);
    XorBits(a as nat, b as nat) as byte
  }

  lemma XorInvolution(a: byte, b: byte)
    ensures Xor(Xor(a, b), b) == a
  {
    XorBitsInvolution(a as nat, b as nat);
  }

  /** The lowest bit, the only flag of the reply and continue packets. */
  predicate Odd(b: byte) {
    if b < 2 then b == 1 else Odd(b - 2)
  }

  function XorSeq(s: seq<byte>, pad: seq<byte>): (r: seq<byte>)
    requires |s| <= |pad|
    ensures |r| == |s| && forall i | 0 <= i < |s| :: r[i] == Xor(s[i], pad[i])
  {
    if s == [] then [] else [Xor(s[0], pad[0])] + XorSeq(s[1..], pad[1..])
  }

  lemma XorSeqInvolution(s: seq<byte>, pad: seq<byte>)
    requires |s| <= |pad|
    ensures XorSeq(XorSeq(s, pad), pad) == s
  {
    forall i | 0 <= i < |s| ensures XorSeq(XorSeq(s, pad), pad)[i] == s[i] {
      XorInvolution(s[i], pad[i]);
    }
  }

  function Uint16(hi: byte, lo: byte): (n: nat)
    ensures n < 0x1_0000
  {
    hi as nat * 0x100 + lo as nat
  }

  lemma Uint16Injective(h1: byte, l1: byte, h2: byte, l2: byte)
    requires Uint16(h1, l1) == Uint16(h2, l2)
    ensures h1 == h2 && l1 == l2
  {
  }

  /** The high byte of a 16-bit length, as in `byte(i>>8)`: how often 256 can be taken away. */
  function Hi(n: nat): (hi: byte)
    requires n < 0x1_0000
    ensures hi as nat * 0x100 <= n < hi as nat * 0x100 + 0x100
  {
    if n < 0x100 then 0 else Hi(n - 0x100) + 1
  }

  /** Its low byte, as in `byte(i)`. */
  function Lo(n: nat): (lo: byte)
    requires n < 0x1_0000
    ensures Uint16(Hi(n), lo) == n
  {
    if n < 0x100 then n as byte else Lo(n - 0x100)
  }

  /** The upper half of a 32-bit length. */
  function HiWord(n: nat): (hi: nat)
    requires n < 0x1_0000_0000
    ensures hi * 0x1_0000 <= n < hi * 0x1_0000 + 0x1_0000
  {
    if n < 0x1_0000 then 0 else HiWord(n - 0x1_0000) + 1
  }

  /** `binary.BigEndian.PutUint32`. */
  function Uint32Bytes(n: nat): (r: seq<byte>)
    requires n < 0x1_0000_0000
    ensures |r| == 4
  {
    var high := HiWord(n);
    var low := n - high * 0x1_0000;
    [Hi(high), Lo(high), Hi(low), Lo(low)]
  }

  /** `binary.BigEndian.Uint32`. */
  function Uint32(s: seq<byte>): (n: nat)
    requires |s| == 4
    ensures n < 0x1_0000_0000
  {
    Uint16(s[0], s[1]) * 0x1_0000 + Uint16(s[2], s[3])
  }

  lemma Uint32RoundTrip(n: nat)
    requires n < 0x1_0000_0000
    ensures Uint32(Uint32Bytes(n)) == n
  {
    var high := HiWord(n);
    var low := n - high * 0x1_0000;
    var r := Uint32Bytes(n);
    assert Uint16(r[0], r[1]) == high;
    assert Uint16(r[2], r[3]) == low;
  }
}
