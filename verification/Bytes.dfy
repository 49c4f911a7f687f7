/** Bytes and 16-bit words as integers, and exclusive or on bytes. */
module Bytes {

  type byte = x: int | 0 <= x < 256
  type u16 = x: int | 0 <= x < 65536

  function Pow2(n: nat): nat {
    if n == 0 then 1 else 2 * Pow2(n - 1)
  }

  /** Exclusive or, bit by bit. */
  function XorBits(a: nat, b: nat): nat {
    if a == 0 && b == 0 then 0
    else 2 * XorBits(a / 2, b / 2) + (if a % 2 == b % 2 then 0 else 1)
  }

  lemma {:induction false} XorBound(a: nat, b: nat, n: nat)
    requires a < Pow2(n) && b < Pow2(n)
    ensures XorBits(a, b) < Pow2(n)
  {
    if n > 0 {
      XorBound(a / 2, b / 2, n - 1);
    }
  }

  lemma Pow2Of4()
    ensures Pow2(4) == 16
  {}

  lemma Pow2Of8()
    ensures Pow2(8) == 256
  {
    Pow2Of4();
  }

  function Xor(a: byte, b: byte): byte {
    Pow2Of8();
    XorBound(a, b, 8);
    XorBits(a, b)
  }

  lemma {:induction false} XorBitsCommutes(a: nat, b: nat)
    ensures XorBits(a, b) == XorBits(b, a)
  {
    if a != 0 || b != 0 {
      XorBitsCommutes(a / 2, b / 2);
    }
  }

  lemma {:induction false} XorBitsAssociates(a: nat, b: nat, c: nat)
    ensures XorBits(XorBits(a, b), c) == XorBits(a, XorBits(b, c))
    decreases a + b + c
  {
    if a != 0 || b != 0 || c != 0 {
      XorBitsAssociates(a / 2, b / 2, c / 2);
      XorBitsHalf(a, b);
      XorBitsHalf(b, c);
      XorBitsHalf(XorBits(a, b), c);
      XorBitsHalf(a, XorBits(b, c));
    }
  }

  lemma XorBitsHalf(a: nat, b: nat)
    ensures XorBits(a, b) / 2 == XorBits(a / 2, b / 2)
    ensures XorBits(a, b) % 2 == if a % 2 == b % 2 then 0 else 1
  {}

  lemma {:induction false} XorBitsCancels(a: nat)
    ensures XorBits(a, a) == 0 && XorBits(a, 0) == a
  {
    if a != 0 {
      XorBitsCancels(a / 2);
    }
  }

  /** Setting a bit above all others. */
  lemma {:induction false} XorWithPow2(a: nat, n: nat)
    requires a < Pow2(n)
    ensures XorBits(a, Pow2(n)) == a + Pow2(n)
  {
    hide XorBits;
    if n == 0 {
      XorBitsCommutes(0, 1);
      XorBitsCancels(1);
    } else {
      var p := Pow2(n - 1);
      XorBitsHalf(a, 2 * p);
      assert 2 * p / 2 == p && 2 * p % 2 == 0;
      XorWithPow2(a / 2, n - 1);
    }
  }

  lemma XorLaws(a: byte, b: byte, c: byte)
    ensures Xor(a, b) == Xor(b, a)
    ensures Xor(Xor(a, b), c) == Xor(a, Xor(b, c))
    ensures Xor(a, a) == 0 && Xor(a, 0) == a
  {
    XorBitsCommutes(a, b);
    XorBitsAssociates(a, b, c);
    XorBitsCancels(a);
  }

  /** Exclusive or with a fixed byte is one-to-one. */
  lemma XorCancels(a: byte, b: byte, c: byte)
    ensures Xor(Xor(a, b), b) == a
    ensures Xor(a, c) == Xor(b, c) ==> a == b
  {
    XorLaws(a, b, b);
    XorLaws(b, b, b);
    XorLaws(a, c, c);
    XorLaws(b, c, c);
    XorLaws(c, c, c);
  }

  /** The two bytes of a 16-bit word. */
  function Msb(n: u16): byte {
    n / 256
  }

  function Lsb(n: u16): byte {
    n % 256
  }

  function Joined(msb: byte, lsb: byte): u16 {
    msb * 256 + lsb
  }

  // ---------- words of two and four bytes, most significant byte first ----------

  type u32 = x: int | 0 <= x < 0x1_0000_0000
  type u64 = x: int | 0 <= x < 0x1_0000_0000_0000_0000

  function Word16(n: u16): (w: seq<byte>)
    ensures |w| == 2
  {
    [Msb(n), Lsb(n)]
  }

  function Word32(n: u32): (w: seq<byte>)
    ensures |w| == 4
  {
    Word16(n / 65536) + Word16(n % 65536)
  }

  function ReadWord16(w: seq<byte>): u16
    requires |w| == 2
  {
    Joined(w[0], w[1])
  }

  function ReadWord32(w: seq<byte>): u32
    requires |w| == 4
  {
    ReadWord16(w[..2]) * 65536 + ReadWord16(w[2..])
  }

  /** The number that two bytes write, the first one weighing 256 times as much. */
  function Number(high: byte, low: byte): int {
    var h: int := high;
    256 * h + low
  }

  lemma WordIsNumber(n: u16, m: u32)
    ensures var w, v := Word16(n), Word32(m);
            Number(w[0], w[1]) == n && Number(v[0], v[1]) * 65536 + Number(v[2], v[3]) == m
  {}

  lemma WordsRoundTrip(n: u16, m: u32)
    ensures ReadWord16(Word16(n)) == n && ReadWord32(Word32(m)) == m
  {
    assert Word32(m)[..2] == Word16(m / 65536) && Word32(m)[2..] == Word16(m % 65536);
  }

  lemma Word16ReadBack(w: seq<byte>)
    requires |w| == 2
    ensures Word16(ReadWord16(w)) == w
  {}

  lemma Word32ReadBack(w: seq<byte>)
    requires |w| == 4
    ensures Word32(ReadWord32(w)) == w
  {
    hide Word16, ReadWord16;
    var high: int, low: int := ReadWord16(w[..2]), ReadWord16(w[2..]);
    Word16ReadBack(w[..2]);
    Word16ReadBack(w[2..]);
    assert (high * 65536 + low) / 65536 == high && (high * 65536 + low) % 65536 == low;
    assert w[..2] + w[2..] == w;
  }
}
