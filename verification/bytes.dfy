/** Bytes, little-endian fields and bitmaps as the native exFAT code reads and writes them. */
module Bytes {

  type byte = x: int | 0 <= x < 256

  const U16_LIMIT := 0x1_0000
  const U32_LIMIT := 0x1_0000_0000

  function U16(d: seq<byte>, o: nat): (r: nat)
    requires o + 2 <= |d|
    ensures r < U16_LIMIT
  {
    (d[o] as int) + 256 * (d[o + 1] as int)
  }

  function U32(d: seq<byte>, o: nat): (r: nat)
    requires o + 4 <= |d|
    ensures r < U32_LIMIT
  {
    (d[o] as int) + 256 * (d[o + 1] as int) + 0x1_0000 * (d[o + 2] as int) + 0x100_0000 * (d[o + 3] as int)
  }

  function U64(d: seq<byte>, o: nat): (r: nat)
    requires o + 8 <= |d|
    ensures r < U32_LIMIT * U32_LIMIT
  {
    U32(d, o) + U32_LIMIT * U32(d, o + 4)
  }

  /** Writing a 16-bit field: the field reads back, every other byte is kept. */
  function PutU16(d: seq<byte>, o: nat, v: int): (r: seq<byte>)
    requires o + 2 <= |d| && 0 <= v < U16_LIMIT
    ensures |r| == |d| && U16(r, o) == v
    ensures forall k | 0 <= k < |d| && !(o <= k < o + 2) :: r[k] == d[k]
  {
    d[o := v % 256][o + 1 := v / 256]
  }

  /** Byte i of the little-endian form of v. */
  function LeByte(v: int, i: nat): byte
    requires v >= 0
  {
    if i == 0 then v % 256 else LeByte(v / 256, i - 1)
  }

  /** Writing a 32-bit field: the field reads back, every other byte is kept. */
  function PutU32(d: seq<byte>, o: nat, v: int): (r: seq<byte>)
    requires o + 4 <= |d| && 0 <= v < U32_LIMIT
    ensures |r| == |d| && U32(r, o) == v
    ensures forall k | 0 <= k < |d| && !(o <= k < o + 4) :: r[k] == d[k]
  {
    LeBytesSum(v);
    d[o := LeByte(v, 0)][o + 1 := LeByte(v, 1)][o + 2 := LeByte(v, 2)][o + 3 := LeByte(v, 3)]
  }

  /** The four bytes add up to the value. */
  lemma LeBytesSum(v: int)
    requires 0 <= v < U32_LIMIT
    ensures (LeByte(v, 0) as int) + 256 * (LeByte(v, 1) as int)
            + 0x1_0000 * (LeByte(v, 2) as int) + 0x100_0000 * (LeByte(v, 3) as int) == v
  {
    var q1 := v / 256;
    var q2 := q1 / 256;
    var q3 := q2 / 256;
    assert v == 256 * q1 + v % 256 && q1 == 256 * q2 + q1 % 256 && q2 == 256 * q3 + q2 % 256;
    assert q1 < 0x100_0000 && q2 < 0x1_0000 && q3 < 256;
    assert LeByte(v, 1) == q1 % 256 && LeByte(v, 2) == LeByte(q1, 1) == q2 % 256;
    assert LeByte(v, 3) == LeByte(q1, 2) == LeByte(q2, 1) == q3 % 256 == q3;
  }

  /** A byte and what is above it are determined by their sum. */
  lemma LowByteUnique(a: byte, x: int, b: byte, y: int)
    requires a + 256 * x == b + 256 * y
    ensures a == b && x == y
  {
  }

  lemma LeBytesUnique(a0: byte, a1: byte, a2: byte, a3: byte, b0: byte, b1: byte, b2: byte, b3: byte)
    requires (a0 as int) + 256 * (a1 as int) + 0x1_0000 * (a2 as int) + 0x100_0000 * (a3 as int)
          == (b0 as int) + 256 * (b1 as int) + 0x1_0000 * (b2 as int) + 0x100_0000 * (b3 as int)
    ensures a0 == b0 && a1 == b1 && a2 == b2 && a3 == b3
  {
    LowByteUnique(a0, a1 + 256 * a2 + 0x1_0000 * a3, b0, b1 + 256 * b2 + 0x1_0000 * b3);
    LowByteUnique(a1, a2 + 256 * a3, b1, b2 + 256 * b3);
    LowByteUnique(a2, a3, b2, b3);
  }

  /** A 32-bit field determines its four bytes. */
  lemma U32Injective(d: seq<byte>, o: nat, e: seq<byte>, p: nat)
    requires o + 4 <= |d| && p + 4 <= |e| && U32(d, o) == U32(e, p)
    ensures d[o] == e[p] && d[o + 1] == e[p + 1] && d[o + 2] == e[p + 2] && d[o + 3] == e[p + 3]
  {
    LeBytesUnique(d[o], d[o + 1], d[o + 2], d[o + 3], e[p], e[p + 1], e[p + 2], e[p + 3]);
  }

  // ---- bits: bit 0 is the least significant one -------------------------------------------------

  predicate Bit(b: nat, k: nat) {
    if k == 0 then b % 2 == 1 else Bit(b / 2, k - 1)
  }

  lemma {:induction false} ZeroBit(k: nat)
    ensures !Bit(0, k)
  {
    if k > 0 {
      ZeroBit(k - 1);
    }
  }

  function SetBit(b: nat, k: nat): nat {
    if k == 0 then b - b % 2 + 1 else 2 * SetBit(b / 2, k - 1) + b % 2
  }

  /** Setting a bit sets that bit and no other, and stays inside a byte. */
  lemma {:induction false} SetBitReads(b: nat, k: nat, j: nat)
    ensures Bit(SetBit(b, k), j) <==> j == k || Bit(b, j)
  {
    if k > 0 && j > 0 {
      SetBitReads(b / 2, k - 1, j - 1);
      Halves(SetBit(b / 2, k - 1), b % 2);
    } else if k == 0 && j > 0 {
      Halves(b / 2, 1);
    } else if k > 0 {
      Halves(SetBit(b / 2, k - 1), b % 2);
    }
  }

  lemma Halves(x: nat, bit: nat)
    requires bit < 2
    ensures (2 * x + bit) / 2 == x && (2 * x + bit) % 2 == bit
  {
  }

  lemma SetBitIsByte(b: nat, k: nat)
    requires k < 8 && b < 256
    ensures SetBit(b, k) < 256
  {
    assert Two(8) == 256;
    SetBitBound(b, k, 8);
  }

  lemma {:induction false} SetBitBound(b: nat, k: nat, bits: nat)
    requires k < bits && b < Two(bits)
    ensures SetBit(b, k) < Two(bits)
  {
    var t := Two(bits - 1);
    HalfBelow(b, t);
    if k > 0 {
      SetBitBound(b / 2, k - 1, bits - 1);
      assert SetBit(b, k) == 2 * SetBit(b / 2, k - 1) + b % 2;
    }
  }

  lemma HalfBelow(b: nat, t: nat)
    requires b < 2 * t
    ensures b / 2 < t && b - b % 2 + 1 < 2 * t
  {
  }

  function Two(n: nat): nat {
    if n == 0 then 1 else 2 * Two(n - 1)
  }

  lemma {:induction false} TwoPositive(k: nat)
    ensures Two(k) > 0
  {
    if k > 0 {
      TwoPositive(k - 1);
    }
  }

  /** Bitwise and of two unsigned numbers. */
  function And(a: nat, b: nat): (r: nat)
    ensures r <= a && r <= b
  {
    if a == 0 || b == 0 then 0 else 2 * And(a / 2, b / 2) + (a % 2) * (b % 2)
  }

  /** A number is its bits. */
  lemma {:induction false} BitsDetermine(a: nat, b: nat, n: nat)
    requires a < Two(n) && b < Two(n) && forall k: nat | k < n :: Bit(a, k) <==> Bit(b, k)
    ensures a == b
  {
    if n > 0 {
      assert Bit(a, 0) <==> Bit(b, 0);
      forall k: nat | k < n - 1 ensures Bit(a / 2, k) <==> Bit(b / 2, k) {
        assert Bit(a, k + 1) <==> Bit(b, k + 1);
      }
      BitsDetermine(a / 2, b / 2, n - 1);
    }
  }
}
