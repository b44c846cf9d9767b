/** The three rotating checksums of exFAT: entry sets, the up-case table and the boot region. */
module Checksum {
  import opened Bytes

  /** One step of the 16-bit sum: rotate right by one bit, then add a byte modulo 2^16. */
  function Step16(c: int, b: byte): (r: int)
    requires 0 <= c < U16_LIMIT
    ensures 0 <= r < U16_LIMIT
  {
    (c / 2 + c % 2 * 0x8000 + b) % U16_LIMIT
  }

  /** One step of the 32-bit sum. */
  function Step32(c: int, b: byte): (r: int)
    requires 0 <= c < U32_LIMIT
    ensures 0 <= r < U32_LIMIT
  {
    (c % 2 * 0x8000_0000 + c / 2 + b) % U32_LIMIT
  }

  /** r is c rotated right by one bit, in so many bits. */
  predicate Rotated(c: nat, r: nat, bits: nat) {
    bits > 0 && r < Two(bits) && forall j: nat | j < bits :: Bit(r, j) <==> Bit(c, (j + 1) % bits)
  }

  lemma {:induction false} TopBit(x: nat, top: bool, n: nat, j: nat)
    requires x < Two(n) && j <= n
    ensures Bit(x + (if top then Two(n) else 0), j) <==> if j == n then top else Bit(x, j)
    ensures x + (if top then Two(n) else 0) < Two(n + 1)
  {
    var y := x + (if top then Two(n) else 0);
    if n == 0 {
      assert x == 0;
    } else {
      var half := Two(n - 1);
      assert Two(n) == 2 * half && Two(n + 1) == 2 * Two(n);
      Halves(x, y, if top then half else 0);
      if j > 0 {
        TopBit(x / 2, top, n - 1, j - 1);
      }
    }
  }

  lemma Halves(x: nat, y: nat, half: nat)
    requires y == x + 2 * half
    ensures y / 2 == x / 2 + half && y % 2 == x % 2
  {
  }

  /** Halving, with the lowest bit put on top, is that rotation. */
  lemma HalvingRotates(c: nat, n: nat)
    requires c < Two(n + 1)
    ensures Rotated(c, c / 2 + (if c % 2 == 1 then Two(n) else 0), n + 1)
  {
    var r := c / 2 + (if c % 2 == 1 then Two(n) else 0);
    assert Two(n + 1) == 2 * Two(n);
    TopBit(c / 2, c % 2 == 1, n, n);
    forall j: nat | j < n + 1 ensures Bit(r, j) <==> Bit(c, (j + 1) % (n + 1)) {
      TopBit(c / 2, c % 2 == 1, n, j);
      NextBit(c, n, j);
    }
  }

  lemma NextBit(c: nat, n: nat, j: nat)
    requires j <= n
    ensures Bit(c, (j + 1) % (n + 1)) <==> if j < n then Bit(c / 2, j) else c % 2 == 1
  {
    Wrapped(n, j);
  }

  lemma Wrapped(n: nat, j: nat)
    requires j <= n
    ensures (j + 1) % (n + 1) == if j < n then j + 1 else 0
  {
  }

  /** One step rotates the sum right by one bit and adds the byte, in 16 bits or in 32. */
  lemma StepsRotate(b: byte)
    ensures forall c, r: nat | 0 <= c < U16_LIMIT && Rotated(c, r, 16) :: Step16(c, b) == (r + b) % U16_LIMIT
    ensures forall c, r: nat | 0 <= c < U32_LIMIT && Rotated(c, r, 32) :: Step32(c, b) == (r + b) % U32_LIMIT
  {
    hide Rotated;
    Widths();
    forall c, r: nat | 0 <= c < U16_LIMIT && Rotated(c, r, 16) ensures Step16(c, b) == (r + b) % U16_LIMIT {
      HalvingRotates(c, 15);
      OneRotation(c, r, c / 2 + (if c % 2 == 1 then Two(15) else 0), 16);
    }
    forall c, r: nat | 0 <= c < U32_LIMIT && Rotated(c, r, 32) ensures Step32(c, b) == (r + b) % U32_LIMIT {
      HalvingRotates(c, 31);
      OneRotation(c, r, c / 2 + (if c % 2 == 1 then Two(31) else 0), 32);
    }
  }

  lemma Widths()
    ensures Two(15) == 0x8000 && Two(16) == U16_LIMIT && Two(31) == 0x8000_0000 && Two(32) == U32_LIMIT
  {
    assert Two(8) == 256;
    assert Two(16) == 0x1_0000 by { assert Two(12) == 0x1000; }
    assert Two(24) == 0x100_0000 by { assert Two(20) == 0x10_0000; }
    assert Two(28) == 0x1000_0000;
  }

  lemma OneRotation(c: nat, r: nat, q: nat, bits: nat)
    requires Rotated(c, r, bits) && Rotated(c, q, bits)
    ensures r == q
  {
    BitsDetermine(r, q, bits);
  }

  /** The entry-set sum over the first n bytes: bytes 2 and 3 hold the sum itself and are skipped. */
  function EntrySum(d: seq<byte>, n: nat): (r: int)
    requires n <= |d|
    ensures 0 <= r < U16_LIMIT
  {
    if n == 0 then 0
    else if n == 3 || n == 4 then EntrySum(d, n - 1)
    else Step16(EntrySum(d, n - 1), d[n - 1])
  }

  function TableSum(d: seq<byte>, n: nat): (r: int)
    requires n <= |d|
    ensures 0 <= r < U32_LIMIT
  {
    if n == 0 then 0 else Step32(TableSum(d, n - 1), d[n - 1])
  }

  /** Bytes of a boot sector that the boot sum skips: the volume flags and the percent-in-use. */
  predicate BootExcluded(i: int) {
    i == 106 || i == 107 || i == 112
  }

  function BootSum(d: seq<byte>, n: nat): (r: int)
    requires n <= |d|
    ensures 0 <= r < U32_LIMIT
  {
    if n == 0 then 0
    else if BootExcluded(n - 1) then BootSum(d, n - 1)
    else Step32(BootSum(d, n - 1), d[n - 1])
  }

  method EntryChecksum(d: seq<byte>) returns (c: int)
    ensures c == EntrySum(d, |d|)
  {
    c := 0;
    for i := 0 to |d|
      invariant c == EntrySum(d, i)
    {
      if i != 2 && i != 3 {
        c := (c / 2 + c % 2 * 0x8000) % U16_LIMIT;
        c := (c + d[i]) % U16_LIMIT;
      }
    }
  }

  method TableChecksum(d: seq<byte>) returns (c: int)
    ensures c == TableSum(d, |d|)
  {
    c := 0;
    for i := 0 to |d|
      invariant c == TableSum(d, i)
    {
      c := Step32(c, d[i]);
    }
  }

  method BootChecksum(region: seq<byte>) returns (c: int)
    ensures c == BootSum(region, |region|)
  {
    c := 0;
    for i := 0 to |region|
      invariant c == BootSum(region, i)
    {
      if i != 106 && i != 107 && i != 112 {
        c := Step32(c, region[i]);
      }
    }
  }

  /** The entry-set sum does not see the two bytes that store it. */
  lemma {:induction false} EntrySumIgnoresItself(d: seq<byte>, e: seq<byte>, n: nat)
    requires n <= |d| == |e|
    requires forall k | 0 <= k < n && k != 2 && k != 3 :: d[k] == e[k]
    ensures EntrySum(d, n) == EntrySum(e, n)
  {
    if n > 0 {
      EntrySumIgnoresItself(d, e, n - 1);
    }
  }

  /** The boot sum does not see the volume flags or the percent-in-use byte. */
  lemma {:induction false} BootSumIgnoresFlags(d: seq<byte>, e: seq<byte>, n: nat)
    requires n <= |d| == |e|
    requires forall k | 0 <= k < n && !BootExcluded(k) :: d[k] == e[k]
    ensures BootSum(d, n) == BootSum(e, n)
  {
    if n > 0 {
      BootSumIgnoresFlags(d, e, n - 1);
    }
  }
}
