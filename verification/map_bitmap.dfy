/** Counting bits of an allocation bitmap bytewise through masks, and aggregating it into map cells. */
module MapBitmap {
  import opened Wrappers
  import opened Bytes
  import opened MapUnits

  // ---- set bits of a number ---------------------------------------------------------------------

  function PopCount(n: nat): nat {
    if n == 0 then 0 else n % 2 + PopCount(n / 2)
  }

  /** Set bits among bits [lo, hi). */
  function BitsSet(n: nat, lo: nat, hi: nat): nat
    decreases hi
  {
    if hi <= lo then 0 else BitsSet(n, lo, hi - 1) + (if Bit(n, hi - 1) then 1 else 0)
  }

  lemma {:induction false} BitsHalve(n: nat, w: nat)
    ensures BitsSet(n, 0, w + 1) == n % 2 + BitsSet(n / 2, 0, w)
  {
    if w > 0 {
      BitsHalve(n, w - 1);
    }
  }

  lemma {:induction false} PopCountIsBits(n: nat, w: nat)
    requires n < Two(w)
    ensures PopCount(n) == BitsSet(n, 0, w)
  {
    if w > 0 {
      HalfBelow(n, Two(w - 1));
      PopCountIsBits(n / 2, w - 1);
      BitsHalve(n, w - 1);
    }
  }

  lemma {:induction false} AndBits(a: nat, b: nat, k: nat)
    ensures Bit(And(a, b), k) <==> Bit(a, k) && Bit(b, k)
  {
    if a == 0 || b == 0 {
      ZeroBit(k);
    } else {
      AndParts(a, b);
      if k > 0 {
        AndBits(a / 2, b / 2, k - 1);
      }
    }
  }

  lemma AndParts(a: nat, b: nat)
    requires a > 0 && b > 0
    ensures And(a, b) % 2 == 1 <==> a % 2 == 1 && b % 2 == 1
    ensures And(a, b) / 2 == And(a / 2, b / 2)
  {
    var x, y := a % 2, b % 2;
    BitProduct(x, y);
    Halves(And(a / 2, b / 2), x * y);
  }

  lemma BitProduct(x: nat, y: nat)
    requires x < 2 && y < 2
    ensures x * y == if x == 1 && y == 1 then 1 else 0
  {
    if x == 0 {
      assert 0 * y == 0;
    } else {
      assert 1 * y == y;
    }
  }

  /** n ones shifted left by m. */
  function Mask(n: nat, m: nat): nat {
    TwoPositive(n);
    var ones: nat := Two(n) - 1;
    Product(ones, Two(m));
    ones * Two(m)
  }

  lemma Product(a: nat, b: nat)
    ensures a * b >= 0
  {
  }

  lemma {:induction false} MaskBits(n: nat, m: nat, k: nat)
    ensures Bit(Mask(n, m), k) <==> m <= k < m + n
  {
    TwoPositive(n);
    if m > 0 {
      MaskShift(n, m);
      if k > 0 {
        MaskBits(n, m - 1, k - 1);
      }
    } else if n == 0 {
      ZeroBit(k);
    } else {
      assert Mask(n, 0) == 2 * Two(n - 1) - 1;
      TwoPositive(n - 1);
      Halves(Two(n - 1) - 1, 1);
      if k > 0 {
        MaskBits(n - 1, 0, k - 1);
      }
    }
  }

  lemma MaskShift(n: nat, m: nat)
    requires m > 0
    ensures Mask(n, m) % 2 == 0 && Mask(n, m) / 2 == Mask(n, m - 1)
  {
    var x := Two(n) - 1;
    TwoPositive(n);
    assert x * (2 * Two(m - 1)) == 2 * (x * Two(m - 1));
    Halves(x * Two(m - 1), 0);
  }

  lemma {:induction false} SameBits(a: nat, b: nat, lo: nat, hi: nat)
    requires forall k | lo <= k < hi :: Bit(a, k) == Bit(b, k)
    ensures BitsSet(a, lo, hi) == BitsSet(b, lo, hi)
    decreases hi
  {
    if lo < hi {
      SameBits(a, b, lo, hi - 1);
    }
  }

  lemma {:induction false} BitsSplit(n: nat, lo: nat, mid: nat, hi: nat)
    requires lo <= mid <= hi
    ensures BitsSet(n, lo, hi) == BitsSet(n, lo, mid) + BitsSet(n, mid, hi)
    decreases hi
  {
    if mid < hi {
      BitsSplit(n, lo, mid, hi - 1);
    }
  }

  lemma {:induction false} ClearBits(n: nat, lo: nat, hi: nat)
    requires forall k | lo <= k < hi :: !Bit(n, k)
    ensures BitsSet(n, lo, hi) == 0
    decreases hi
  {
    if lo < hi {
      ClearBits(n, lo, hi - 1);
    }
  }

  /** Counting the bits of a masked byte counts the byte's bits under the mask. */
  lemma MaskedCount(b: byte, mask: nat, lo: nat, hi: nat)
    requires lo <= hi <= 8 && forall k: nat | k < 8 :: Bit(mask, k) <==> lo <= k < hi
    ensures PopCount(And(b, mask)) == BitsSet(b, lo, hi)
  {
    var n := And(b, mask);
    assert Two(8) == 256;
    PopCountIsBits(n, 8);
    forall k: nat | k < 8 ensures Bit(n, k) <==> Bit(b, k) && lo <= k < hi {
      AndBits(b, mask, k);
    }
    BitsSplit(n, 0, lo, 8);
    BitsSplit(n, lo, hi, 8);
    ClearBits(n, 0, lo);
    ClearBits(n, hi, 8);
    SameBits(n, b, lo, hi);
  }

  // ---- set bits of a bitmap ---------------------------------------------------------------------

  /** 1 for a set bit of the bitmap; bits past its end are clear. */
  function BitState(bitmap: seq<byte>): nat -> nat {
    (p: nat) => if p / 8 < |bitmap| && Bit(bitmap[p / 8], p % 8) then 1 else 0
  }

  lemma {:induction false} ByteCount(bitmap: seq<byte>, q: nat, lo: nat, hi: nat)
    requires q < |bitmap| && lo <= hi <= 8
    ensures Count(BitState(bitmap), 8 * q + lo, 8 * q + hi, 1) == BitsSet(bitmap[q], lo, hi)
    decreases hi
  {
    if lo < hi {
      ByteCount(bitmap, q, lo, hi - 1);
      InByte(q, hi - 1);
    }
  }

  lemma InByte(q: nat, k: nat)
    requires k < 8
    ensures (8 * q + k) / 8 == q && (8 * q + k) % 8 == k
  {
  }

  /** Bytes as one little-endian number. */
  function Little(bytes: seq<byte>): nat {
    if bytes == [] then 0 else bytes[0] + 256 * Little(bytes[1..])
  }

  lemma {:induction false} PopCountJoins(b: nat, w: nat, x: nat)
    requires b < Two(w)
    ensures PopCount(b + Two(w) * x) == PopCount(b) + PopCount(x)
  {
    hide PopCount;
    if w == 0 {
      assert Two(0) * x == x;
      PopZero();
    } else {
      var y := Two(w - 1) * x;
      HalfBelow(b, Two(w - 1));
      PopCountJoins(b / 2, w - 1, x);
      Doubled(Two(w - 1), x);
      PopOfSum(b, y);
      PopHalves(b);
    }
  }

  lemma PopZero()
    ensures PopCount(0) == 0
  {
  }

  lemma Doubled(t: nat, x: nat)
    ensures 2 * t * x == 2 * (t * x)
  {
  }

  lemma PopOfSum(b: nat, y: nat)
    ensures PopCount(b + 2 * y) == b % 2 + PopCount(b / 2 + y)
  {
    hide PopCount;
    PopHalves(b + 2 * y);
    EvenSum(b, y);
  }

  lemma EvenSum(b: nat, y: nat)
    ensures (b + 2 * y) % 2 == b % 2 && (b + 2 * y) / 2 == b / 2 + y
  {
  }

  lemma PopHalves(n: nat)
    ensures PopCount(n) == n % 2 + PopCount(n / 2)
  {
  }

  /** Counting the whole bytes of a stretch as one number. */
  lemma {:induction false} WholeBytes(bitmap: seq<byte>, first: nat, last: nat)
    requires first <= last <= |bitmap|
    ensures PopCount(Little(bitmap[first..last])) == Count(BitState(bitmap), 8 * first, 8 * last, 1)
    decreases last - first
  {
    hide BitState, PopCount, BitsSet;
    if first == last {
      NoWholeBytes(bitmap, first);
    } else {
      var s := bitmap[first..last];
      assert s[1..] == bitmap[first + 1..last];
      WholeBytes(bitmap, first + 1, last);
      assert Two(8) == 256;
      PopCountJoins(s[0], 8, Little(s[1..]));
      PopCountIsBits(s[0], 8);
      ByteCount(bitmap, first, 0, 8);
      CountSplits(BitState(bitmap), 8 * first, 8 * first + 8, 8 * last, 1);
    }
  }

  lemma NoWholeBytes(bitmap: seq<byte>, q: nat)
    requires q <= |bitmap|
    ensures PopCount(Little(bitmap[q..q])) == 0 == Count(BitState(bitmap), 8 * q, 8 * q, 1)
  {
  }

  /** The count of [start, end) from a masked first byte, whole bytes and a masked last byte equals
      counting bit by bit. */
  method CountSetBits(bitmap: seq<byte>, start: nat, end: nat) returns (count: nat)
    requires end <= 8 * |bitmap| || end <= start
    ensures count == Count(BitState(bitmap), start, end, 1)
  {
    hide BitState, BitsSet, Mask, PopCount, Count, And, Little, Bit;
    if end <= start {
      NoUnits(bitmap, start, end);
      return 0;
    }
    ghost var state := BitState(bitmap);
    var firstByte, lastByte := start / 8, (end - 1) / 8;
    if firstByte == lastByte {
      MaskSpan(end - start, start % 8);
      MaskedCount(bitmap[firstByte], Mask(end - start, start % 8), start % 8, start % 8 + (end - start));
      ByteCount(bitmap, firstByte, start % 8, start % 8 + (end - start));
      return PopCount(And(bitmap[firstByte], Mask(end - start, start % 8)));
    }
    count := 0;
    ghost var done := start;
    NoUnits(bitmap, start, start);
    if start % 8 != 0 {
      MaskSpan(8, start % 8);
      MaskedCount(bitmap[firstByte], Mask(8, start % 8), start % 8, 8);
      ByteCount(bitmap, firstByte, start % 8, 8);
      count := count + PopCount(And(bitmap[firstByte], Mask(8, start % 8)));
      firstByte := firstByte + 1;
      done := 8 * firstByte;
    }
    var fullEnd := end / 8;
    if fullEnd > firstByte {
      WholeBytes(bitmap, firstByte, fullEnd);
      CountSplits(state, start, 8 * firstByte, 8 * fullEnd, 1);
      count := count + PopCount(Little(bitmap[firstByte..fullEnd]));
      done := 8 * fullEnd;
    }
    assert done == 8 * fullEnd;
    if end % 8 != 0 {
      MaskSpan(end % 8, 0);
      MaskedCount(bitmap[lastByte], Mask(end % 8, 0), 0, end % 8);
      ByteCount(bitmap, lastByte, 0, end % 8);
      CountSplits(state, start, 8 * fullEnd, end, 1);
      count := count + PopCount(And(bitmap[lastByte], Mask(end % 8, 0)));
    }
  }

  lemma NoUnits(bitmap: seq<byte>, a: nat, b: nat)
    requires b <= a
    ensures Count(BitState(bitmap), a, b, 1) == 0
  {
  }

  lemma MaskSpan(n: nat, m: nat)
    ensures forall k: nat :: Bit(Mask(n, m), k) <==> m <= k < m + n
  {
    forall k: nat ensures Bit(Mask(n, m), k) <==> m <= k < m + n {
      MaskBits(n, m, k);
    }
  }

  // ---- the map ----------------------------------------------------------------------------------

  /** A unit's state by the bitmap: the reserved prefix is unknown. */
  function BitmapState(bitmap: seq<byte>, reserved: nat): nat -> nat {
    (p: nat) => if p < reserved then UNKNOWN else if BitState(bitmap)(p - reserved) == 1 then USED else FREE
  }

  lemma {:induction false} ShiftedCount(bitmap: seq<byte>, reserved: nat, a: nat, b: nat)
    requires reserved <= a <= b
    ensures Count(BitmapState(bitmap, reserved), a, b, USED) == Count(BitState(bitmap), a - reserved, b - reserved, 1)
    ensures Count(BitmapState(bitmap, reserved), a, b, UNKNOWN) == 0 == Count(BitmapState(bitmap, reserved), a, b, BAD)
    decreases b
  {
    if a < b {
      ShiftedCount(bitmap, reserved, a, b - 1);
    }
  }

  /** The counts of one cell: the reserved part, the used bits, and the rest free. */
  method BitmapCell(bitmap: seq<byte>, reserved: nat, start: nat, end: nat) returns (counts: seq<nat>)
    requires start <= end && (reserved < end ==> end - reserved <= 8 * |bitmap|)
    ensures counts == Counts(BitmapState(bitmap, reserved), start, end)
  {
    hide BitmapState, BitState, Count;
    ghost var state := BitmapState(bitmap, reserved);
    var limit := if end < reserved then end else reserved;
    var unknown: nat := if limit > start then limit - start else 0;
    var dataStart := if start < reserved then reserved else start;
    var dataCount: nat := if end > dataStart then end - dataStart else 0;
    var used := 0;
    if dataCount != 0 {
      used := CountSetBits(bitmap, dataStart - reserved, end - reserved);
    }
    CellCounts(bitmap, reserved, start, end, start + unknown);
    var free: int := dataCount - used;
    counts := [free, used, unknown, 0];
  }

  lemma CellCounts(bitmap: seq<byte>, reserved: nat, start: nat, end: nat, mid: nat)
    requires start <= mid <= end && (mid < end ==> mid >= reserved) && (start < mid ==> mid <= reserved)
    ensures var state := BitmapState(bitmap, reserved);
            && Count(state, start, end, UNKNOWN) == mid - start && Count(state, start, end, BAD) == 0
            && Count(state, start, end, USED)
               == (if mid < end then Count(BitState(bitmap), mid - reserved, end - reserved, 1) else 0)
            && Count(state, start, end, FREE) == (end - mid) - Count(state, start, end, USED)
  {
    var state := BitmapState(bitmap, reserved);
    forall s | s in {FREE, USED, UNKNOWN, BAD} ensures Count(state, start, end, s)
        == Count(state, start, mid, s) + Count(state, mid, end, s) {
      CountSplits(state, start, mid, end, s);
    }
    assert forall p | start <= p < mid :: state(p) == UNKNOWN;
    forall s | s in {FREE, USED, UNKNOWN, BAD}
      ensures Count(state, start, mid, s) == if s == UNKNOWN then mid - start else 0 {
      CountRun(state, start, mid, UNKNOWN, s);
    }
    if mid < end {
      ShiftedCount(bitmap, reserved, mid, end);
    }
    assert forall p | mid <= p < end :: state(p) <= BAD;
    CountsTotal(state, mid, end);
  }

  /** The whole map from a bitmap; refused when the bitmap is too short, also for the one unit of a map of none. */
  method AggregateBitmap(bitmap: seq<byte>, total: nat, cellCount: nat, reserved: nat) returns (r: Option<seq<Cell>>)
    ensures r.Some? <==> Units(total) <= 8 * |bitmap| + reserved
    ensures r.Some? ==>
              |r.value| == CellsFor(cellCount, total)
              && Aggregates(r.value, BitmapState(bitmap, reserved), Units(total), |r.value|)
  {
    hide BitmapState, Counts, Boundary;
    if |bitmap| * 8 < total - reserved {
      return None;
    }
    ghost var state := BitmapState(bitmap, reserved);
    var count := CellsFor(cellCount, total);
    var cells := [];
    for i := 0 to count
      invariant |cells| == i && Aggregates(cells, state, Units(total), count)
      invariant i > 0 ==> Boundary(i, Units(total), count) <= 8 * |bitmap| + reserved
    {
      BoundariesSplit(Units(total), count, i);
      ScriptSplitsUnits(cellCount, total, i);
      var start, end := Boundary(i, total, count), ScriptEnd(i, total, count);
      if end > reserved && end - reserved > 8 * |bitmap| {
        return None;
      }
      var counts := BitmapCell(bitmap, reserved, start, end);
      var cell := Cell(start, end, counts);
      assert CellRight(cell, state, Units(total), count, i);
      cells := cells + [cell];
    }
    BoundariesSplit(Units(total), count, 0);
    r := Some(cells);
  }
}
