/** Amiga blocks: 128 big-endian 32-bit words, their checksum, the pointer table of header and list blocks. */
module AffsBlocks {
  import opened Bytes

  type word = w: int | 0 <= w < U32_LIMIT

  const LONGS := 128
  const PTRS := 72

  type Block = b: seq<word> | |b| == 128 witness seq(128, _ => 0)

  const ZERO: Block := seq(128, _ => 0)

  const T_SHORT: word := 2
  const T_LIST: word := 16
  const ST_ROOT: word := 1
  const ST_DIR: word := 2
  const ST_FILE: word := 0xffff_fffd

  /** The words below n added up, the checksum's own place left out. */
  function Sum(b: Block, skip: nat, n: nat): int
    requires n <= LONGS
  {
    if n == 0 then 0 else Sum(b, skip, n - 1) + (if n - 1 == skip then 0 else b[n - 1] as int)
  }

  /** What the checksum word has to hold: the negated sum of the others. */
  function Csum(b: Block, skip: nat): word {
    -Sum(b, skip, LONGS) % U32_LIMIT
  }

  function WordSum(b: Block, n: nat): int
    requires n <= LONGS
  {
    if n == 0 then 0 else WordSum(b, n - 1) + b[n - 1]
  }

  lemma {:induction false} SumWithout(b: Block, skip: nat, n: nat)
    requires n <= LONGS && skip < LONGS
    ensures WordSum(b, n) == Sum(b, skip, n) + (if skip < n then b[skip] as int else 0)
  {
    if n > 0 { SumWithout(b, skip, n - 1); }
  }

  /** A checksum is right exactly when all words of the block add up to zero in 32 bits. */
  lemma ChecksumExactly(b: Block, chk: nat)
    requires chk < LONGS
    ensures b[chk] == Csum(b, chk) <==> WordSum(b, LONGS) % U32_LIMIT == 0
  {
    SumWithout(b, chk, LONGS);
    Negated(Sum(b, chk, LONGS), b[chk]);
  }

  lemma Negated(s: int, x: word)
    ensures x == -s % U32_LIMIT <==> (s + x) % U32_LIMIT == 0
  {
  }

  predicate BlockOk(b: Block, kind: word, subtype: word, chk: nat)
    requires chk < LONGS
  {
    b[0] == kind && b[127] == subtype && b[chk] == Csum(b, chk)
  }

  function FixSum(b: Block, chk: nat): Block
    requires chk < LONGS
  {
    b[chk := Csum(b, chk)]
  }

  lemma {:induction false} SumSkips(b: Block, c: Block, skip: nat, n: nat)
    requires n <= LONGS && forall i | 0 <= i < n && i != skip :: b[i] == c[i]
    ensures Sum(b, skip, n) == Sum(c, skip, n)
  {
    if n > 0 {
      SumSkips(b, c, skip, n - 1);
    }
  }

  /** After the fix the stored checksum is right, whatever was there before. */
  lemma FixSumHolds(b: Block, chk: nat)
    requires chk < LONGS
    ensures FixSum(b, chk)[chk] == Csum(FixSum(b, chk), chk)
    ensures forall i | 0 <= i < LONGS && i != chk :: FixSum(b, chk)[i] == b[i]
  {
    SumSkips(b, FixSum(b, chk), chk, LONGS);
  }

  method Checksum(b: Block, skip: nat) returns (c: word)
    ensures c == Csum(b, skip)
  {
    var s := 0;
    for i := 0 to LONGS
      invariant s == Sum(b, skip, i) % U32_LIMIT
    {
      Wraps(Sum(b, skip, i), b[i]);
      if i != skip {
        s := (s + b[i]) % U32_LIMIT;
      }
    }
    Wraps(Sum(b, skip, LONGS), 0);
    c := (0 - s) % U32_LIMIT;
  }

  /** 32-bit addition and negation may be done on wrapped values. */
  lemma Wraps(s: int, x: int)
    ensures (s % U32_LIMIT + x) % U32_LIMIT == (s + x) % U32_LIMIT
    ensures (0 - s % U32_LIMIT) % U32_LIMIT == -s % U32_LIMIT
  {
  }

  method Fixsum(b: Block, chk: nat) returns (r: Block)
    requires chk < LONGS
    ensures r == FixSum(b, chk)
  {
    var z: Block := b[chk := 0];
    SumSkips(b, z, chk, LONGS);
    var c := Checksum(z, chk);
    r := z[chk := c];
  }

  // ---- the pointer table: entry 0 is the highest word --------------------------------------------

  function Pointer(b: Block, i: nat): nat
    requires i < PTRS
  {
    b[77 - i]
  }

  /** The first n pointers of a table. */
  function Table(b: Block, n: nat): (r: seq<nat>)
    requires n <= PTRS
    ensures |r| == n
  {
    seq(n, i requires 0 <= i < n => Pointer(b, i))
  }

  predicate Addresses(s: seq<nat>, blocks: nat) {
    forall i | 0 <= i < |s| :: 0 < s[i] < blocks
  }

  /** A header or list block holding exactly the given pointers: the count, the cleared table, the first pointer of a
      header, and the checksum. */
  function WithPointers(b: Block, header: bool, ptrs: seq<nat>): (r: Block)
    requires |ptrs| <= PTRS && Addresses(ptrs, U32_LIMIT)
  {
    FixSum(Filled(b, header, ptrs), 5)
  }

  function Filled(b: Block, header: bool, ptrs: seq<nat>): (r: Block)
    requires |ptrs| <= PTRS && Addresses(ptrs, U32_LIMIT)
  {
    seq(LONGS, k requires 0 <= k < LONGS => FilledWord(b, header, ptrs, k))
  }

  function FilledWord(b: Block, header: bool, ptrs: seq<nat>, k: nat): word
    requires |ptrs| <= PTRS && Addresses(ptrs, U32_LIMIT) && k < LONGS
  {
    if k == 2 then |ptrs|
    else if k == 4 && header then if ptrs == [] then 0 else ptrs[0]
    else if 6 <= k <= 77 then if 77 - k < |ptrs| then ptrs[77 - k] else 0
    else b[k]
  }

  /** Reading back what was written: the count, the pointers, a right checksum, and every word outside them kept. */
  lemma PointersReadBack(b: Block, header: bool, ptrs: seq<nat>)
    requires |ptrs| <= PTRS && Addresses(ptrs, U32_LIMIT)
    ensures var r := WithPointers(b, header, ptrs);
            && r[2] == |ptrs| && Table(r, |ptrs|) == ptrs && r[5] == Csum(r, 5)
            && r[0] == b[0] && r[1] == b[1] && (forall k | 78 <= k < LONGS :: r[k] == b[k])
  {
    FixSumHolds(Filled(b, header, ptrs), 5);
    var r := WithPointers(b, header, ptrs);
    forall i | 0 <= i < |ptrs| ensures Pointer(r, i) == ptrs[i] {
      assert r[77 - i] == FilledWord(b, header, ptrs, 77 - i);
    }
    assert Table(r, |ptrs|) == ptrs;
    assert forall k | 78 <= k < LONGS :: r[k] == FilledWord(b, header, ptrs, k);
  }

  /** The writing loop: one word after the other. */
  method WritePointers(b: Block, header: bool, ptrs: seq<nat>) returns (r: Block)
    requires |ptrs| <= PTRS && Addresses(ptrs, U32_LIMIT)
    ensures r == WithPointers(b, header, ptrs)
  {
    var w: Block := b[2 := |ptrs|];
    for i := 0 to PTRS
      invariant forall k | 0 <= k < LONGS ::
                  w[k] == if k == 2 || (78 - i <= k <= 77) then FilledWord(b, false, ptrs, k) else b[k]
    {
      w := w[77 - i := if i < |ptrs| then ptrs[i] else 0];
    }
    if header {
      w := w[4 := if ptrs == [] then 0 else ptrs[0]];
    }
    assert w == Filled(b, header, ptrs) by {
      assert forall k | 0 <= k < LONGS :: Filled(b, header, ptrs)[k] == FilledWord(b, header, ptrs, k);
    }
    r := Fixsum(w, 5);
  }

  // ---- data blocks ------------------------------------------------------------------------------

  /** An OFS data block moved to logical place j of a file of need blocks starting at start. */
  function Chained(b: Block, header: nat, j: nat, need: nat, start: nat): Block
    requires header < U32_LIMIT && j < need && start + need <= U32_LIMIT - 1
  {
    FixSum(b[1 := header][2 := j + 1][4 := if j + 1 < need then start + j + 1 else 0], 5)
  }

  function Moved(ffs: bool, b: Block, header: nat, j: nat, need: nat, start: nat): Block
    requires header < U32_LIMIT && j < need && start + need <= U32_LIMIT - 1
  {
    if ffs then b else Chained(b, header, j, need, start)
  }

  /** The file bytes a data block carries: all of it in FFS; in OFS the size word and the 122 words after the header. */
  function Payload(ffs: bool, b: Block): seq<word> {
    if ffs then b else [b[3]] + b[6..]
  }

  /** A moved block carries the same file bytes, and an OFS block the right links and checksum. */
  lemma MovedKeeps(ffs: bool, b: Block, header: nat, j: nat, need: nat, start: nat)
    requires header < U32_LIMIT && j < need && start + need <= U32_LIMIT - 1
    ensures var m := Moved(ffs, b, header, j, need, start);
            && Payload(ffs, m) == Payload(ffs, b)
            && (!ffs ==> m[0] == b[0] && m[1] == header && m[2] == j + 1 && m[5] == Csum(m, 5)
                         && m[4] == if j + 1 < need then start + j + 1 else 0)
  {
    FixSumHolds(b[1 := header][2 := j + 1][4 := if j + 1 < need then start + j + 1 else 0], 5);
  }
}
