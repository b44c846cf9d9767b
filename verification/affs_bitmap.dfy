/** The Amiga free-space bitmap: what is written is what is read. */
module AffsBitmap {
  import opened Wrappers
  import opened Bytes
  import opened AffsBlocks
  import opened AffsVolume

  /** The word for the 32 blocks from bit on, its first k bits done. */
  function WordFrom(free: seq<bool>, bit: nat, k: nat): (w: nat)
    requires |free| >= 2 && k <= 32
    ensures w < U32_LIMIT
  {
    if k == 0 then 0
    else
      var w := WordFrom(free, bit, k - 1);
      WordFits(w, k - 1);
      if bit + k - 1 < |free| - 2 && free[2 + bit + k - 1] then SetBit(w, k - 1) else w
  }

  lemma WordFits(w: nat, k: nat)
    requires w < U32_LIMIT && k < 32
    ensures SetBit(w, k) < U32_LIMIT
  {
    assert Two(32) == U32_LIMIT by {
      assert Two(8) == 256;
      assert Two(12) == 0x1000;
      assert Two(16) == 0x1_0000;
      assert Two(20) == 0x10_0000;
      assert Two(24) == 0x100_0000;
      assert Two(28) == 0x1000_0000;
    }
    SetBitBound(w, k, 32);
  }

  lemma {:induction false} WordBit(free: seq<bool>, bit: nat, k: nat, j: nat)
    requires |free| >= 2 && k <= 32
    ensures Bit(WordFrom(free, bit, k), j) <==> j < k && bit + j < |free| - 2 && free[2 + bit + j]
  {
    if k == 0 {
      ZeroBit(j);
    } else {
      WordBit(free, bit, k - 1, j);
      SetBitReads(WordFrom(free, bit, k - 1), k - 1, j);
    }
  }

  /** Page number bi: the words that have bits in them are rewritten. */
  function PageWord(b: Block, free: seq<bool>, bi: nat, i: nat): word
    requires |free| >= 2 && i < LONGS
  {
    if i >= 1 && bi * PAGE_BITS + 32 * (i - 1) < |free| - 2 then WordFrom(free, bi * PAGE_BITS + 32 * (i - 1), 32)
        else b[i]
  }

  function PageFor(b: Block, free: seq<bool>, bi: nat): Block
    requires |free| >= 2
  {
    FixSum(PageWords(b, free, bi), 0)
  }

  function PageWords(b: Block, free: seq<bool>, bi: nat): Block
    requires |free| >= 2
  {
    seq(LONGS, i requires 0 <= i < LONGS => PageWord(b, free, bi, i))
  }

  function WrittenBitmap(vol: Volume, pages: seq<nat>, free: seq<bool>, bi: nat): (r: Volume)
    requires |free| == |vol| >= 2 && Addresses(pages, |vol|)
    ensures |r| == |vol|
    decreases |pages| - bi
  {
    if bi >= |pages| || bi * PAGE_BITS >= |vol| - 2 then vol
    else WrittenBitmap(vol[pages[bi] := PageFor(vol[pages[bi]], free, bi)], pages, free, bi + 1)
  }

  /** Each needed page is written once, from what it held; no other block changes. */
  lemma {:induction false} PagesWritten(vol: Volume, pages: seq<nat>, free: seq<bool>, bi: nat)
    requires |free| == |vol| >= 2 && Addresses(pages, |vol|) && NoRepeats(pages)
    ensures var r := WrittenBitmap(vol, pages, free, bi);
            && (forall i | bi <= i < |pages| && i * PAGE_BITS < |vol| - 2 ::
                 r[pages[i]] == PageFor(vol[pages[i]], free, i))
            && (forall n | 0 <= n < |vol| && n !in pages :: r[n] == vol[n])
            && (forall i | 0 <= i < |pages| && i < bi :: r[pages[i]] == vol[pages[i]])
    decreases |pages| - bi
  {
    if bi < |pages| && bi * PAGE_BITS < |vol| - 2 {
      var next := vol[pages[bi] := PageFor(vol[pages[bi]], free, bi)];
      PagesWritten(next, pages, free, bi + 1);
      assert forall i | 0 <= i < |pages| && i != bi :: next[pages[i]] == vol[pages[i]];
    } else {
      assert forall i | bi <= i < |pages| :: i * PAGE_BITS >= |vol| - 2;
    }
  }

  /** Reading the written bitmap gives the very map that was written. */
  lemma BitmapRoundTrip(vol: Volume, pages: seq<nat>, free: seq<bool>)
    requires |free| == |vol| >= 2 && Addresses(pages, |vol|) && NoRepeats(pages)
    requires Needed(|vol|) <= |pages| && !free[0] && !free[1]
    ensures ReadFree(WrittenBitmap(vol, pages, free, 0), pages) == Some(free)
  {
    hide WordFrom, WrittenBitmap, PageFor, FreeBit, Csum, ReadFree, NoRepeats, Needed;
    var r := WrittenBitmap(vol, pages, free, 0);
    PagesWritten(vol, pages, free, 0);
    forall i | 0 <= i < Needed(|vol|) ensures r[pages[i]][0] == Csum(r[pages[i]], 0) {
      PageWritten(vol, pages, free, i);
    }
    forall n | 0 <= n < |vol| - 2 ensures n / PAGE_BITS < |pages| && FreeBit(r, pages, n) == free[n + 2] {
      PageOf(|vol|, n);
      PageWritten(vol, pages, free, n / PAGE_BITS);
      BitWritten(vol, r, pages, free, n);
    }
    ReadsBack(r, pages, free);
  }

  lemma PageWritten(vol: Volume, pages: seq<nat>, free: seq<bool>, i: nat)
    requires |free| == |vol| >= 2 && Addresses(pages, |vol|) && NoRepeats(pages)
    requires i < Needed(|vol|) <= |pages|
    ensures var r := WrittenBitmap(vol, pages, free, 0);
            r[pages[i]] == PageFor(vol[pages[i]], free, i) && r[pages[i]][0] == Csum(r[pages[i]], 0)
  {
    hide PageFor, Csum, WrittenBitmap;
    PagesWritten(vol, pages, free, 0);
    NeededPage(|vol|, i);
    PageSum(vol[pages[i]], free, i);
  }

  lemma ReadsBack(r: Volume, pages: seq<nat>, free: seq<bool>)
    requires |free| == |r| >= 2 && Addresses(pages, |r|) && Needed(|r|) <= |pages| && !free[0] && !free[1]
    requires forall i | 0 <= i < Needed(|r|) :: r[pages[i]][0] == Csum(r[pages[i]], 0)
    requires forall n | 0 <= n < |r| - 2 :: n / PAGE_BITS < |pages| && FreeBit(r, pages, n) == free[n + 2]
    ensures ReadFree(r, pages) == Some(free)
  {
    hide FreeBit, Csum, Needed;
    var got := ReadFree(r, pages).value;
    forall n | 0 <= n < |r| ensures got[n] == free[n] {
      if n >= 2 {
        assert FreeBit(r, pages, n - 2) == free[n - 2 + 2];
      }
    }
    assert got == free;
  }

  lemma PageOf(blocks: nat, n: nat)
    requires blocks >= 2 && n < blocks - 2
    ensures n / PAGE_BITS < Needed(blocks)
  {
  }

  lemma PageSum(b: Block, free: seq<bool>, bi: nat)
    requires |free| >= 2
    ensures PageFor(b, free, bi)[0] == Csum(PageFor(b, free, bi), 0)
  {
    FixSumHolds(PageWords(b, free, bi), 0);
  }

  lemma NeededPage(blocks: nat, i: nat)
    requires blocks >= 2 && i < Needed(blocks)
    ensures i * PAGE_BITS < blocks - 2
  {
  }

  lemma BitWritten(vol: Volume, r: Volume, pages: seq<nat>, free: seq<bool>, n: nat)
    requires |free| == |vol| == |r| && n < |vol| - 2 && Addresses(pages, |vol|) && n / PAGE_BITS < |pages|
    requires r[pages[n / PAGE_BITS]] == PageFor(vol[pages[n / PAGE_BITS]], free, n / PAGE_BITS)
    ensures FreeBit(r, pages, n) == free[n + 2]
  {
    hide WordFrom;
    var bi, i, k := n / PAGE_BITS, 1 + n % PAGE_BITS / 32, n % 32;
    var b := vol[pages[bi]];
    Places(n);
    assert r[pages[bi]][i] == PageWord(b, free, bi, i);
    WordBit(free, bi * PAGE_BITS + 32 * (i - 1), 32, k);
  }

  lemma Places(n: nat)
    ensures n / PAGE_BITS * PAGE_BITS + 32 * (n % PAGE_BITS / 32) + n % 32 == n
    ensures n % PAGE_BITS / 32 < 127
  {
  }
}
