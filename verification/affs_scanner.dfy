/** The Amiga scan as it runs: loops over pointer tables, chains, hash slots and bitmap words. */
module AffsScanner {
  import opened Wrappers
  import opened Bytes
  import opened AffsBlocks
  import opened AffsVolume

  /** Appends the first n pointers of a table, refusing a null or outside one. */
  method PushPointers(b: Block, n: nat, blocks: nat, data: seq<nat>) returns (r: Option<seq<nat>>)
    requires n <= PTRS
    ensures r == if Addresses(Table(b, n), blocks) then Some(data + Table(b, n)) else None
  {
    var out := data;
    for i := 0 to n
      invariant out == data + Table(b, i) && Addresses(Table(b, i), blocks)
    {
      var x: nat := b[77 - i];
      assert Table(b, n)[i] == x;
      if x == 0 || x >= blocks {
        return None;
      }
      out := out + [x];
      assert Table(b, i + 1) == Table(b, i) + [x];
    }
    r := Some(out);
  }

  /** What has been collected, and what is still to come. */
  function Joined(lists: seq<nat>, data: seq<nat>, rest: Option<Chain>): Option<Chain> {
    if rest.None? then None else Some(Chain(lists + rest.value.lists, data + rest.value.data))
  }

  method ScanFileBlocks(vol: Volume, ffs: bool, blk: nat) returns (r: Option<File>)
    requires blk < |vol| < U32_LIMIT
    ensures r == ScanFile(vol, ffs, blk)
  {
    var hb := vol[blk];
    if hb[2] > PTRS {
      return None;
    }
    var first := PushPointers(hb, hb[2], |vol|, []);
    if first.None? {
      return None;
    }
    var data, lists: seq<nat> := first.value, [];
    var ext, guard: nat := hb[126], 0;
    while ext != 0
      invariant guard <= |vol| && 0 <= ext
      invariant Joined(lists, data, ListChain(vol, ext, guard)) == Joined([], first.value, ListChain(vol, hb[126], 0))
      decreases |vol| + 1 - guard
    {
      guard := guard + 1;
      if ext >= |vol| || guard > |vol| {
        return None;
      }
      var b := vol[ext];
      var c := Checksum(b, 5);
      if b[0] != T_LIST || b[127] != ST_FILE || b[5] != c || b[1] != ext || b[2] > PTRS {
        return None;
      }
      ghost var rest := ListChain(vol, b[126], guard);
      assert rest.Some? ==> lists + ([ext] + rest.value.lists) == lists + [ext] + rest.value.lists;
      assert rest.Some? ==> data + (Table(b, b[2]) + rest.value.data) == data + Table(b, b[2]) + rest.value.data;
      lists := lists + [ext];
      var more := PushPointers(b, b[2], |vol|, data);
      if more.None? {
        return None;
      }
      data := more.value;
      ext := b[126];
    }
    assert lists + [] == lists && data + [] == data;
    assert first.value == Table(hb, hb[2])
        && Joined([], first.value, ListChain(vol, hb[126], 0)) == Some(Chain(lists, data));
    ghost var whole := ListChain(vol, hb[126], 0).value;
    assert [] + whole.lists == whole.lists == lists && Table(hb, hb[2]) + whole.data == data;
    if |data| != Wanted(ffs, hb[81]) {
      return None;
    }
    r := Some(File(blk, hb[81], data, lists));
  }

  method ScanDir(vol: Volume, ffs: bool, blk: nat, root: bool, at: Found) returns (r: Option<Found>)
    requires |vol| < U32_LIMIT
    ensures r == WalkDir(vol, ffs, blk, root, at)
    decreases at.unseen, 0
  {
    if blk >= |vol| || blk !in at.unseen {
      return None;
    }
    var b := vol[blk];
    var c := Checksum(b, 5);
    if b[0] != T_SHORT || b[127] != (if root then ST_ROOT else ST_DIR) || b[5] != c || (!root && b[1] != blk) {
      return None;
    }
    var now := Found(at.unseen - {blk}, at.dirs + [blk], at.files);
    var hs: nat := if root && b[3] < PTRS then b[3] else PTRS;
    for h := 0 to hs
      invariant now.unseen <= at.unseen - {blk}
      invariant WalkHash(vol, ffs, b, hs, h, now) == WalkDir(vol, ffs, blk, root, at)
    {
      var next := ScanChain(vol, ffs, b[6 + h], now);
      if next.None? {
        return None;
      }
      now := next.value;
    }
    r := Some(now);
  }

  method ScanChain(vol: Volume, ffs: bool, first: nat, at: Found) returns (r: Option<Found>)
    requires |vol| < U32_LIMIT
    ensures r == WalkChain(vol, ffs, first, 0, at)
    decreases at.unseen, 1
  {
    var now := at;
    var x, chain: nat := first, 0;
    while x != 0
      invariant 0 <= x && now.unseen <= at.unseen
      invariant WalkChain(vol, ffs, x, chain, now) == WalkChain(vol, ffs, first, 0, at)
      decreases |vol| + 1 - chain
    {
      chain := chain + 1;
      if x >= |vol| || chain > |vol| {
        return None;
      }
      var eb := vol[x];
      var c := Checksum(eb, 5);
      if eb[5] != c || eb[0] != T_SHORT {
        return None;
      }
      if eb[127] == ST_FILE {
        var f := ScanFileBlocks(vol, ffs, x);
        if f.None? {
          return None;
        }
        now := now.(files := now.files + [f.value]);
      } else if eb[127] == ST_DIR {
        var d := ScanDir(vol, ffs, x, false, now);
        if d.None? {
          return None;
        }
        now := d.value;
      } else {
        return None;
      }
      x := eb[124];
    }
    r := Some(now);
  }

  /** The bitmap loop: page by page, word by word, bit by bit. */
  method ReadFreeMap(vol: Volume, pages: seq<nat>) returns (r: Option<seq<bool>>)
    requires |vol| >= 2 && Addresses(pages, |vol|)
    ensures r == ReadFree(vol, pages)
  {
    var bits := |vol| - 2;
    var needed := Needed(|vol|);
    if |pages| < needed {
      return None;
    }
    var free := [false, false];
    for bi := 0 to needed
      invariant |free| - 2 == Upto(bi * PAGE_BITS, bits)
      invariant forall i | 0 <= i < bi :: vol[pages[i]][0] == Csum(vol[pages[i]], 0)
      invariant Read(vol, pages, free)
    {
      var b := vol[pages[bi]];
      var c := Checksum(b, 0);
      if b[0] != c {
        return None;
      }
      free := ReadPage(vol, pages, bi, free);
    }
    assert |free| == |vol|;
    assert free == ReadFree(vol, pages).value;
    r := Some(free);
  }

  function Upto(n: nat, bits: nat): nat {
    if n < bits then n else bits
  }

  /** The blocks read so far are right. */
  predicate Read(vol: Volume, pages: seq<nat>, free: seq<bool>)
    requires |vol| >= 2 && Addresses(pages, |vol|)
  {
    && 2 <= |free| <= |vol| && !free[0] && !free[1]
    && forall n | 0 <= n < |free| - 2 :: n / PAGE_BITS < |pages| && FreeBit(vol, pages, n) == free[n + 2]
  }

  method ReadPage(vol: Volume, pages: seq<nat>, bi: nat, free: seq<bool>) returns (r: seq<bool>)
    requires |vol| >= 2 && Addresses(pages, |vol|) && bi < |pages|
    requires |free| - 2 == bi * PAGE_BITS < |vol| - 2 && Read(vol, pages, free)
    ensures |r| - 2 == Upto((bi + 1) * PAGE_BITS, |vol| - 2) && Read(vol, pages, r)
  {
    hide FreeBit;
    var bits := |vol| - 2;
    var b := vol[pages[bi]];
    r := free;
    var li := 1;
    while li < 128 && |r| - 2 < bits
      invariant 1 <= li <= 128
      invariant |r| - 2 == Upto(bi * PAGE_BITS + 32 * (li - 1), bits) && Read(vol, pages, r)
    {
      r := ReadWord(vol, pages, bi, li, r);
      li := li + 1;
    }
  }

  method ReadWord(vol: Volume, pages: seq<nat>, bi: nat, li: nat, free: seq<bool>) returns (r: seq<bool>)
    requires |vol| >= 2 && Addresses(pages, |vol|) && bi < |pages| && 1 <= li < 128
    requires |free| - 2 == bi * PAGE_BITS + 32 * (li - 1) < |vol| - 2 && Read(vol, pages, free)
    ensures |r| - 2 == Upto(bi * PAGE_BITS + 32 * li, |vol| - 2) && Read(vol, pages, r)
  {
    var bits := |vol| - 2;
    var w: nat := vol[pages[bi]][li];
    r := free;
    var k := 0;
    while k < 32 && |r| - 2 < bits
      invariant 0 <= k <= 32
      invariant |r| - 2 == bi * PAGE_BITS + 32 * (li - 1) + k <= bits && Read(vol, pages, r)
    {
      BitPlace(|r| - 2, bi, li, k);
      r := r + [Bit(w, k)];
      k := k + 1;
    }
  }

  lemma BitPlace(n: nat, bi: nat, li: nat, k: nat)
    requires 1 <= li < 128 && k < 32 && n == bi * PAGE_BITS + 32 * (li - 1) + k
    ensures n / PAGE_BITS == bi && 1 + n % PAGE_BITS / 32 == li && n % 32 == k
  {
    PagePlace(n, bi, 32 * (li - 1) + k);
    WordPlace(32 * (li - 1) + k, li - 1, k);
    WordPlace(n, 127 * bi + (li - 1), k);
  }

  lemma PagePlace(n: nat, q: nat, r: nat)
    requires n == q * PAGE_BITS + r && r < PAGE_BITS
    ensures n / PAGE_BITS == q && n % PAGE_BITS == r
  {
  }

  lemma WordPlace(n: nat, q: nat, r: nat)
    requires n == 32 * q + r && r < 32
    ensures n / 32 == q && n % 32 == r
  {
  }
}
