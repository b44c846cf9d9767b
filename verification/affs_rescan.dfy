/** When another volume scans to the same files, or to the same files in other places. */
module AffsRescan {
  import opened Wrappers
  import opened Bytes
  import opened AffsBlocks
  import opened AffsVolume

  // ---- what a scan reads ------------------------------------------------------------------------

  lemma {:induction false} ExtPagesSame(vol: Volume, other: Volume, ext: nat, guard: nat)
    requires |vol| == |other| < U32_LIMIT && ExtPages(vol, ext, guard).Some?
    requires forall n | n in ExtPages(vol, ext, guard).value.exts :: other[n] == vol[n]
    ensures ExtPages(other, ext, guard) == ExtPages(vol, ext, guard)
    decreases |vol| + 1 - guard
  {
    if ext != 0 {
      var whole := ExtPages(vol, ext, guard).value;
      assert whole.exts[0] == ext;
      var rest := ExtPages(vol, vol[ext][127], guard + 1).value;
      assert rest.exts == whole.exts[1..];
      ExtPagesSame(vol, other, vol[ext][127], guard + 1);
    }
  }

  lemma BitmapPagesSame(vol: Volume, other: Volume, root: Block)
    requires |vol| == |other| < U32_LIMIT && BitmapPages(vol, root).Some?
    requires forall n | n in BitmapPages(vol, root).value.exts :: other[n] == vol[n]
    ensures BitmapPages(other, root) == BitmapPages(vol, root)
  {
    ExtPagesSame(vol, other, root[104], 0);
  }

  lemma ReadFreeSame(vol: Volume, other: Volume, pages: seq<nat>)
    requires 2 <= |vol| == |other| && Addresses(pages, |vol|)
    requires forall n | n in pages :: other[n] == vol[n]
    ensures ReadFree(other, pages) == ReadFree(vol, pages)
  {
    assert forall i | 0 <= i < |pages| :: pages[i] in pages;
    if |pages| >= Needed(|vol|) {
      forall n | 0 <= n < |vol| - 2
        ensures n / PAGE_BITS < |pages| && FreeBit(other, pages, n) == FreeBit(vol, pages, n) {
        assert pages[n / PAGE_BITS] in pages;
      }
      if ReadFree(vol, pages).Some? {
        assert ReadFree(other, pages).value == ReadFree(vol, pages).value;
      }
    }
  }

  lemma {:induction false} ListChainSame(vol: Volume, other: Volume, ext: nat, guard: nat)
    requires |vol| == |other| < U32_LIMIT && ListChain(vol, ext, guard).Some?
    requires forall n | n in ListChain(vol, ext, guard).value.lists :: other[n] == vol[n]
    ensures ListChain(other, ext, guard) == ListChain(vol, ext, guard)
    decreases |vol| + 1 - guard
  {
    if ext != 0 {
      var whole := ListChain(vol, ext, guard).value;
      assert whole.lists[0] == ext;
      var rest := ListChain(vol, vol[ext][126], guard + 1).value;
      assert rest.lists == whole.lists[1..];
      ListChainSame(vol, other, vol[ext][126], guard + 1);
    }
  }

  lemma ScanFileSame(vol: Volume, other: Volume, ffs: bool, blk: nat)
    requires blk < |vol| == |other| < U32_LIMIT && ScanFile(vol, ffs, blk).Some?
    requires other[blk] == vol[blk] && forall n | n in ScanFile(vol, ffs, blk).value.lists :: other[n] == vol[n]
    ensures ScanFile(other, ffs, blk) == ScanFile(vol, ffs, blk)
  {
    ListChainSame(vol, other, vol[blk][126], 0);
  }

  // ---- pointers replaced ------------------------------------------------------------------------

  /** The pointers that go into header (k = 0) or list block number k - 1. */
  function Chunk(dest: seq<nat>, k: nat): (r: seq<nat>)
    ensures |r| <= PTRS && forall i | 0 <= i < |r| :: r[i] in dest
  {
    dest[Upto(dest, k)..Upto(dest, k + 1)]
  }

  function Upto(dest: seq<nat>, k: nat): (r: nat)
    ensures r <= |dest|
  {
    if PTRS * k < |dest| then PTRS * k else |dest|
  }

  /** The list chain, each block refilled from dest, reads as the same chain holding dest. */
  lemma {:induction false} ChainRefilled(vol: Volume, other: Volume, ext: nat, guard: nat, dest: seq<nat>, k: nat)
    requires |vol| == |other| < U32_LIMIT && Addresses(dest, |vol|) && ListChain(vol, ext, guard).Some?
    requires var lists := ListChain(vol, ext, guard).value.lists;
             && |dest| <= PTRS * (k + |lists|)
             && forall i | 0 <= i < |lists| :: other[lists[i]] == WithPointers(vol[lists[i]], false, Chunk(dest, k + i))
    ensures ListChain(other, ext, guard) == Some(Chain(ListChain(vol, ext, guard).value.lists, dest[Upto(dest, k)..]))
    decreases |vol| + 1 - guard
  {
    hide WithPointers, Csum, Chunk, BlockOk, Table, ListChain;
    if ext == 0 {
      NoChain(vol, guard);
      NoChain(other, guard);
      assert dest[Upto(dest, k)..] == [];
    } else {
      ChainRest(vol, ext, guard);
      var lists := ListChain(vol, ext, guard).value.lists;
      RefillsLeft(vol, other, lists, dest, k);
      assert ListChain(vol, vol[ext][126], guard + 1).value.lists == lists[1..];
      ChainRefilled(vol, other, vol[ext][126], guard + 1, dest, k + 1);
      ChunkAddresses(dest, k, |vol|);
      LinkRefilled(vol, other, ext, guard, Chunk(dest, k));
      ChunkJoins(dest, k);
    }
  }

  lemma NoChain(vol: Volume, guard: nat)
    requires |vol| < U32_LIMIT
    ensures ListChain(vol, 0, guard) == Some(Chain([], []))
  {
  }

  lemma ChainRest(vol: Volume, ext: nat, guard: nat)
    requires |vol| < U32_LIMIT && ListChain(vol, ext, guard).Some? && ext != 0
    ensures ext < |vol| && guard + 1 <= |vol| && ListChain(vol, vol[ext][126], guard + 1).Some?
    ensures ListChain(vol, ext, guard).value.lists == [ext] + ListChain(vol, vol[ext][126], guard + 1).value.lists
  {
    hide BlockOk, Table;
  }

  lemma RefillsLeft(vol: Volume, other: Volume, lists: seq<nat>, dest: seq<nat>, k: nat)
    requires |vol| == |other| < U32_LIMIT && Addresses(dest, |vol|) && Addresses(lists, |vol|) && lists != []
    requires forall i | 0 <= i < |lists| :: other[lists[i]] == WithPointers(vol[lists[i]], false, Chunk(dest, k + i))
    ensures other[lists[0]] == WithPointers(vol[lists[0]], false, Chunk(dest, k))
    ensures forall i | 0 <= i < |lists[1..]| ::
              other[lists[1..][i]] == WithPointers(vol[lists[1..][i]], false, Chunk(dest, k + 1 + i))
  {
    hide WithPointers, Chunk;
    assert k + 0 == k;
    forall i | 0 <= i < |lists[1..]|
      ensures other[lists[1..][i]] == WithPointers(vol[lists[1..][i]], false, Chunk(dest, k + 1 + i))
    {
      assert k + (i + 1) == k + 1 + i;
    }
  }

  lemma ChunkAddresses(dest: seq<nat>, k: nat, blocks: nat)
    requires Addresses(dest, blocks)
    ensures Addresses(Chunk(dest, k), blocks)
  {
  }

  lemma LinkRefilled(vol: Volume, other: Volume, ext: nat, guard: nat, ptrs: seq<nat>)
    requires |vol| == |other| < U32_LIMIT && ListChain(vol, ext, guard).Some? && ext != 0
    requires |ptrs| <= PTRS && Addresses(ptrs, |vol|) && other[ext] == WithPointers(vol[ext], false, ptrs)
    requires ListChain(other, vol[ext][126], guard + 1).Some?
    ensures var rest := ListChain(other, vol[ext][126], guard + 1).value;
            ListChain(other, ext, guard) == Some(Chain([ext] + rest.lists, ptrs + rest.data))
  {
    hide WithPointers, Csum;
    PointersReadBack(vol[ext], false, ptrs);
  }

  lemma ChunkJoins(dest: seq<nat>, k: nat)
    ensures dest[Upto(dest, k)..] == Chunk(dest, k) + dest[Upto(dest, k + 1)..]
  {
  }

  /** A file whose header and list blocks were refilled from dest scans as the file with dest for its data. */
  lemma FileRefilled(vol: Volume, other: Volume, ffs: bool, f: File, dest: seq<nat>)
    requires |vol| == |other| < U32_LIMIT && f.header < |vol| && ScanFile(vol, ffs, f.header) == Some(f)
    requires |dest| == |f.data| && Addresses(dest, |vol|)
    requires other[f.header] == WithPointers(vol[f.header], true, Chunk(dest, 0))
    requires forall i | 0 <= i < |f.lists| ::
               other[f.lists[i]] == WithPointers(vol[f.lists[i]], false, Chunk(dest, i + 1))
    ensures ScanFile(other, ffs, f.header) == Some(f.(data := dest))
    ensures HeaderSame(vol[f.header], other[f.header])
  {
    hide WithPointers, Csum, ScanFile, Chunk, Table;
    var ptrs := Chunk(dest, 0);
    PointersReadBack(vol[f.header], true, ptrs);
    FileChain(vol, ffs, f);
    forall i | 0 <= i < |f.lists|
      ensures other[f.lists[i]] == WithPointers(vol[f.lists[i]], false, Chunk(dest, 1 + i)) {
      assert 1 + i == i + 1;
    }
    ChainRefilled(vol, other, vol[f.header][126], 0, dest, 1);
    ChunkJoins(dest, 0);
    ScanFileFrom(other, ffs, f.header, ptrs, Chain(f.lists, dest[Upto(dest, 1)..]));
  }

  lemma FileChain(vol: Volume, ffs: bool, f: File)
    requires f.header < |vol| < U32_LIMIT && ScanFile(vol, ffs, f.header) == Some(f)
    ensures ListChain(vol, vol[f.header][126], 0).Some? && ListChain(vol, vol[f.header][126], 0).value.lists == f.lists
    ensures f.size == vol[f.header][81] && |f.data| == Wanted(ffs, f.size)
  {
    hide Table, ListChain;
  }

  lemma ScanFileFrom(vol: Volume, ffs: bool, blk: nat, ptrs: seq<nat>, rest: Chain)
    requires blk < |vol| < U32_LIMIT && Addresses(ptrs, |vol|) && |ptrs| <= PTRS
    requires vol[blk][2] == |ptrs| && Table(vol[blk], |ptrs|) == ptrs && ListChain(vol, vol[blk][126], 0) == Some(rest)
    requires |ptrs + rest.data| == Wanted(ffs, vol[blk][81])
    ensures ScanFile(vol, ffs, blk) == Some(File(blk, vol[blk][81], ptrs + rest.data, rest.lists))
  {
    hide Table, ListChain;
  }

  // ---- rescanning -------------------------------------------------------------------------------

  /** The same directories and bitmap blocks, renewed files and a readable bitmap: the scan finds just that. */
  lemma Rescan(vol: Volume, other: Volume, c: Catalogue, free: seq<bool>, news: seq<File>)
    requires Scan(vol) == Some(c) && |other| == |vol|
    requires other[0] == vol[0] && forall n | n in c.exts :: other[n] == vol[n]
    requires ReadFree(other, c.pages) == Some(free)
    requires |news| == |c.files| && Renews(vol, other, c.ffs, Found({}, c.dirs, c.files), news)
    ensures Scan(other) == Some(c.(free := free, files := news))
  {
    hide WalkDir, ReadFree, BitmapPages, BlockOk;
    var root := |vol| / 2;
    var start := Found(All(vol), [], []);
    var w := WalkDir(vol, c.ffs, root, true, start).value;
    assert root in w.dirs;
    BitmapPagesSame(vol, other, vol[root]);
    assert All(other) == All(vol);
    DirRenews(vol, other, c.ffs, root, true, start, w, news);
    assert Renewed(start, news) == start && news[..|c.files|] == news;
  }
}
