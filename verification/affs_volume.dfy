/** Scanning an Amiga volume: file headers with their list chains, the directory graph, and the free-space bitmap. */
module AffsVolume {
  import opened Wrappers
  import opened Bytes
  import opened AffsBlocks

  type Volume = seq<Block>

  /** A regular file: its header block, its size in bytes, its data blocks in order, its extension list blocks. */
  datatype File = File(header: nat, size: nat, data: seq<nat>, lists: seq<nat>)

  datatype Chain = Chain(lists: seq<nat>, data: seq<nat>)

  // ---- one file ---------------------------------------------------------------------------------

  /** The chain of extension list blocks from ext, having followed guard links. */
  function ListChain(vol: Volume, ext: nat, guard: nat): (r: Option<Chain>)
    requires |vol| < U32_LIMIT
    ensures r.Some? ==> Addresses(r.value.lists, |vol|) && Addresses(r.value.data, |vol|)
    ensures r.Some? ==> |r.value.data| <= PTRS * |r.value.lists|
    decreases |vol| + 1 - guard
  {
    if ext == 0 then Some(Chain([], []))
    else if ext >= |vol| || guard + 1 > |vol| then None
    else
      var b := vol[ext];
      if !BlockOk(b, T_LIST, ST_FILE, 5) || b[1] != ext || b[2] > PTRS then None
      else if !Addresses(Table(b, b[2]), |vol|) then None
      else
        match ListChain(vol, b[126], guard + 1)
        case None => None
        case Some(rest) => Some(Chain([ext] + rest.lists, Table(b, b[2]) + rest.data))
  }

  function PayloadBytes(ffs: bool): nat {
    if ffs then 512 else 488
  }

  /** Data blocks a byte size asks for, in 32-bit arithmetic. */
  function Wanted(ffs: bool, size: nat): nat {
    (size + PayloadBytes(ffs) - 1) % U32_LIMIT / PayloadBytes(ffs)
  }

  function ScanFile(vol: Volume, ffs: bool, blk: nat): (r: Option<File>)
    requires blk < |vol| < U32_LIMIT
    ensures r.Some? ==> r.value.header == blk && Addresses(r.value.data, |vol|) && Addresses(r.value.lists, |vol|)
    ensures r.Some? ==> |r.value.data| == Wanted(ffs, r.value.size) <= PTRS * (1 + |r.value.lists|)
  {
    var hb := vol[blk];
    if hb[2] > PTRS || !Addresses(Table(hb, hb[2]), |vol|) then None
    else
      match ListChain(vol, hb[126], 0)
      case None => None
      case Some(rest) =>
        var data := Table(hb, hb[2]) + rest.data;
        if |data| != Wanted(ffs, hb[81]) then None
        else Some(File(blk, hb[81], data, rest.lists))
  }

  // ---- the directory graph ----------------------------------------------------------------------

  /** What the walk has collected; unseen are the blocks no directory has been entered at. */
  datatype Found = Found(unseen: set<nat>, dirs: seq<nat>, files: seq<File>)

  predicate Extends(a: Found, b: Found) {
    b.unseen <= a.unseen && a.dirs <= b.dirs && a.files <= b.files
  }

  function WalkDir(vol: Volume, ffs: bool, blk: nat, root: bool, at: Found): (r: Option<Found>)
    requires |vol| < U32_LIMIT
    ensures r.Some? ==> Extends(at, r.value) && blk in r.value.dirs
    decreases at.unseen, 0, 0
  {
    if blk >= |vol| || blk !in at.unseen then None
    else
      var b := vol[blk];
      if !BlockOk(b, T_SHORT, if root then ST_ROOT else ST_DIR, 5) || (!root && b[1] != blk) then None
      else
        var next := Found(at.unseen - {blk}, at.dirs + [blk], at.files);
        assert next.dirs[|at.dirs|] == blk;
        var r := WalkHash(vol, ffs, b, if root && b[3] < PTRS then b[3] else PTRS, 0, next);
        assert r.Some? ==> r.value.dirs[|at.dirs|] == blk;
        r
  }

  function WalkHash(vol: Volume, ffs: bool, b: Block, size: nat, h: nat, at: Found): (r: Option<Found>)
    requires |vol| < U32_LIMIT && h <= size <= PTRS
    ensures r.Some? ==> Extends(at, r.value)
    decreases at.unseen, 2, size - h
  {
    if h == size then Some(at)
    else
      match WalkChain(vol, ffs, b[6 + h], 0, at)
      case None => None
      case Some(next) => WalkHash(vol, ffs, b, size, h + 1, next)
  }

  /** Entries sharing a hash slot: files are scanned, directories entered. */
  function WalkChain(vol: Volume, ffs: bool, x: nat, chain: nat, at: Found): (r: Option<Found>)
    requires |vol| < U32_LIMIT
    ensures r.Some? ==> Extends(at, r.value)
    decreases at.unseen, 1, |vol| + 1 - chain
  {
    if x == 0 then Some(at)
    else if x >= |vol| || chain + 1 > |vol| then None
    else
      match WalkEntry(vol, ffs, x, at)
      case None => None
      case Some(next) => WalkChain(vol, ffs, vol[x][124], chain + 1, next)
  }

  function WalkEntry(vol: Volume, ffs: bool, x: nat, at: Found): (r: Option<Found>)
    requires x < |vol| < U32_LIMIT
    ensures r.Some? ==> Extends(at, r.value)
    decreases at.unseen, 1, 0
  {
    var eb := vol[x];
    if eb[5] != Csum(eb, 5) || eb[0] != T_SHORT then None
    else if eb[127] == ST_FILE then
      match ScanFile(vol, ffs, x)
      case None => None
      case Some(f) => Some(at.(files := at.files + [f]))
    else if eb[127] == ST_DIR then WalkDir(vol, ffs, x, false, at)
    else None
  }

  // ---- the bitmap -------------------------------------------------------------------------------

  datatype Pages = Pages(exts: seq<nat>, pages: seq<nat>)

  /** The bitmap pages listed from word lo on, up to the first zero word. */
  function Listed(b: Block, lo: nat, count: nat, blocks: nat): (r: Option<seq<nat>>)
    requires lo + count <= LONGS
    ensures r.Some? ==> Addresses(r.value, blocks)
    decreases count
  {
    if count == 0 || b[lo] == 0 then Some([])
    else if b[lo] >= blocks then None
    else
      match Listed(b, lo + 1, count - 1, blocks)
      case None => None
      case Some(rest) => Some([b[lo] as nat] + rest)
  }

  function ExtPages(vol: Volume, ext: nat, guard: nat): (r: Option<Pages>)
    requires |vol| < U32_LIMIT
    ensures r.Some? ==> Addresses(r.value.exts, |vol|) && Addresses(r.value.pages, |vol|)
    decreases |vol| + 1 - guard
  {
    if ext == 0 then Some(Pages([], []))
    else if ext >= |vol| || guard + 1 > |vol| then None
    else
      match Listed(vol[ext], 0, 127, |vol|)
      case None => None
      case Some(here) =>
        match ExtPages(vol, vol[ext][127], guard + 1)
        case None => None
        case Some(rest) => Some(Pages([ext] + rest.exts, here + rest.pages))
  }

  function BitmapPages(vol: Volume, root: Block): (r: Option<Pages>)
    requires |vol| < U32_LIMIT
    ensures r.Some? ==> Addresses(r.value.exts, |vol|) && Addresses(r.value.pages, |vol|)
  {
    match Listed(root, 79, 25, |vol|)
    case None => None
    case Some(here) =>
      match ExtPages(vol, root[104], 0)
      case None => None
      case Some(rest) => Some(Pages(rest.exts, here + rest.pages))
  }

  const PAGE_BITS := 4064

  /** Bitmap pages that a volume of this many blocks needs. */
  function Needed(blocks: nat): (r: nat)
    requires blocks >= 2
    ensures (r - 1) * PAGE_BITS < blocks - 2 <= r * PAGE_BITS
  {
    ((blocks - 2 + 31) / 32 + 126) / 127
  }

  /** Block 2 + n is free when bit n is set. */
  predicate FreeBit(vol: Volume, pages: seq<nat>, n: nat)
    requires n / PAGE_BITS < |pages| && Addresses(pages, |vol|)
  {
    Bit(vol[pages[n / PAGE_BITS]][1 + n % PAGE_BITS / 32], n % 32)
  }

  function ReadFree(vol: Volume, pages: seq<nat>): (r: Option<seq<bool>>)
    requires |vol| >= 2 && Addresses(pages, |vol|)
    ensures r.Some? ==> |r.value| == |vol| && !r.value[0] && !r.value[1]
  {
    var needed := Needed(|vol|);
    if |pages| < needed then None
    else if exists i | 0 <= i < needed :: vol[pages[i]][0] != Csum(vol[pages[i]], 0) then None
    else Some(seq(|vol|, n requires 0 <= n < |vol| => n >= 2 && FreeBit(vol, pages, n - 2)))
  }

  // ---- the whole scan ---------------------------------------------------------------------------

  datatype Catalogue = Catalogue(ffs: bool, free: seq<bool>, exts: seq<nat>, pages: seq<nat>, dirs: seq<nat>,
      files: seq<File>)

  const DOS := 0x44_4f53

  predicate Inside(n: nat, blocks: nat) {
    n < blocks
  }

  function All(vol: Volume): set<nat> {
    set n: nat | n < |vol| && Inside(n, |vol|)
  }

  function Scan(vol: Volume): (r: Option<Catalogue>)
    ensures r.Some? ==> 20 <= |vol| < U32_LIMIT && |r.value.free| == |vol|
    ensures r.Some? ==> Addresses(r.value.pages, |vol|) && Needed(|vol|) <= |r.value.pages|
  {
    if |vol| < 20 || |vol| >= U32_LIMIT then None
    else
      var boot := vol[0][0];
      var root := |vol| / 2;
      if boot / 256 != DOS || boot % 256 > 7 then None
      else if !BlockOk(vol[root], T_SHORT, ST_ROOT, 5) then None
      else
        var ffs := boot % 2 == 1;
        match BitmapPages(vol, vol[root])
        case None => None
        case Some(bp) =>
          match ReadFree(vol, bp.pages)
          case None => None
          case Some(free) =>
            match WalkDir(vol, ffs, root, true, Found(All(vol), [], []))
            case None => None
            case Some(w) => Some(Catalogue(ffs, free, bp.exts, bp.pages, w.dirs, w.files))
  }

  function Headers(files: seq<File>): (r: seq<nat>)
    ensures |r| == |files| && forall i | 0 <= i < |files| :: r[i] == files[i].header
  {
    seq(|files|, i requires 0 <= i < |files| => files[i].header)
  }

  function AllLists(files: seq<File>): seq<nat> {
    if files == [] then [] else files[0].lists + AllLists(files[1..])
  }

  function AllData(files: seq<File>): seq<nat> {
    if files == [] then [] else files[0].data + AllData(files[1..])
  }

  /** The blocks whose places are fixed. */
  function Metadata(c: Catalogue): seq<nat> {
    [0, 1] + c.exts + c.pages + c.dirs + Headers(c.files) + AllLists(c.files)
  }

  // ---- a scan depends on the metadata only ------------------------------------------------------

  /** What the walk reads of a header, apart from what the file scan reads. */
  predicate HeaderSame(a: Block, b: Block) {
    b[5] == Csum(b, 5) && b[0] == a[0] && b[124] == a[124] && b[127] == a[127]
  }

  /** Another volume in which the same directories stand, and the i-th file found scans as news[i]. */
  ghost predicate Renews(vol: Volume, other: Volume, ffs: bool, at: Found, news: seq<File>)
    requires |vol| == |other| < U32_LIMIT
  {
    && |at.files| <= |news|
    && (forall d | d in at.dirs :: d < |vol| && other[d] == vol[d])
    && (forall i | 0 <= i < |at.files| ::
          && at.files[i].header < |vol| && HeaderSame(vol[at.files[i].header], other[at.files[i].header])
          && ScanFile(other, ffs, at.files[i].header) == Some(news[i]))
  }

  function Renewed(at: Found, news: seq<File>): Found
    requires |at.files| <= |news|
  {
    Found(at.unseen, at.dirs, news[..|at.files|])
  }

  lemma Shorter(vol: Volume, other: Volume, ffs: bool, a: Found, b: Found, news: seq<File>)
    requires |vol| == |other| < U32_LIMIT && Extends(a, b) && Renews(vol, other, ffs, b, news)
    ensures Renews(vol, other, ffs, a, news)
  {
    forall d | d in a.dirs ensures d in b.dirs {
      var i :| 0 <= i < |a.dirs| && a.dirs[i] == d;
      assert b.dirs[i] == d;
    }
    assert forall i | 0 <= i < |a.files| :: b.files[i] == a.files[i];
  }

  lemma {:induction false} DirRenews(vol: Volume, other: Volume, ffs: bool, blk: nat, root: bool, a: Found, r: Found,
      news: seq<File>)
    requires |vol| == |other| < U32_LIMIT
    requires WalkDir(vol, ffs, blk, root, a) == Some(r) && Renews(vol, other, ffs, r, news)
    ensures |a.files| <= |news|
    ensures WalkDir(other, ffs, blk, root, Renewed(a, news)) == Some(Renewed(r, news))
    decreases a.unseen, 0, 0
  {
    var s := vol[blk];
    assert other[blk] == s;
    var a' := Found(a.unseen - {blk}, a.dirs + [blk], a.files);
    Shorter(vol, other, ffs, a, r, news);
    HashRenews(vol, other, ffs, s, if root && s[3] < PTRS then s[3] else PTRS, 0, a', r, news);
  }

  lemma {:induction false} HashRenews(vol: Volume, other: Volume, ffs: bool, s: Block, size: nat, h: nat, a: Found,
      r: Found, news: seq<File>)
    requires |vol| == |other| < U32_LIMIT && h <= size <= PTRS && Renews(vol, other, ffs, r, news)
    requires WalkHash(vol, ffs, s, size, h, a) == Some(r)
    ensures |a.files| <= |news|
    ensures WalkHash(other, ffs, s, size, h, Renewed(a, news)) == Some(Renewed(r, news))
    decreases a.unseen, 2, size - h
  {
    Shorter(vol, other, ffs, a, r, news);
    if h < size {
      var next := WalkChain(vol, ffs, s[6 + h], 0, a).value;
      Shorter(vol, other, ffs, next, r, news);
      ChainRenews(vol, other, ffs, s[6 + h], 0, a, next, news);
      HashRenews(vol, other, ffs, s, size, h + 1, next, r, news);
    }
  }

  lemma {:induction false} ChainRenews(vol: Volume, other: Volume, ffs: bool, x: nat, chain: nat, a: Found, r: Found,
      news: seq<File>)
    requires |vol| == |other| < U32_LIMIT
    requires WalkChain(vol, ffs, x, chain, a) == Some(r) && Renews(vol, other, ffs, r, news)
    ensures |a.files| <= |news|
    ensures WalkChain(other, ffs, x, chain, Renewed(a, news)) == Some(Renewed(r, news))
    decreases a.unseen, 1, |vol| + 1 - chain
  {
    if x != 0 {
      var next := WalkEntry(vol, ffs, x, a).value;
      Shorter(vol, other, ffs, next, r, news);
      EntryRenews(vol, other, ffs, x, a, next, news);
      ChainRenews(vol, other, ffs, vol[x][124], chain + 1, next, r, news);
    }
  }

  lemma {:induction false} EntryRenews(vol: Volume, other: Volume, ffs: bool, x: nat, a: Found, r: Found,
      news: seq<File>)
    requires x < |vol| == |other| < U32_LIMIT
    requires WalkEntry(vol, ffs, x, a) == Some(r) && Renews(vol, other, ffs, r, news)
    ensures |a.files| <= |news|
    ensures WalkEntry(other, ffs, x, Renewed(a, news)) == Some(Renewed(r, news))
    ensures other[x][124] == vol[x][124]
    decreases a.unseen, 1, 0
  {
    if vol[x][127] == ST_FILE {
      var f := ScanFile(vol, ffs, x).value;
      assert r.files == a.files + [f];
      assert r.files[|a.files|] == f;
      assert news[..|r.files|] == news[..|a.files|] + [news[|a.files|]];
    } else {
      DirRenews(vol, other, ffs, x, false, a, r, news);
      assert x in r.dirs;
    }
  }
}
