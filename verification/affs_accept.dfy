/** Which Amiga volumes a scan can read: those whose directories are a tree of well-formed entries, with a bitmap
    that is complete and unbroken. */
module AffsAccept {
  import opened Wrappers
  import opened Bytes
  import opened AffsBlocks
  import opened AffsVolume
  import opened AffsStage
  import opened AffsReach

  // ---- files ------------------------------------------------------------------------------------

  /** At most 72 pointers, each to a block of the volume other than block 0. */
  predicate PointersInside(vol: Volume, owner: nat) {
    && owner < |vol| && vol[owner][2] <= 72
    && forall k: nat | k < vol[owner][2] :: 0 < PointerWord(vol[owner], k) < |vol|
  }

  function PointerWord(b: Block, k: nat): nat {
    if k < 72 then b[77 - k] else 0
  }

  predicate ListOk(vol: Volume, x: nat) {
    x < |vol| && BlockOk(vol[x], T_LIST, ST_FILE, 5) && vol[x][1] == x && PointersInside(vol, x)
  }

  /** The list blocks of a chain of blocks that begins at ext. */
  ghost predicate Lists(vol: Volume, ext: nat, lists: seq<nat>) {
    Linked(vol, ext, lists) && 0 !in lists && forall x | x in lists :: ListOk(vol, x)
  }

  lemma TableInside(vol: Volume, owner: nat)
    requires owner < |vol| && vol[owner][2] <= 72
    ensures Addresses(Table(vol[owner], vol[owner][2]), |vol|) <==> PointersInside(vol, owner)
  {
    var t := Table(vol[owner], vol[owner][2]);
    assert forall k: nat | k < |t| :: t[k] == PointerWord(vol[owner], k);
  }

  lemma {:induction false} ListsAccepted(vol: Volume, ext: nat, guard: nat, lists: seq<nat>)
    requires |vol| < U32_LIMIT && Lists(vol, ext, lists) && guard + |lists| <= |vol|
    ensures ListChain(vol, ext, guard).Some? && ListChain(vol, ext, guard).value.lists == lists
    decreases |lists|
  {
    hide BlockOk, PointersInside, Table;
    if lists != [] {
      assert ext in lists && ListOk(vol, ext);
      FewPointers(vol, ext);
      TableInside(vol, ext);
      LinkedRest(vol, ext, lists);
      ListsAccepted(vol, vol[ext][126], guard + 1, lists[1..]);
    }
  }

  lemma LinkedRest(vol: Volume, ext: nat, lists: seq<nat>)
    requires lists != [] && Lists(vol, ext, lists)
    ensures ext < |vol| && Lists(vol, vol[ext][126], lists[1..])
  {
    hide ListOk;
    var rest := lists[1..];
    assert LinkIs(vol, lists, 0);
    forall i: nat | i < |rest| ensures LinkIs(vol, rest, i) && rest[i] in lists {
      assert LinkIs(vol, lists, i + 1) && rest[i] == lists[i + 1];
    }
    assert forall x | x in rest :: x in lists;
    assert rest != [] ==> rest[0] == vol[ext][126];
  }

  lemma {:induction false} AcceptedLists(vol: Volume, ext: nat, guard: nat)
    requires |vol| < U32_LIMIT && ListChain(vol, ext, guard).Some? && guard <= |vol|
    ensures var lists := ListChain(vol, ext, guard).value.lists;
            Lists(vol, ext, lists) && guard + |lists| <= |vol|
    decreases |vol| + 1 - guard
  {
    hide BlockOk, PointersInside, Table;
    if ext != 0 {
      TableInside(vol, ext);
      AcceptedLists(vol, vol[ext][126], guard + 1);
      var rest := ListChain(vol, vol[ext][126], guard + 1).value.lists;
      LinkedMore(vol, ext, rest);
    }
  }

  /** A chain of good list blocks, no longer than the volume, that together with the header point to as many blocks as
      the file's size asks for. */
  ghost predicate ListsFit(vol: Volume, ffs: bool, blk: nat, lists: seq<nat>)
    requires blk < |vol|
  {
    && |lists| <= |vol| && Lists(vol, vol[blk][126], lists)
    && PointersBefore(vol, [blk] + lists, 1 + |lists|) == Wanted(ffs, vol[blk][81])
  }

  /** A file header is accepted if and only if its pointers lead into the volume and its list blocks fit. */
  lemma FileExactly(vol: Volume, ffs: bool, blk: nat)
    requires blk < |vol| < U32_LIMIT
    ensures ScanFile(vol, ffs, blk).Some? <==>
              PointersInside(vol, blk) && exists lists :: ListsFit(vol, ffs, blk, lists)
  {
    hide PointersInside, ListsFit, ScanFile;
    if ScanFile(vol, ffs, blk).Some? {
      AcceptedFile(vol, ffs, blk);
    } else if lists :| PointersInside(vol, blk) && ListsFit(vol, ffs, blk, lists) {
      FileAccepted(vol, ffs, blk, lists);
    }
  }

  lemma AcceptedFile(vol: Volume, ffs: bool, blk: nat)
    requires blk < |vol| < U32_LIMIT && ScanFile(vol, ffs, blk).Some?
    ensures PointersInside(vol, blk) && exists lists :: ListsFit(vol, ffs, blk, lists)
  {
    hide PointersInside, Table, Wanted, PointersBefore, Lists;
    TableInside(vol, blk);
    AcceptedLists(vol, vol[blk][126], 0);
    PointersCounted(vol, blk, ListChain(vol, vol[blk][126], 0).value.lists);
    assert ListsFit(vol, ffs, blk, ListChain(vol, vol[blk][126], 0).value.lists);
  }

  lemma FileAccepted(vol: Volume, ffs: bool, blk: nat, lists: seq<nat>)
    requires blk < |vol| < U32_LIMIT && PointersInside(vol, blk) && ListsFit(vol, ffs, blk, lists)
    ensures ScanFile(vol, ffs, blk).Some?
  {
    hide PointersInside, Table, Wanted, PointersBefore, Lists;
    FewPointers(vol, blk);
    TableInside(vol, blk);
    ListsAccepted(vol, vol[blk][126], 0, lists);
    PointersCounted(vol, blk, lists);
  }

  lemma FewPointers(vol: Volume, blk: nat)
    requires PointersInside(vol, blk)
    ensures vol[blk][2] <= 72
  {
  }

  /** The data of header and list blocks together. */
  lemma PointersCounted(vol: Volume, blk: nat, lists: seq<nat>)
    requires blk < |vol| < U32_LIMIT && vol[blk][2] <= 72 && ListChain(vol, vol[blk][126], 0).Some?
    requires lists == ListChain(vol, vol[blk][126], 0).value.lists
    ensures forall i | 0 <= i < |lists| :: lists[i] < |vol|
    ensures PointersBefore(vol, [blk] + lists, 1 + |lists|)
            == vol[blk][2] + |ListChain(vol, vol[blk][126], 0).value.data|
  {
    ListsTold(vol, vol[blk][126], 0);
    PointedMore(vol, blk, lists, ListChain(vol, vol[blk][126], 0).value.data);
  }

  // ---- the tree ---------------------------------------------------------------------------------

  /** The entries of one hash slot, each with what is below it; and the slots of a directory. */
  datatype Entries = NoEntry | Entry(below: Slots, next: Entries)

  datatype Slots = NoSlot | Slot(entries: Entries, rest: Slots)

  predicate HeaderOk(vol: Volume, x: nat) {
    0 < x < |vol| && vol[x][0] == T_SHORT && vol[x][5] == Csum(vol[x], 5)
  }

  ghost predicate EntriesAt(vol: Volume, ffs: bool, x: nat, k: nat, t: Entries)
    requires |vol| < U32_LIMIT
    decreases t
  {
    match t
    case NoEntry => x == 0
    case Entry(below, next) =>
      && k < |vol| && EntryAt(vol, ffs, x, below) && EntriesAt(vol, ffs, vol[x][124], k + 1, next)
  }

  /** A file header that scans, or a directory that names itself and has these slots. */
  ghost predicate EntryAt(vol: Volume, ffs: bool, x: nat, below: Slots)
    requires |vol| < U32_LIMIT
    decreases below, 1
  {
    && HeaderOk(vol, x)
    && (|| (vol[x][127] == ST_FILE && below.NoSlot? && ScanFile(vol, ffs, x).Some?)
        || (vol[x][127] == ST_DIR && vol[x][1] == x && SlotsAt(vol, ffs, vol[x], 72, 0, below)))
  }

  ghost predicate SlotsAt(vol: Volume, ffs: bool, b: Block, size: nat, h: nat, t: Slots)
    requires |vol| < U32_LIMIT && h <= size <= 72
    decreases t, 0
  {
    match t
    case NoSlot => h == size
    case Slot(entries, rest) =>
      h < size && EntriesAt(vol, ffs, b[6 + h], 0, entries) && SlotsAt(vol, ffs, b, size, h + 1, rest)
  }

  /** The directories of a tree, in the order they are entered. */
  function EntryDirs(vol: Volume, x: nat, t: Entries): seq<nat>
    decreases t
  {
    match t
    case NoEntry => []
    case Entry(below, next) =>
      if x >= |vol| then [] else DirsBelow(vol, x, below) + EntryDirs(vol, vol[x][124], next)
  }

  function DirsBelow(vol: Volume, x: nat, below: Slots): seq<nat>
    requires x < |vol|
    decreases below, 1
  {
    if vol[x][127] == ST_DIR then [x] + SlotDirs(vol, vol[x], 0, below) else []
  }

  function SlotDirs(vol: Volume, b: Block, h: nat, t: Slots): seq<nat>
    decreases t, 0
  {
    match t
    case NoSlot => []
    case Slot(entries, rest) =>
      if h >= 72 then [] else EntryDirs(vol, b[6 + h], entries) + SlotDirs(vol, b, h + 1, rest)
  }

  /** Directories that have not been entered yet, none twice. */
  predicate Fresh(unseen: set<nat>, dirs: seq<nat>) {
    NoRepeats(dirs) && forall x | x in dirs :: x in unseen
  }

  function Left(unseen: set<nat>, dirs: seq<nat>): set<nat> {
    unseen - (set x | x in dirs)
  }

  lemma FreshParts(unseen: set<nat>, a: seq<nat>, b: seq<nat>)
    ensures Fresh(unseen, a + b) <==> Fresh(unseen, a) && Fresh(Left(unseen, a), b)
    ensures Left(unseen, a + b) == Left(Left(unseen, a), b)
  {
    assert forall i | 0 <= i < |a| :: (a + b)[i] == a[i];
    assert forall i | 0 <= i < |b| :: (a + b)[|a| + i] == b[i];
    assert forall x | x in a :: x in a + b;
    if Fresh(unseen, a) && Fresh(Left(unseen, a), b) {
      assert forall i | 0 <= i < |b| :: b[i] in b;
    }
  }

  lemma FreshOne(unseen: set<nat>, x: nat)
    ensures Fresh(unseen, [x]) <==> x in unseen
    ensures Left(unseen, [x]) == unseen - {x}
    ensures Fresh(unseen, []) && Left(unseen, []) == unseen
  {
    assert x in [x];
  }

  /** What a walk over these directories leaves. */
  ghost predicate Walked(at: Found, dirs: seq<nat>, r: Option<Found>) {
    r.Some? && r.value.unseen == Left(at.unseen, dirs) && r.value.dirs == at.dirs + dirs
  }

  // ---- a tree is walked -------------------------------------------------------------------------

  lemma {:induction false} EntriesWalked(vol: Volume, ffs: bool, x: nat, k: nat, t: Entries, at: Found)
    requires |vol| < U32_LIMIT && EntriesAt(vol, ffs, x, k, t) && Fresh(at.unseen, EntryDirs(vol, x, t))
    ensures Walked(at, EntryDirs(vol, x, t), WalkChain(vol, ffs, x, k, at))
    decreases t
  {
    hide Fresh, Left, WalkEntry, EntryAt, DirsBelow;
    match t
    case NoEntry => FreshOne(at.unseen, 0);
    case Entry(below, next) =>
      HeaderInside(vol, ffs, x, below);
      var first, later := DirsBelow(vol, x, below), EntryDirs(vol, vol[x][124], next);
      FreshParts(at.unseen, first, later);
      EntryWalked(vol, ffs, x, below, at);
      EntriesWalked(vol, ffs, vol[x][124], k + 1, next, WalkEntry(vol, ffs, x, at).value);
  }

  lemma HeaderInside(vol: Volume, ffs: bool, x: nat, below: Slots)
    requires |vol| < U32_LIMIT && EntryAt(vol, ffs, x, below)
    ensures 0 < x < |vol|
  {
  }

  lemma {:induction false} EntryWalked(vol: Volume, ffs: bool, x: nat, below: Slots, at: Found)
    requires |vol| < U32_LIMIT && EntryAt(vol, ffs, x, below) && x < |vol|
    requires Fresh(at.unseen, DirsBelow(vol, x, below))
    ensures Walked(at, DirsBelow(vol, x, below), WalkEntry(vol, ffs, x, at))
    decreases below, 1
  {
    hide Fresh, Left, Csum, ScanFile, WalkHash, SlotDirs;
    FreshOne(at.unseen, x);
    if vol[x][127] == ST_DIR {
      var lower := SlotDirs(vol, vol[x], 0, below);
      FreshParts(at.unseen, [x], lower);
      SlotsWalked(vol, ffs, vol[x], 72, 0, below, Found(at.unseen - {x}, at.dirs + [x], at.files));
    }
  }

  lemma {:induction false} SlotsWalked(vol: Volume, ffs: bool, b: Block, size: nat, h: nat, t: Slots, at: Found)
    requires |vol| < U32_LIMIT && h <= size <= 72 && SlotsAt(vol, ffs, b, size, h, t)
    requires Fresh(at.unseen, SlotDirs(vol, b, h, t))
    ensures Walked(at, SlotDirs(vol, b, h, t), WalkHash(vol, ffs, b, size, h, at))
    decreases t, 0
  {
    hide Fresh, Left, WalkChain, EntriesAt, EntryDirs;
    match t
    case NoSlot => FreshOne(at.unseen, 0);
    case Slot(entries, rest) =>
      FreshParts(at.unseen, EntryDirs(vol, b[6 + h], entries), SlotDirs(vol, b, h + 1, rest));
      EntriesWalked(vol, ffs, b[6 + h], 0, entries, at);
      SlotsWalked(vol, ffs, b, size, h + 1, rest, WalkChain(vol, ffs, b[6 + h], 0, at).value);
  }

  // ---- what is walked is a tree -----------------------------------------------------------------

  lemma {:induction false} WalkedEntries(vol: Volume, ffs: bool, x: nat, k: nat, at: Found) returns (t: Entries)
    requires |vol| < U32_LIMIT && WalkChain(vol, ffs, x, k, at).Some?
    ensures EntriesAt(vol, ffs, x, k, t) && Fresh(at.unseen, EntryDirs(vol, x, t))
    ensures Walked(at, EntryDirs(vol, x, t), WalkChain(vol, ffs, x, k, at))
    decreases at.unseen, 1, |vol| + 1 - k
  {
    hide Fresh, Left, WalkEntry, EntryAt, DirsBelow;
    FreshOne(at.unseen, 0);
    if x == 0 {
      t := NoEntry;
    } else {
      var below := WalkedEntry(vol, ffs, x, at);
      var mid := WalkEntry(vol, ffs, x, at).value;
      var next := WalkedEntries(vol, ffs, vol[x][124], k + 1, mid);
      t := Entry(below, next);
      FreshParts(at.unseen, DirsBelow(vol, x, below), EntryDirs(vol, vol[x][124], next));
    }
  }

  lemma {:induction false} WalkedEntry(vol: Volume, ffs: bool, x: nat, at: Found) returns (below: Slots)
    requires 0 < x < |vol| < U32_LIMIT && WalkEntry(vol, ffs, x, at).Some?
    ensures EntryAt(vol, ffs, x, below) && Fresh(at.unseen, DirsBelow(vol, x, below))
    ensures Walked(at, DirsBelow(vol, x, below), WalkEntry(vol, ffs, x, at))
    decreases at.unseen, 1, 0
  {
    hide Fresh, Left, Csum, ScanFile, WalkHash, SlotDirs, SlotsAt;
    FreshOne(at.unseen, x);
    below := NoSlot;
    if vol[x][127] == ST_DIR {
      below := WalkedSlots(vol, ffs, vol[x], 72, 0, Found(at.unseen - {x}, at.dirs + [x], at.files));
      FreshParts(at.unseen, [x], SlotDirs(vol, vol[x], 0, below));
    }
  }

  lemma {:induction false} WalkedSlots(vol: Volume, ffs: bool, b: Block, size: nat, h: nat, at: Found)
    returns (t: Slots)
    requires |vol| < U32_LIMIT && h <= size <= 72 && WalkHash(vol, ffs, b, size, h, at).Some?
    ensures SlotsAt(vol, ffs, b, size, h, t) && Fresh(at.unseen, SlotDirs(vol, b, h, t))
    ensures Walked(at, SlotDirs(vol, b, h, t), WalkHash(vol, ffs, b, size, h, at))
    decreases at.unseen, 2, size - h
  {
    hide Fresh, Left, WalkChain, EntriesAt, EntryDirs;
    FreshOne(at.unseen, 0);
    if h == size {
      t := NoSlot;
    } else {
      var entries := WalkedEntries(vol, ffs, b[6 + h], 0, at);
      var mid := WalkChain(vol, ffs, b[6 + h], 0, at).value;
      var rest := WalkedSlots(vol, ffs, b, size, h + 1, mid);
      t := Slot(entries, rest);
      FreshParts(at.unseen, EntryDirs(vol, b[6 + h], entries), SlotDirs(vol, b, h + 1, rest));
    }
  }

  // ---- the bitmap's pages -----------------------------------------------------------------------

  /** The words of a block from lo on, up to the first zero and at most count of them. */
  function Leading(b: Block, lo: nat, count: nat): (r: seq<nat>)
    requires lo + count <= LONGS
    ensures |r| <= count && (|r| < count ==> b[lo + |r|] == 0)
    ensures forall i | 0 <= i < |r| :: r[i] == b[lo + i] && r[i] != 0
    decreases count
  {
    if count == 0 || b[lo] == 0 then [] else [b[lo]] + Leading(b, lo + 1, count - 1)
  }

  lemma {:induction false} ListedIsLeading(b: Block, lo: nat, count: nat, blocks: nat)
    requires lo + count <= LONGS
    ensures Listed(b, lo, count, blocks)
            == if Addresses(Leading(b, lo, count), blocks) then Some(Leading(b, lo, count)) else None
    decreases count
  {
    if count > 0 && b[lo] != 0 {
      ListedIsLeading(b, lo + 1, count - 1, blocks);
      var rest := Leading(b, lo + 1, count - 1);
      AddressesJoin([b[lo] as nat], rest, blocks);
      AddressesOne(b[lo], blocks);
    }
  }

  lemma AddressesOne(x: nat, blocks: nat)
    ensures Addresses([x], blocks) <==> 0 < x < blocks
  {
    assert [x][0] == x;
  }

  lemma AddressesJoin(a: seq<nat>, b: seq<nat>, blocks: nat)
    ensures Addresses(a + b, blocks) <==> Addresses(a, blocks) && Addresses(b, blocks)
  {
    assert forall i | 0 <= i < |a| :: (a + b)[i] == a[i];
    assert forall i | 0 <= i < |b| :: (a + b)[|a| + i] == b[i];
  }

  /** Extension blocks chained by their last words, each inside the volume. */
  predicate Extensions(vol: Volume, ext: nat, exts: seq<nat>)
    decreases exts
  {
    if ext == 0 then exts == []
    else exts != [] && exts[0] == ext < |vol| && Extensions(vol, vol[ext][127], exts[1..])
  }

  /** The bitmap pages that extension blocks list, one block's after another's. */
  function PagesOf(vol: Volume, exts: seq<nat>): seq<nat> {
    if exts == [] || exts[0] >= |vol| then [] else Leading(vol[exts[0]], 0, 127) + PagesOf(vol, exts[1..])
  }

  lemma {:induction false} ExtensionsRead(vol: Volume, ext: nat, guard: nat, exts: seq<nat>)
    requires |vol| < U32_LIMIT && Extensions(vol, ext, exts)
    requires guard + |exts| <= |vol| && Addresses(PagesOf(vol, exts), |vol|)
    ensures ExtPages(vol, ext, guard) == Some(Pages(exts, PagesOf(vol, exts)))
    decreases |exts|
  {
    if ext != 0 {
      ListedIsLeading(vol[ext], 0, 127, |vol|);
      AddressesJoin(Leading(vol[ext], 0, 127), PagesOf(vol, exts[1..]), |vol|);
      ExtensionsRead(vol, vol[ext][127], guard + 1, exts[1..]);
      assert exts == [ext] + exts[1..];
    }
  }

  lemma {:induction false} ReadExtensions(vol: Volume, ext: nat, guard: nat)
    requires |vol| < U32_LIMIT && ExtPages(vol, ext, guard).Some? && guard <= |vol|
    ensures var r := ExtPages(vol, ext, guard).value;
            && Extensions(vol, ext, r.exts) && guard + |r.exts| <= |vol|
            && r.pages == PagesOf(vol, r.exts)
    decreases |vol| + 1 - guard
  {
    if ext != 0 {
      ListedIsLeading(vol[ext], 0, 127, |vol|);
      ReadExtensions(vol, vol[ext][127], guard + 1);
      var rest := ExtPages(vol, vol[ext][127], guard + 1).value;
      assert ([ext] + rest.exts)[1..] == rest.exts;
    }
  }

  /** The pages are those that the root lists, and then those of the extension blocks; it is refused when one lies
      outside the volume, or the chain does or is longer than the volume. */
  lemma PagesExactly(vol: Volume, root: Block, p: Pages)
    requires |vol| < U32_LIMIT
    ensures BitmapPages(vol, root) == Some(p) <==>
              && Extensions(vol, root[104], p.exts) && |p.exts| <= |vol|
              && p.pages == Leading(root, 79, 25) + PagesOf(vol, p.exts) && Addresses(p.pages, |vol|)
  {
    hide Leading, Extensions, PagesOf, ExtPages, Listed, Addresses;
    ListedIsLeading(root, 79, 25, |vol|);
    AddressesJoin(Leading(root, 79, 25), PagesOf(vol, p.exts), |vol|);
    if BitmapPages(vol, root) == Some(p) {
      ReadExtensions(vol, root[104], 0);
    } else if Extensions(vol, root[104], p.exts) && |p.exts| <= |vol| && Addresses(PagesOf(vol, p.exts), |vol|) {
      ExtensionsRead(vol, root[104], 0, p.exts);
    }
  }

  // ---- a volume ---------------------------------------------------------------------------------

  /** Every page that is needed is there and has its checksum. */
  predicate BitmapWhole(vol: Volume, pages: seq<nat>)
    requires |vol| >= 2 && Addresses(pages, |vol|)
  {
    |vol| - 2 <= PAGE_BITS * |pages|
    && forall i | 0 <= i < |pages| && i * PAGE_BITS < |vol| - 2 :: vol[pages[i]][0] == Csum(vol[pages[i]], 0)
  }

  lemma BitmapReads(vol: Volume, pages: seq<nat>)
    requires |vol| >= 2 && Addresses(pages, |vol|)
    ensures ReadFree(vol, pages).Some? <==> BitmapWhole(vol, pages)
  {
    hide Csum, FreeBit;
    var needed := Needed(|vol|);
    assert forall i: nat :: i < needed <==> i * PAGE_BITS < |vol| - 2;
  }

  /** The root block in the middle of the volume. */
  predicate RootOk(vol: Volume) {
    20 <= |vol| < U32_LIMIT && BlockOk(vol[|vol| / 2], T_SHORT, ST_ROOT, 5)
  }

  /** How many slots of the root's table are in use. */
  function RootSlots(b: Block): nat {
    if b[3] < 72 then b[3] else 72
  }

  /** FFS volumes have an odd last byte in the boot word. */
  ghost predicate TreeAt(vol: Volume, t: Slots)
    requires RootOk(vol)
  {
    var root := |vol| / 2;
    && SlotsAt(vol, vol[0][0] % 2 == 1, vol[root], RootSlots(vol[root]), 0, t)
    && Fresh(All(vol) - {root}, SlotDirs(vol, vol[root], 0, t))
  }

  ghost predicate PagesAt(vol: Volume, p: Pages)
    requires RootOk(vol)
  {
    BitmapPages(vol, vol[|vol| / 2]) == Some(p) && BitmapWhole(vol, p.pages)
  }

  /** A volume is scanned if and only if its boot word is one of the eight from DOS 0 to DOS 7, its root block is in the
      middle, its bitmap is whole, and its directories are a tree of good entries. */
  lemma ScansExactly(vol: Volume)
    ensures Scan(vol).Some? <==>
              && RootOk(vol) && 0x444f_5300 <= vol[0][0] <= 0x444f_5307
              && (exists p :: PagesAt(vol, p)) && exists t :: TreeAt(vol, t)
  {
    hide BlockOk, BitmapPages, ReadFree, BitmapWhole, WalkHash, SlotsAt, SlotDirs, Fresh, Left, TreeAt, FreeBit;
    if RootOk(vol) && 0x444f_5300 <= vol[0][0] <= 0x444f_5307 {
      var root := |vol| / 2;
      TreeExactly(vol);
      if BitmapPages(vol, vol[root]).Some? {
        var p := BitmapPages(vol, vol[root]).value;
        BitmapReads(vol, p.pages);
        assert PagesAt(vol, p) <==> ReadFree(vol, p.pages).Some?;
      }
    }
  }

  lemma TreeExactly(vol: Volume)
    requires RootOk(vol)
    ensures WalkDir(vol, vol[0][0] % 2 == 1, |vol| / 2, true, Found(All(vol), [], [])).Some?
            <==> exists t :: TreeAt(vol, t)
  {
    hide BlockOk, WalkHash, SlotsAt, SlotDirs, Fresh, Left;
    var root, ffs := |vol| / 2, vol[0][0] % 2 == 1;
    var b, at := vol[root], Found(All(vol) - {root}, [root], []);
    assert [] + [root] == [root];
    if WalkHash(vol, ffs, b, RootSlots(b), 0, at).Some? {
      var t := WalkedSlots(vol, ffs, b, RootSlots(b), 0, at);
      assert TreeAt(vol, t);
    } else if t :| TreeAt(vol, t) {
      SlotsWalked(vol, ffs, b, RootSlots(b), 0, t, at);
    }
  }

  // ---- the check after building -----------------------------------------------------------------

  /** The blocks behind a file, a tenth of it rounded up, are in the volume and free. */
  ghost predicate TenthFree(free: seq<bool>, f: File)
    requires f.data != []
  {
    var end := f.data[0] + |f.data|;
    forall n | end <= n && 10 * (n - end) < |f.data| :: FreeAt(free, n)
  }

  predicate FreeAt(free: seq<bool>, n: int) {
    0 <= n < |free| && free[n]
  }

  /** The layout is accepted if and only if the volume scans, every file is one run, and, where growth is asked for, the
      tenth behind every file with data is free. */
  lemma LaidOutExactly(vol: Volume, growth: bool)
    ensures VerifyLayout(vol, growth) <==>
              && Scan(vol).Some?
              && forall i | 0 <= i < |Scan(vol).value.files| ::
                   var f := Scan(vol).value.files[i];
                   && (forall j | 0 < j < |f.data| :: f.data[j] == f.data[0] + j)
                   && (growth && f.data != [] ==> TenthFree(Scan(vol).value.free, f))
  {
    hide Scan, TenthFree, FileLaidOut;
    if Scan(vol).Some? {
      forall i | 0 <= i < |Scan(vol).value.files| ensures var f := Scan(vol).value.files[i];
        FileLaidOut(Scan(vol).value.free, growth, f) <==>
          && (forall j | 0 < j < |f.data| :: f.data[j] == f.data[0] + j)
          && (growth && f.data != [] ==> TenthFree(Scan(vol).value.free, f))
      {
        FileExactlyLaid(Scan(vol).value.free, growth, Scan(vol).value.files[i]);
      }
    }
  }

  lemma FileExactlyLaid(free: seq<bool>, growth: bool, f: File)
    ensures FileLaidOut(free, growth, f) <==>
              && (forall j | 0 < j < |f.data| :: f.data[j] == f.data[0] + j)
              && (growth && f.data != [] ==> TenthFree(free, f))
  {
    hide Fragments;
    OneRun(f.data);
    ReserveIsTenth(|f.data|);
    if f.data != [] && forall j | 0 < j < |f.data| :: f.data[j] == f.data[0] + j {
      var end := f.data[0] + |f.data|;
      assert f.data[|f.data| - 1] + 1 == end;
      if TenthFree(free, f) && growth {
        forall k | end <= k < end + Reserve(growth, |f.data|) ensures k < |free| && free[k] {
          TenthBelow(growth, |f.data|, k - end);
          assert FreeAt(free, k);
        }
      }
    }
  }

  lemma TenthBelow(growth: bool, need: nat, k: nat)
    ensures k < Reserve(growth, need) <==> growth && 10 * k < need
  {
  }
}
