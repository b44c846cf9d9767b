/** Which directories and files a scan finds: those that table words and chain words lead to from the root block. */
module AffsReach {
  import opened Wrappers
  import opened Bytes
  import opened AffsBlocks
  import opened AffsVolume
  import opened AffsStage

  const TABLE := 6
  const NEXT := 124
  const SUBTYPE := 127

  /** How many words the hash table of a directory has. */
  function Slots(b: Block): nat {
    if b[SUBTYPE] == ST_ROOT && b[3] < 72 then b[3] else 72
  }

  /** A word of block a names block b: a slot of the root's or a directory's table, or the next entry of a slot. */
  predicate Link(vol: Volume, a: nat, b: nat) {
    && a < |vol| && b != 0
    && (|| ((vol[a][SUBTYPE] == ST_ROOT || vol[a][SUBTYPE] == ST_DIR)
             && exists h: nat :: h < Slots(vol[a]) && InSlot(vol[a], h, b))
        || ((vol[a][SUBTYPE] == ST_DIR || vol[a][SUBTYPE] == ST_FILE) && vol[a][NEXT] == b))
  }

  predicate InSlot(a: Block, h: nat, b: nat) {
    h < 72 && a[TABLE + h] == b
  }

  /** Each block of a path names the next. */
  predicate Path(vol: Volume, path: seq<nat>) {
    path != [] && forall i | 0 <= i < |path| - 1 :: Link(vol, path[i], path[i + 1])
  }

  ghost predicate Reached(vol: Volume, root: nat, b: nat) {
    exists path :: Path(vol, path) && path[0] == root && path[|path| - 1] == b
  }

  lemma ReachedStart(vol: Volume, root: nat)
    ensures Reached(vol, root, root)
  {
    assert Path(vol, [root]);
  }

  lemma ReachedNext(vol: Volume, root: nat, a: nat, b: nat)
    requires Reached(vol, root, a) && Link(vol, a, b)
    ensures Reached(vol, root, b)
  {
    hide Link;
    var path :| Path(vol, path) && path[0] == root && path[|path| - 1] == a;
    var more := path + [b];
    assert forall i | 0 <= i < |path| :: more[i] == path[i];
    assert Path(vol, more);
  }

  // ---- what has been found ----------------------------------------------------------------------

  predicate HasFile(files: seq<File>, b: nat) {
    exists i | 0 <= i < |files| :: files[i].header == b
  }

  predicate Has(at: Found, b: nat) {
    b in at.dirs || HasFile(at.files, b)
  }

  lemma HasMore(a: Found, b: Found, x: nat)
    requires Extends(a, b) && Has(a, x)
    ensures Has(b, x)
  {
    if x in a.dirs {
      var i :| 0 <= i < |a.dirs| && a.dirs[i] == x;
      assert b.dirs[i] == x;
    } else {
      var i :| 0 <= i < |a.files| && a.files[i].header == x;
      assert b.files[i].header == x;
    }
  }

  /** Everything found is reached, and has the subtype it is listed for. */
  ghost predicate AllReached(vol: Volume, root: nat, at: Found) {
    && (forall d | d in at.dirs ::
          d < |vol| && (vol[d][SUBTYPE] == ST_ROOT || vol[d][SUBTYPE] == ST_DIR) && Reached(vol, root, d))
    && (forall i | 0 <= i < |at.files| ::
          && at.files[i].header < |vol| && vol[at.files[i].header][SUBTYPE] == ST_FILE
          && Reached(vol, root, at.files[i].header))
  }

  /** Everything a block's table names has been found. */
  predicate TableFound(vol: Volume, at: Found, d: nat) {
    d < |vol| && forall h: nat | h < Slots(vol[d]) :: SlotFound(vol, at, d, h)
  }

  predicate SlotFound(vol: Volume, at: Found, d: nat, h: nat) {
    d < |vol| && h < 72 && (vol[d][TABLE + h] == 0 || Has(at, vol[d][TABLE + h]))
  }

  predicate NextFound(vol: Volume, at: Found, x: nat) {
    x < |vol| && (vol[x][NEXT] == 0 || Has(at, vol[x][NEXT]))
  }

  /** What a walk has added is complete: the tables of its directories, and the chains its entries are in, but for
      the entry except. */
  ghost predicate Closed(vol: Volume, a: Found, b: Found, except: Option<nat>) {
    && Extends(a, b)
    && (forall i | |a.dirs| <= i < |b.dirs| ::
          TableFound(vol, b, b.dirs[i]) && (except == Some(b.dirs[i]) || NextFound(vol, b, b.dirs[i])))
    && (forall i | |a.files| <= i < |b.files| ::
          except == Some(b.files[i].header) || NextFound(vol, b, b.files[i].header))
  }

  lemma FoundMore(vol: Volume, a: Found, b: Found, x: nat)
    requires Extends(a, b)
    ensures TableFound(vol, a, x) ==> TableFound(vol, b, x)
    ensures NextFound(vol, a, x) ==> NextFound(vol, b, x)
    ensures forall h: nat | SlotFound(vol, a, x, h) :: SlotFound(vol, b, x, h)
  {
    hide Has, Extends;
    forall y | Has(a, y) ensures Has(b, y) {
      HasMore(a, b, y);
    }
    if TableFound(vol, a, x) {
      forall h: nat | h < Slots(vol[x]) ensures SlotFound(vol, b, x, h) {
        assert SlotFound(vol, a, x, h);
      }
    }
  }

  lemma ClosedTrans(vol: Volume, a: Found, b: Found, c: Found)
    requires Closed(vol, a, b, None) && Closed(vol, b, c, None)
    ensures Closed(vol, a, c, None)
  {
    hide TableFound, NextFound;
    forall x ensures TableFound(vol, b, x) ==> TableFound(vol, c, x)
      ensures NextFound(vol, b, x) ==> NextFound(vol, c, x) {
      FoundMore(vol, b, c, x);
    }
    forall i | |a.dirs| <= i < |c.dirs| ensures TableFound(vol, c, c.dirs[i]) && NextFound(vol, c, c.dirs[i]) {
      if i < |b.dirs| { assert c.dirs[i] == b.dirs[i]; }
    }
    forall i | |a.files| <= i < |c.files| ensures NextFound(vol, c, c.files[i].header) {
      if i < |b.files| { assert c.files[i] == b.files[i]; }
    }
  }

  /** One entry, and then the rest of its chain. */
  lemma EntryThenChain(vol: Volume, a: Found, b: Found, c: Found, x: nat)
    requires x < |vol| && Closed(vol, a, b, Some(x)) && Closed(vol, b, c, None)
    requires vol[x][NEXT] == 0 || Has(c, vol[x][NEXT])
    ensures Closed(vol, a, c, None)
  {
    hide TableFound, Has;
    forall y ensures TableFound(vol, b, y) ==> TableFound(vol, c, y)
      ensures NextFound(vol, b, y) ==> NextFound(vol, c, y) {
      FoundMore(vol, b, c, y);
    }
    assert NextFound(vol, c, x);
    forall i | |a.dirs| <= i < |c.dirs| ensures TableFound(vol, c, c.dirs[i]) && NextFound(vol, c, c.dirs[i]) {
      if i < |b.dirs| { assert c.dirs[i] == b.dirs[i]; }
    }
    forall i | |a.files| <= i < |c.files| ensures NextFound(vol, c, c.files[i].header) {
      if i < |b.files| { assert c.files[i] == b.files[i]; }
    }
  }

  // ---- the walk ---------------------------------------------------------------------------------

  lemma {:induction false} DirReaches(vol: Volume, ffs: bool, blk: nat, isRoot: bool, at: Found, root: nat)
    requires |vol| < U32_LIMIT && WalkDir(vol, ffs, blk, isRoot, at).Some?
    requires AllReached(vol, root, at) && Reached(vol, root, blk)
    ensures var r := WalkDir(vol, ffs, blk, isRoot, at).value;
            AllReached(vol, root, r) && Closed(vol, at, r, Some(blk)) && Has(r, blk)
    decreases at.unseen, 0, 0
  {
    hide Closed, AllReached, Reached, Link, Has, SlotFound, BlockOk;
    var b := vol[blk];
    var next := Found(at.unseen - {blk}, at.dirs + [blk], at.files);
    DirEntered(vol, ffs, blk, isRoot, at, root);
    HashReaches(vol, ffs, blk, Slots(b), 0, next, root);
    var r := WalkDir(vol, ffs, blk, isRoot, at).value;
    DirClosed(vol, blk, at, r);
  }

  lemma DirEntered(vol: Volume, ffs: bool, blk: nat, isRoot: bool, at: Found, root: nat)
    requires |vol| < U32_LIMIT && WalkDir(vol, ffs, blk, isRoot, at).Some?
    requires AllReached(vol, root, at) && Reached(vol, root, blk)
    ensures blk < |vol| && blk in at.unseen && (vol[blk][SUBTYPE] == ST_ROOT || vol[blk][SUBTYPE] == ST_DIR)
    ensures var next := Found(at.unseen - {blk}, at.dirs + [blk], at.files);
            && AllReached(vol, root, next)
            && WalkDir(vol, ffs, blk, isRoot, at) == WalkHash(vol, ffs, vol[blk], Slots(vol[blk]), 0, next)
  {
    hide Reached, WalkHash;
  }

  lemma DirClosed(vol: Volume, blk: nat, at: Found, r: Found)
    requires blk < |vol| && Closed(vol, Found(at.unseen - {blk}, at.dirs + [blk], at.files), r, None)
    requires forall h: nat | h < Slots(vol[blk]) :: SlotFound(vol, r, blk, h)
    ensures Closed(vol, at, r, Some(blk)) && Has(r, blk)
  {
    hide SlotFound;
    assert r.dirs[|at.dirs|] == blk;
  }

  lemma {:induction false} HashReaches(vol: Volume, ffs: bool, blk: nat, size: nat, h: nat, at: Found, root: nat)
    requires blk < |vol| < U32_LIMIT && h <= size == Slots(vol[blk])
    requires WalkHash(vol, ffs, vol[blk], size, h, at).Some?
    requires AllReached(vol, root, at) && Reached(vol, root, blk)
    requires vol[blk][SUBTYPE] == ST_ROOT || vol[blk][SUBTYPE] == ST_DIR
    ensures var r := WalkHash(vol, ffs, vol[blk], size, h, at).value;
            && AllReached(vol, root, r) && Closed(vol, at, r, None)
            && forall k: nat | h <= k < size :: SlotFound(vol, r, blk, k)
    decreases at.unseen, 2, size - h
  {
    hide AllReached, Reached, Has;
    if h < size {
      var x: nat := vol[blk][TABLE + h];
      if x != 0 {
        assert InSlot(vol[blk], h, x) && Link(vol, blk, x);
        ReachedNext(vol, root, blk, x);
      }
      ChainReaches(vol, ffs, x, 0, at, root);
      var next := WalkChain(vol, ffs, x, 0, at).value;
      HashReaches(vol, ffs, blk, size, h + 1, next, root);
      var r := WalkHash(vol, ffs, vol[blk], size, h + 1, next).value;
      ClosedTrans(vol, at, next, r);
      FoundMore(vol, next, r, blk);
      assert SlotFound(vol, next, blk, h);
    }
  }

  lemma {:induction false} ChainReaches(vol: Volume, ffs: bool, x: nat, chain: nat, at: Found, root: nat)
    requires |vol| < U32_LIMIT && WalkChain(vol, ffs, x, chain, at).Some?
    requires AllReached(vol, root, at) && (x == 0 || Reached(vol, root, x))
    ensures var r := WalkChain(vol, ffs, x, chain, at).value;
            AllReached(vol, root, r) && Closed(vol, at, r, None) && (x == 0 || Has(r, x))
    decreases at.unseen, 1, |vol| + 1 - chain
  {
    hide AllReached, Reached, Has, TableFound, NextFound, ScanFile, Csum;
    if x != 0 {
      EntryReaches(vol, ffs, x, at, root);
      var next := WalkEntry(vol, ffs, x, at).value;
      var y: nat := vol[x][NEXT];
      if y != 0 {
        assert Link(vol, x, y);
        ReachedNext(vol, root, x, y);
      }
      ChainReaches(vol, ffs, y, chain + 1, next, root);
      var r := WalkChain(vol, ffs, y, chain + 1, next).value;
      EntryThenChain(vol, at, next, r, x);
      HasMore(next, r, x);
    }
  }

  lemma {:induction false} EntryReaches(vol: Volume, ffs: bool, x: nat, at: Found, root: nat)
    requires x < |vol| < U32_LIMIT && WalkEntry(vol, ffs, x, at).Some?
    requires AllReached(vol, root, at) && Reached(vol, root, x)
    ensures var r := WalkEntry(vol, ffs, x, at).value;
            AllReached(vol, root, r) && Closed(vol, at, r, Some(x)) && Has(r, x)
    ensures vol[x][SUBTYPE] == ST_DIR || vol[x][SUBTYPE] == ST_FILE
    decreases at.unseen, 1, 0
  {
    hide Reached, Csum, Link;
    if vol[x][SUBTYPE] == ST_FILE {
      var f := ScanFile(vol, ffs, x).value;
      var r := WalkEntry(vol, ffs, x, at).value;
      assert r.files == at.files + [f] && r.files[|at.files|].header == x;
    } else {
      DirReaches(vol, ffs, x, false, at, root);
    }
  }

  // ---- the whole scan ---------------------------------------------------------------------------

  /** All links of what has been found lead to what has been found. */
  ghost predicate Complete(vol: Volume, at: Found) {
    forall a: nat, b: nat | Has(at, a) && Link(vol, a, b) :: Has(at, b)
  }

  lemma ClosedIsComplete(vol: Volume, root: nat, a: Found, r: Found)
    requires root < |vol| && a.dirs == [] && a.files == [] && Closed(vol, a, r, Some(root)) && AllReached(vol, root, r)
    requires vol[root][SUBTYPE] == ST_ROOT
    ensures Complete(vol, r)
  {
    hide Reached;
    forall x: nat, y: nat | Has(r, x) && Link(vol, x, y) ensures Has(r, y) {
      if x in r.dirs {
        var i :| 0 <= i < |r.dirs| && r.dirs[i] == x;
        assert TableFound(vol, r, x);
        if h: nat :| h < Slots(vol[x]) && InSlot(vol[x], h, y) {
          assert SlotFound(vol, r, x, h);
        }
      } else {
        var i :| 0 <= i < |r.files| && r.files[i].header == x;
      }
    }
  }

  lemma {:induction false} PathFound(vol: Volume, at: Found, path: seq<nat>)
    requires Complete(vol, at) && Path(vol, path) && Has(at, path[0])
    ensures Has(at, path[|path| - 1])
  {
    hide Link, Has;
    if |path| > 1 {
      var front := path[..|path| - 1];
      assert forall i | 0 <= i < |front| :: front[i] == path[i];
      PathFound(vol, at, front);
      assert Link(vol, path[|path| - 2], path[|path| - 1]);
    }
  }

  lemma ReachedFound(vol: Volume, root: nat, at: Found, b: nat)
    requires Complete(vol, at) && Has(at, root) && Reached(vol, root, b)
    ensures Has(at, b)
  {
    hide Complete, Link, Has;
    var path :| Path(vol, path) && path[0] == root && path[|path| - 1] == b;
    PathFound(vol, at, path);
  }

  /** A scan that succeeds lists exactly the blocks reached from the root: as directories those with the subtype of the
      root or of a directory, as file headers those with the subtype of a file; and no reached block has another. */
  lemma ScanFindsReached(vol: Volume, c: Catalogue)
    requires Scan(vol) == Some(c)
    ensures 20 <= |vol|
    ensures forall b: nat :: Reached(vol, |vol| / 2, b) <==> b in c.dirs || b in Headers(c.files)
    ensures forall b: nat | b in c.dirs :: b < |vol| && (vol[b][SUBTYPE] == ST_ROOT || vol[b][SUBTYPE] == ST_DIR)
    ensures forall b: nat | b in Headers(c.files) :: b < |vol| && vol[b][SUBTYPE] == ST_FILE
  {
    hide Reached, Link, Closed, Complete, WalkDir, ScanFile;
    var root := |vol| / 2;
    var at := Found(All(vol), [], []);
    var r := WalkedScan(vol, c);
    ReachedStart(vol, root);
    DirReaches(vol, c.ffs, root, true, at, root);
    ClosedIsComplete(vol, root, at, r);
    forall b: nat ensures b in Headers(c.files) <==> HasFile(r.files, b) {
      HeadersAre(r.files, b);
    }
    forall b: nat ensures Reached(vol, root, b) <==> b in c.dirs || b in Headers(c.files) {
      if Reached(vol, root, b) { ReachedFound(vol, root, r, b); }
    }
  }

  lemma WalkedScan(vol: Volume, c: Catalogue) returns (r: Found)
    requires Scan(vol) == Some(c)
    ensures 20 <= |vol| < U32_LIMIT && vol[|vol| / 2][SUBTYPE] == ST_ROOT
    ensures WalkDir(vol, c.ffs, |vol| / 2, true, Found(All(vol), [], [])) == Some(r)
    ensures r.dirs == c.dirs && r.files == c.files
  {
    hide WalkDir, BitmapPages, ReadFree;
    r := WalkDir(vol, c.ffs, |vol| / 2, true, Found(All(vol), [], [])).value;
  }

  lemma HeadersAre(files: seq<File>, b: nat)
    ensures b in Headers(files) <==> HasFile(files, b)
  {
    if i :| 0 <= i < |files| && files[i].header == b { assert Headers(files)[i] == b; }
  }

  // ---- one file ---------------------------------------------------------------------------------

  /** Pointers in the blocks before the i-th: word 2 of a block counts its own. */
  function PointersBefore(vol: Volume, owners: seq<nat>, i: nat): nat
    requires i <= |owners| && forall k | 0 <= k < |owners| :: owners[k] < |vol|
  {
    if i == 0 then 0 else PointersBefore(vol, owners, i - 1) + vol[owners[i - 1]][2]
  }

  /** The data blocks are the pointers of these blocks one after another, each block's from word 77 down. */
  ghost predicate PointedTo(vol: Volume, owners: seq<nat>, data: seq<nat>) {
    && (forall k | 0 <= k < |owners| :: owners[k] < |vol| && vol[owners[k]][2] <= 72)
    && |data| == PointersBefore(vol, owners, |owners|)
    && forall i, k | 0 <= i < |owners| && 0 <= k < vol[owners[i]][2] :: PointerAt(vol, owners, data, i, k)
  }

  ghost predicate PointerAt(vol: Volume, owners: seq<nat>, data: seq<nat>, i: nat, k: nat)
    requires i < |owners| && k < 72 && forall j | 0 <= j < |owners| :: owners[j] < |vol|
  {
    var p := PointersBefore(vol, owners, i) + k;
    p < |data| && data[p] == vol[owners[i]][77 - k]
  }

  /** Each block's word 126 names the next one; the last one's is zero. */
  ghost predicate Linked(vol: Volume, first: nat, lists: seq<nat>) {
    && (lists == [] <==> first == 0) && (lists != [] ==> lists[0] == first)
    && (forall i | 0 <= i < |lists| :: lists[i] < |vol|) && forall i: nat | i < |lists| :: LinkIs(vol, lists, i)
  }

  predicate LinkIs(vol: Volume, lists: seq<nat>, i: nat)
    requires i < |lists|
  {
    lists[i] < |vol| && vol[lists[i]][126] == if i + 1 < |lists| then lists[i + 1] else 0
  }

  lemma LinkedMore(vol: Volume, x: nat, rest: seq<nat>)
    requires 0 < x < |vol| && Linked(vol, vol[x][126], rest)
    ensures Linked(vol, x, [x] + rest)
  {
    var lists := [x] + rest;
    forall i: nat | i < |lists| ensures LinkIs(vol, lists, i) {
      if i > 0 { assert LinkIs(vol, rest, i - 1) && lists[i] == rest[i - 1]; }
    }
  }

  lemma {:induction false} BeforeShift(vol: Volume, x: nat, owners: seq<nat>, i: nat)
    requires x < |vol| && i <= |owners| && forall k | 0 <= k < |owners| :: owners[k] < |vol|
    ensures PointersBefore(vol, [x] + owners, i + 1) == vol[x][2] + PointersBefore(vol, owners, i)
  {
    if i > 0 {
      BeforeShift(vol, x, owners, i - 1);
      assert ([x] + owners)[i] == owners[i - 1];
    } else {
      assert PointersBefore(vol, [x] + owners, 0) == 0;
    }
  }

  lemma PointedMore(vol: Volume, x: nat, owners: seq<nat>, data: seq<nat>)
    requires x < |vol| && vol[x][2] <= 72 && PointedTo(vol, owners, data)
    ensures PointedTo(vol, [x] + owners, Table(vol[x], vol[x][2]) + data)
  {
    hide PointersBefore;
    var all, more := [x] + owners, Table(vol[x], vol[x][2]) + data;
    BeforeShift(vol, x, owners, |owners|);
    NoneBefore(vol, all);
    forall i, k | 0 <= i < |all| && 0 <= k < vol[all[i]][2] ensures PointerAt(vol, all, more, i, k) {
      if i > 0 {
        assert all[i] == owners[i - 1];
        assert PointerAt(vol, owners, data, i - 1, k);
        BeforeShift(vol, x, owners, i - 1);
      }
    }
  }

  lemma NoneBefore(vol: Volume, owners: seq<nat>)
    requires forall k | 0 <= k < |owners| :: owners[k] < |vol|
    ensures PointersBefore(vol, owners, 0) == 0
  {
  }

  lemma {:induction false} ListsTold(vol: Volume, ext: nat, guard: nat)
    requires |vol| < U32_LIMIT && ListChain(vol, ext, guard).Some?
    ensures var c := ListChain(vol, ext, guard).value;
            && Linked(vol, ext, c.lists) && PointedTo(vol, c.lists, c.data)
            && forall i | 0 <= i < |c.lists| ::
                 BlockOk(vol[c.lists[i]], T_LIST, ST_FILE, 5) && vol[c.lists[i]][1] == c.lists[i]
    decreases |vol| + 1 - guard
  {
    hide Csum, PointedTo, LinkIs;
    if ext != 0 {
      var rest := ListChain(vol, vol[ext][126], guard + 1).value;
      ListsTold(vol, vol[ext][126], guard + 1);
      PointedMore(vol, ext, rest.lists, rest.data);
      LinkedMore(vol, ext, rest.lists);
    } else {
      NothingPointed(vol);
    }
  }

  lemma NothingPointed(vol: Volume)
    ensures PointedTo(vol, [], [])
  {
  }

  /** A catalogued file: its size is its header's word 81; its list blocks are chained by word 126 from the header on;
      its data blocks are the pointers of header and list blocks in order, as many as the size asks for. */
  lemma FileTold(vol: Volume, ffs: bool, blk: nat)
    requires blk < |vol| < U32_LIMIT && ScanFile(vol, ffs, blk).Some?
    ensures var f := ScanFile(vol, ffs, blk).value;
            && f.header == blk && f.size == vol[blk][81]
            && Linked(vol, vol[blk][126], f.lists) && PointedTo(vol, [blk] + f.lists, f.data)
            && (forall i | 0 <= i < |f.data| :: 0 < f.data[i] < |vol|)
            && (forall i | 0 <= i < |f.lists| :: vol[f.lists[i]][0] == T_LIST && vol[f.lists[i]][1] == f.lists[i])
            && (f.size + (if ffs then 512 else 488) < U32_LIMIT ==>
                  (if ffs then 512 else 488) * |f.data| - (if ffs then 512 else 488) < f.size
                  <= (if ffs then 512 else 488) * |f.data|)
  {
    hide PointedTo, Csum, Wanted, Linked;
    var f := ScanFile(vol, ffs, blk).value;
    if f.size + (if ffs then 512 else 488) < U32_LIMIT { WantedHolds(ffs, f.size); }
    ListsTold(vol, vol[blk][126], 0);
    var rest := ListChain(vol, vol[blk][126], 0).value;
    PointedMore(vol, blk, rest.lists, rest.data);
  }

  /** The fewest blocks that hold so many bytes. */
  lemma WantedHolds(ffs: bool, size: nat)
    requires size + (if ffs then 512 else 488) < U32_LIMIT
    ensures var payload := if ffs then 512 else 488;
            payload * Wanted(ffs, size) - payload < size <= payload * Wanted(ffs, size)
  {
  }

  /** So is every file that a scan lists. */
  lemma FilesTold(vol: Volume, c: Catalogue, i: nat)
    requires Scan(vol) == Some(c) && i < |c.files|
    ensures |vol| < U32_LIMIT
    ensures var f := c.files[i];
            && f.header < |vol| && f.size == vol[f.header][81]
            && Linked(vol, vol[f.header][126], f.lists) && PointedTo(vol, [f.header] + f.lists, f.data)
  {
    hide Linked, PointedTo, ScanFile, Scan;
    ScanFits(vol, c);
    FileTold(vol, c.ffs, c.files[i].header);
  }
}
