/** Building the Amiga working image: first-fit placement of every file in scan order, with its growth reserve. */
module AffsStage {
  import opened Wrappers
  import opened Bytes
  import opened AffsBlocks
  import opened AffsVolume
  import opened AffsBitmap
  import opened AffsRescan

  const GROWTH := 10

  function Reserve(growth: bool, need: nat): nat {
    if growth && need > 0 then (need * GROWTH + 99) / 100 else 0
  }

  /** A tenth of the file, rounded up. */
  lemma ReserveIsTenth(need: nat)
    ensures need <= 10 * Reserve(true, need) < need + 10
    ensures Reserve(false, need) == 0
  {
  }

  // ---- first fit --------------------------------------------------------------------------------

  predicate Clear(fixed: seq<bool>, s: nat, n: nat)
    requires s + n <= |fixed|
  {
    forall i | s <= i < s + n :: !fixed[i]
  }

  /** The first place from s on with total clear blocks. */
  function Fit(fixed: seq<bool>, total: nat, s: nat): (r: Option<nat>)
    ensures r.Some? ==> s <= r.value && r.value + total <= |fixed| && Clear(fixed, r.value, total)
    ensures forall t | s <= t && t + total <= |fixed| && (r.Some? ==> t < r.value) :: !Clear(fixed, t, total)
    decreases |fixed| - s
  {
    if s + total > |fixed| then None
    else if Clear(fixed, s, total) then Some(s)
    else Fit(fixed, total, s + 1)
  }

  // ---- one file ---------------------------------------------------------------------------------

  /** disk is the working image, free and fixed its maps, starts the places chosen so far. */
  datatype Stage = Stage(disk: Volume, free: seq<bool>, fixed: seq<bool>, starts: seq<nat>)

  predicate Sized(st: Stage, blocks: nat) {
    |st.disk| == |st.free| == |st.fixed| == blocks
  }

  /** A file of a scanned volume. */
  predicate FileFits(f: File, blocks: nat) {
    && f.header < blocks < U32_LIMIT && Addresses(f.data, blocks) && Addresses(f.lists, blocks)
    && |f.data| <= PTRS * (1 + |f.lists|)
  }

  /** The data blocks carried over into one run. */
  function Carried(src: Volume, disk: Volume, ffs: bool, f: File, start: nat): (r: Volume)
    requires |src| == |disk| && FileFits(f, |disk|) && start + |f.data| <= |disk|
    ensures |r| == |disk|
  {
    seq(|disk|, n requires 0 <= n < |disk| => CarriedBlock(src, disk, ffs, f, start, n))
  }

  function CarriedBlock(src: Volume, disk: Volume, ffs: bool, f: File, start: nat, n: nat): Block
    requires |src| == |disk| && FileFits(f, |disk|) && start + |f.data| <= |disk| && n < |disk|
  {
    if start <= n < start + |f.data| then Moved(ffs, src[f.data[n - start]], f.header, n - start, |f.data|, start)
        else disk[n]
  }

  /** The list blocks from number i on refilled. */
  function RefillFrom(disk: Volume, lists: seq<nat>, dest: seq<nat>, i: nat): (r: Volume)
    requires |disk| < U32_LIMIT && Addresses(lists, |disk|) && Addresses(dest, |disk|)
    ensures |r| == |disk|
    decreases |lists| - i
  {
    if i >= |lists| then disk
    else RefillFrom(disk[lists[i] := WithPointers(disk[lists[i]], false, Chunk(dest, i + 1))], lists, dest, i + 1)
  }

  /** The header and list blocks made to point at dest. */
  function Repointed(disk: Volume, f: File, dest: seq<nat>): (r: Volume)
    requires FileFits(f, |disk|) && Addresses(dest, |disk|)
    ensures |r| == |disk|
  {
    RefillFrom(disk[f.header := WithPointers(disk[f.header], true, Chunk(dest, 0))], f.lists, dest, 0)
  }

  function Marked(map_: seq<bool>, start: nat, n: nat, value: bool): (r: seq<bool>)
    ensures |r| == |map_|
  {
    seq(|map_|, i requires 0 <= i < |map_| => if start <= i < start + n then value else map_[i])
  }

  function Place(src: Volume, ffs: bool, growth: bool, st: Stage, f: File): (r: Option<Stage>)
    requires Sized(st, |src|) && FileFits(f, |src|)
    ensures r.Some? ==>
              Sized(r.value, |src|) && |r.value.starts| == |st.starts| + 1
              && r.value.starts[..|st.starts|] == st.starts
  {
    var need, reserve := |f.data|, Reserve(growth, |f.data|);
    if need == 0 then Some(st.(disk := Repointed(st.disk, f, []), starts := st.starts + [0]))
    else
      match Fit(st.fixed, need + reserve, 2)
      case None => None
      case Some(start) =>
        var disk := Repointed(Carried(src, st.disk, ffs, f, start), f, Run(start, need));
        var free := Marked(Marked(st.free, start, need, false), start + need, reserve, true);
        Some(Stage(disk, free, Marked(st.fixed, start, need + reserve, true), st.starts + [start]))
  }

  predicate AllFit(files: seq<File>, blocks: nat) {
    forall i | 0 <= i < |files| :: FileFits(files[i], blocks)
  }

  /** After the first k files. */
  function PlaceFirst(src: Volume, ffs: bool, growth: bool, st: Stage, files: seq<File>, k: nat): (r: Option<Stage>)
    requires Sized(st, |src|) && AllFit(files, |src|) && k <= |files| && st.starts == []
    ensures r.Some? ==> Sized(r.value, |src|) && |r.value.starts| == k
  {
    if k == 0 then Some(st)
    else
      match PlaceFirst(src, ffs, growth, st, files, k - 1)
      case None => None
      case Some(mid) => Place(src, ffs, growth, mid, files[k - 1])
  }

  // ---- the whole image --------------------------------------------------------------------------

  /** The working image starts as a copy of the allocated blocks. */
  function Copied(vol: Volume, free: seq<bool>): (r: Volume)
    requires |free| == |vol|
    ensures |r| == |vol|
  {
    seq(|vol|, n requires 0 <= n < |vol| => if free[n] then ZERO else vol[n])
  }

  /** Free for placement: what is free, and what files occupy now. */
  function Cleared(c: Catalogue): (r: seq<bool>)
    ensures |r| == |c.free|
  {
    seq(|c.free|, n requires 0 <= n < |c.free| => n in AllData(c.files) || c.free[n])
  }

  function Fixed(c: Catalogue): (r: seq<bool>)
    ensures |r| == |c.free|
  {
    seq(|c.free|, n requires 0 <= n < |c.free| => n !in AllData(c.files) && (n in Metadata(c) || !c.free[n]))
  }

  function Begun(src: Volume, c: Catalogue): (st: Stage)
    requires |c.free| == |src|
    ensures Sized(st, |src|) && st.starts == []
  {
    Stage(Copied(src, c.free), Cleared(c), Fixed(c), [])
  }

  /** The finished image; None when some file finds no place. */
  function Build(src: Volume, c: Catalogue, growth: bool): (r: Option<Stage>)
    requires Scan(src) == Some(c)
    ensures r.Some? ==> Sized(r.value, |src|) && |r.value.starts| == |c.files|
  {
    ScanFits(src, c);
    match PlaceFirst(src, c.ffs, growth, Begun(src, c), c.files, |c.files|)
    case None => None
    case Some(st) => Some(st.(disk := WrittenBitmap(st.disk, c.pages, st.free, 0)))
  }

  /** Every file of a walk was scanned from its own header. */
  ghost predicate FromScans(vol: Volume, ffs: bool, at: Found)
    requires |vol| < U32_LIMIT
  {
    forall i | 0 <= i < |at.files| ::
          at.files[i].header < |vol| && ScanFile(vol, ffs, at.files[i].header) == Some(at.files[i])
  }

  lemma {:induction false} DirFrom(vol: Volume, ffs: bool, blk: nat, root: bool, at: Found)
    requires |vol| < U32_LIMIT && FromScans(vol, ffs, at) && WalkDir(vol, ffs, blk, root, at).Some?
    ensures FromScans(vol, ffs, WalkDir(vol, ffs, blk, root, at).value)
    decreases at.unseen, 0, 0
  {
    var b := vol[blk];
    var size := if root && b[3] < PTRS then b[3] else PTRS;
    HashFrom(vol, ffs, b, size, 0, Found(at.unseen - {blk}, at.dirs + [blk], at.files));
  }

  lemma {:induction false} HashFrom(vol: Volume, ffs: bool, b: Block, size: nat, h: nat, at: Found)
    requires |vol| < U32_LIMIT && h <= size <= PTRS && FromScans(vol, ffs, at)
             && WalkHash(vol, ffs, b, size, h, at).Some?
    ensures FromScans(vol, ffs, WalkHash(vol, ffs, b, size, h, at).value)
    decreases at.unseen, 2, size - h
  {
    if h < size {
      ChainFrom(vol, ffs, b[6 + h], 0, at);
      HashFrom(vol, ffs, b, size, h + 1, WalkChain(vol, ffs, b[6 + h], 0, at).value);
    }
  }

  lemma {:induction false} ChainFrom(vol: Volume, ffs: bool, x: nat, chain: nat, at: Found)
    requires |vol| < U32_LIMIT && FromScans(vol, ffs, at) && WalkChain(vol, ffs, x, chain, at).Some?
    ensures FromScans(vol, ffs, WalkChain(vol, ffs, x, chain, at).value)
    decreases at.unseen, 1, |vol| + 1 - chain
  {
    if x != 0 {
      if vol[x][127] == ST_DIR {
        DirFrom(vol, ffs, x, false, at);
      }
      ChainFrom(vol, ffs, vol[x][124], chain + 1, WalkEntry(vol, ffs, x, at).value);
    }
  }

  lemma ScanFits(vol: Volume, c: Catalogue)
    requires Scan(vol) == Some(c)
    ensures AllFit(c.files, |vol|)
    ensures forall i | 0 <= i < |c.files| ::
              c.files[i].header < |vol|
              && ScanFile(vol, c.ffs, c.files[i].header) == Some(c.files[i])
  {
    DirFrom(vol, c.ffs, |vol| / 2, true, Found(All(vol), [], []));
  }

  // ---- the check after building -----------------------------------------------------------------

  /** Extents of a data list. */
  function Fragments(data: seq<nat>): nat {
    if |data| <= 1 then |data|
    else Fragments(data[..|data| - 1]) + (if data[|data| - 1] != data[|data| - 2] + 1 then 1 else 0)
  }

  predicate ReserveFree(free: seq<bool>, end: nat, reserve: nat) {
    forall k | end <= k < end + reserve :: k < |free| && free[k]
  }

  predicate FileLaidOut(free: seq<bool>, growth: bool, f: File) {
    && Fragments(f.data) <= 1
    && (f.data != [] ==> ReserveFree(free, f.data[|f.data| - 1] + 1, Reserve(growth, |f.data|)))
  }

  predicate VerifyLayout(vol: Volume, growth: bool) {
    && Scan(vol).Some?
    && forall i | 0 <= i < |Scan(vol).value.files| ::
         FileLaidOut(Scan(vol).value.free, growth, Scan(vol).value.files[i])
  }

  lemma {:induction false} OneRun(data: seq<nat>)
    ensures Fragments(data) <= 1 <==> forall j | 0 < j < |data| :: data[j] == data[0] + j
    ensures data != [] ==> Fragments(data) >= 1
  {
    if |data| > 1 {
      var front := data[..|data| - 1];
      OneRun(front);
      if Fragments(front) <= 1 {
        assert front[|front| - 1] == data[0] + (|front| - 1);
      }
      if forall j | 0 < j < |data| :: data[j] == data[0] + j {
        assert forall j | 0 < j < |front| :: front[j] == data[j];
      }
    }
  }
}
