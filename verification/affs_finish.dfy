/** What scanning the finished Amiga image gives. */
module AffsFinish {
  import opened Wrappers
  import opened Bytes
  import opened AffsBlocks
  import opened AffsVolume
  import opened AffsBitmap
  import opened AffsRescan
  import opened AffsStage
  import opened AffsLayout

  /** The files in their new places. */
  function News(files: seq<File>, starts: seq<nat>): (r: seq<File>)
    requires |files| == |starts|
    ensures |r| == |files|
    ensures forall i | 0 <= i < |r| :: r[i] == files[i].(data := Dest(files[i], starts[i]))
  {
    seq(|files|, i requires 0 <= i < |files| => files[i].(data := Dest(files[i], starts[i])))
  }

  /** The file's bytes, block by block. */
  function FileBytes(vol: Volume, ffs: bool, f: File): (r: seq<seq<word>>)
    requires Addresses(f.data, |vol|)
    ensures |r| == |f.data|
  {
    seq(|f.data|, j requires 0 <= j < |f.data| => Payload(ffs, vol[f.data[j]]))
  }

  // ---- the copy ---------------------------------------------------------------------------------

  /** Scanning the copy of the allocated blocks finds what scanning the source found, so the image's own file list may
      stand for the source's. */
  lemma CopyScans(src: Volume, c: Catalogue)
    requires Scan(src) == Some(c) && Sound(c)
    ensures Scan(Copied(src, c.free)) == Some(c)
  {
    hide Scan, ScanFile, Sound, Metadata, ReadFree;
    var copy := Copied(src, c.free);
    ScanParts(src, c);
    ScanFits(src, c);
    forall n | n in Metadata(c) ensures n < |src| && copy[n] == src[n] {
      assert !c.free[n] by { MetadataUsed(c, n); }
    }
    MetadataHas(c);
    ReadFreeSame(src, copy, c.pages);
    forall i | 0 <= i < |c.files| ensures ScanFile(copy, c.ffs, c.files[i].header) == Some(c.files[i])
        && copy[c.files[i].header] == src[c.files[i].header] {
      OwnsMetadata(c, i);
      ScanFileSame(src, copy, c.ffs, c.files[i].header);
    }
    HeadersRight(src, c);
    Rescan(src, copy, c, c.free, c.files);
  }

  lemma MetadataUsed(c: Catalogue, n: nat)
    requires Sound(c) && n in Metadata(c)
    ensures n < |c.free| && !c.free[n] && n !in AllData(c.files)
  {
  }

  lemma MetadataHas(c: Catalogue)
    ensures forall n | n in c.exts || n in c.pages || n in c.dirs || n == 0 || n == 1 :: n in Metadata(c)
  {
    var r := [0, 1] + c.exts + c.pages + c.dirs;
    assert 0 in [0, 1] && 1 in [0, 1];
    assert forall n | n in r :: n in r + Headers(c.files) + AllLists(c.files);
  }

  lemma OwnsMetadata(c: Catalogue, i: nat)
    requires i < |c.files| && Sound(c)
    ensures forall n | Owns(c.files[i], n) :: n in Metadata(c)
    ensures c.files[i].header in Metadata(c) && forall n | n in c.files[i].lists :: n in Metadata(c)
  {
    OwnApart(c, i);
    assert Owns(c.files[i], c.files[i].header);
    assert forall n | n in c.files[i].lists :: Owns(c.files[i], n);
  }

  /** What a successful scan has read. */
  lemma ScanParts(vol: Volume, c: Catalogue)
    requires Scan(vol) == Some(c)
    ensures 20 <= |vol| < U32_LIMIT && |c.free| == |vol| && Addresses(c.pages, |vol|) && Needed(|vol|) <= |c.pages|
    ensures ReadFree(vol, c.pages) == Some(c.free) && !c.free[0] && !c.free[1]
  {
    hide WalkDir, BitmapPages, BlockOk;
  }

  // ---- headers seen by the walk have a right checksum -------------------------------------------

  ghost predicate Checked(vol: Volume, at: Found) {
    forall i | 0 <= i < |at.files| ::
          at.files[i].header < |vol| && vol[at.files[i].header][5] == Csum(vol[at.files[i].header], 5)
  }

  lemma {:induction false} DirChecked(vol: Volume, ffs: bool, blk: nat, root: bool, at: Found)
    requires |vol| < U32_LIMIT && Checked(vol, at) && WalkDir(vol, ffs, blk, root, at).Some?
    ensures Checked(vol, WalkDir(vol, ffs, blk, root, at).value)
    decreases at.unseen, 0, 0
  {
    var b := vol[blk];
    var size := if root && b[3] < PTRS then b[3] else PTRS;
    HashChecked(vol, ffs, b, size, 0, Found(at.unseen - {blk}, at.dirs + [blk], at.files));
  }

  lemma {:induction false} HashChecked(vol: Volume, ffs: bool, b: Block, size: nat, h: nat, at: Found)
    requires |vol| < U32_LIMIT && h <= size <= PTRS && Checked(vol, at) && WalkHash(vol, ffs, b, size, h, at).Some?
    ensures Checked(vol, WalkHash(vol, ffs, b, size, h, at).value)
    decreases at.unseen, 2, size - h
  {
    if h < size {
      ChainChecked(vol, ffs, b[6 + h], 0, at);
      HashChecked(vol, ffs, b, size, h + 1, WalkChain(vol, ffs, b[6 + h], 0, at).value);
    }
  }

  lemma {:induction false} ChainChecked(vol: Volume, ffs: bool, x: nat, chain: nat, at: Found)
    requires |vol| < U32_LIMIT && Checked(vol, at) && WalkChain(vol, ffs, x, chain, at).Some?
    ensures Checked(vol, WalkChain(vol, ffs, x, chain, at).value)
    decreases at.unseen, 1, |vol| + 1 - chain
  {
    hide Csum, ScanFile;
    if x != 0 {
      if vol[x][127] == ST_DIR {
        DirChecked(vol, ffs, x, false, at);
      }
      ChainChecked(vol, ffs, vol[x][124], chain + 1, WalkEntry(vol, ffs, x, at).value);
    }
  }

  lemma HeadersRight(vol: Volume, c: Catalogue)
    requires Scan(vol) == Some(c)
    ensures forall i | 0 <= i < |c.files| ::
              c.files[i].header < |vol|
              && vol[c.files[i].header][5] == Csum(vol[c.files[i].header], 5)
  {
    DirChecked(vol, c.ffs, |vol| / 2, true, Found(All(vol), [], []));
  }

  // ---- the finished image -----------------------------------------------------------------------

  /** The state after the last placement, before the bitmap is written. */
  function LastPlaced(src: Volume, c: Catalogue, growth: bool): (st: Stage)
    requires Scan(src) == Some(c) && Build(src, c, growth).Some?
    ensures Sized(st, |src|)
  {
    ScanFits(src, c);
    PlaceFirst(src, c.ffs, growth, Begun(src, c), c.files, |c.files|).value
  }

  lemma BuildLaid(src: Volume, c: Catalogue, growth: bool)
    requires Scan(src) == Some(c) && Sound(c) && Build(src, c, growth).Some? && AllFit(c.files, |src|)
    ensures var st := LastPlaced(src, c, growth); var fin := Build(src, c, growth).value;
            && Laid(src, c, growth, st, |c.files|)
            && fin == st.(disk := WrittenBitmap(st.disk, c.pages, st.free, 0))
  {
    hide Scan, Laid, Place, WrittenBitmap, Sound;
    LaidAlways(src, c, growth, |c.files|);
  }

  lemma FreeBits(src: Volume, c: Catalogue, growth: bool, st: Stage)
    requires |src| == |c.free| && AllFit(c.files, |src|) && Sound(c) && Laid(src, c, growth, st, |c.files|)
             && |src| >= 2
    ensures !st.free[0] && !st.free[1]
  {
    hide Apart, DiskRight, Earliest, Occupied, Taken, Fixed;
    MetadataHas(c);
    MetadataUsed(c, 0);
    MetadataUsed(c, 1);
  }

  /** Writing the bitmap leaves the placed files and the other metadata alone. */
  lemma FilesSurvive(src: Volume, c: Catalogue, growth: bool, st: Stage, i: nat)
    requires |src| == |c.free| && AllFit(c.files, |src|) && Sound(c) && Laid(src, c, growth, st, |c.files|)
    requires 2 <= |src| && Addresses(c.pages, |src|) && i < |c.files|
    ensures FileDone(src, WrittenBitmap(st.disk, c.pages, st.free, 0), c.ffs, c.files[i], st.starts[i])
  {
    hide FileDone, WrittenBitmap, Earliest, MapsRight, Metadata, Fixed, Owns, InTarget, InRange, Sound;
    RestApart(c);
    PagesWritten(st.disk, c.pages, st.free, 0);
    OwnApart(c, i);
    var f, start := c.files[i], st.starts[i];
    forall n | 0 <= n < |src| && (Owns(f, n) || InTarget(f, start, n)) ensures n !in c.pages {
      if InTarget(f, start, n) {
        TargetInRange(growth, f, start, n);
        if n in c.pages {
          PageFixed(c, n);
          assert false;
        }
      }
    }
    DoneStays(src, st.disk, WrittenBitmap(st.disk, c.pages, st.free, 0), c.ffs, f, start);
  }

  lemma PageFixed(c: Catalogue, n: nat)
    requires Sound(c) && n in c.pages
    ensures n < |c.free| && Fixed(c)[n]
  {
    MetadataHas(c);
  }

  lemma RestSurvives(src: Volume, c: Catalogue, growth: bool, st: Stage, n: nat)
    requires |src| == |c.free| && AllFit(c.files, |src|) && Sound(c) && Laid(src, c, growth, st, |c.files|)
    requires 2 <= |src| && Addresses(c.pages, |src|) && n in Rest(c) && n !in c.pages
    ensures n < |src| && WrittenBitmap(st.disk, c.pages, st.free, 0)[n] == src[n]
  {
    hide FileDone, WrittenBitmap, Earliest, MapsRight, Apart, Fixed, Owns, InTarget, InRange;
    RestApart(c);
    PagesWritten(st.disk, c.pages, st.free, 0);
    assert n in Metadata(c);
    forall i | 0 <= i < |c.files| ensures !Owns(c.files[i], n) {
      OwnApart(c, i);
    }
    assert !Touched(c.files, |c.files|, n);
  }

  /** The finished image scans as the same directories, bitmap blocks and files, every file in its run. */
  lemma StageScans(src: Volume, c: Catalogue, growth: bool)
    requires Scan(src) == Some(c) && Sound(c) && Build(src, c, growth).Some?
    ensures var fin := Build(src, c, growth).value;
            Scan(fin.disk) == Some(c.(free := fin.free, files := News(c.files, fin.starts)))
  {
    hide Scan, Build, WrittenBitmap, Laid, ScanFile, Sound, FileDone, ReadFree, WithPointers, FileFits, HeaderSame,
         Metadata;
    ScanParts(src, c);
    ScanFits(src, c);
    BuildLaid(src, c, growth);
    var st, fin := LastPlaced(src, c, growth), Build(src, c, growth).value;
    FreeBits(src, c, growth, st);
    RestApart(c);
    BitmapRoundTrip(st.disk, c.pages, st.free);
    forall n | n in Rest(c) && n !in c.pages ensures n < |src| && fin.disk[n] == src[n] {
      RestSurvives(src, c, growth, st, n);
    }
    var news := News(c.files, fin.starts);
    forall i | 0 <= i < |c.files|
      ensures ScanFile(fin.disk, c.ffs, c.files[i].header) == Some(news[i])
      ensures HeaderSame(src[c.files[i].header], fin.disk[c.files[i].header])
    {
      FileScans(src, c, growth, st, i);
    }
    Rescan(src, fin.disk, c, fin.free, news);
  }

  lemma FileScans(src: Volume, c: Catalogue, growth: bool, st: Stage, i: nat)
    requires |src| == |c.free| && AllFit(c.files, |src|) && Sound(c) && Laid(src, c, growth, st, |c.files|)
    requires 2 <= |src| && Addresses(c.pages, |src|) && i < |c.files|
    requires ScanFile(src, c.ffs, c.files[i].header) == Some(c.files[i])
    ensures var disk := WrittenBitmap(st.disk, c.pages, st.free, 0); var f := c.files[i];
            && ScanFile(disk, c.ffs, f.header) == Some(f.(data := Dest(f, st.starts[i])))
            && HeaderSame(src[f.header], disk[f.header])
  {
    hide WrittenBitmap, ScanFile, Sound, WithPointers, HeaderSame, Moved, Apart, MapsRight, DiskRight, Earliest;
    FilesSurvive(src, c, growth, st, i);
    var f := c.files[i];
    DestFits(f, st.starts[i], |src|);
    FileRefilled(src, WrittenBitmap(st.disk, c.pages, st.free, 0), c.ffs, f, Dest(f, st.starts[i]));
  }

  /** Every file carries the bytes it carried before; in OFS its blocks are relinked with right
      numbers and checksums. */
  lemma StageKeepsBytes(src: Volume, c: Catalogue, growth: bool, i: nat)
    requires Scan(src) == Some(c) && Sound(c) && Build(src, c, growth).Some? && i < |c.files|
    ensures var fin := Build(src, c, growth).value; var f := c.files[i]; var g := News(c.files, fin.starts)[i];
            && Addresses(f.data, |src|) && Addresses(g.data, |src|)
            && FileBytes(fin.disk, c.ffs, g) == FileBytes(src, c.ffs, f)
            && (!c.ffs ==> forall j | 0 <= j < |g.data| :: Linked(fin.disk, g, j))
  {
    hide Scan, Build, WrittenBitmap, Laid, Sound, Moved, WithPointers, Payload, Linked;
    ScanParts(src, c);
    ScanFits(src, c);
    BuildLaid(src, c, growth);
    var st, fin := LastPlaced(src, c, growth), Build(src, c, growth).value;
    FilesSurvive(src, c, growth, st, i);
    var f, g := c.files[i], News(c.files, fin.starts)[i];
    DestFits(f, fin.starts[i], |src|);
    forall j | 0 <= j < |g.data|
      ensures Payload(c.ffs, fin.disk[g.data[j]]) == Payload(c.ffs, src[f.data[j]])
      ensures !c.ffs ==> Linked(fin.disk, g, j)
    {
      LinkedThere(src, fin.disk, c.ffs, f, fin.starts[i], j);
    }
    assert FileBytes(fin.disk, c.ffs, g) == FileBytes(src, c.ffs, f);
  }

  /** OFS data block j of a file names its header, its place in the file and its successor, under a right checksum. */
  predicate Linked(vol: Volume, g: File, j: nat)
    requires j < |g.data| && Addresses(g.data, |vol|)
  {
    var b := vol[g.data[j]];
    b[1] == g.header && b[2] == j + 1 && b[4] == (if j + 1 < |g.data| then g.data[j + 1] else 0) && b[5] == Csum(b, 5)
  }

  lemma LinkedThere(src: Volume, disk: Volume, ffs: bool, f: File, start: nat, j: nat)
    requires |src| == |disk| && FileFits(f, |disk|) && FileDone(src, disk, ffs, f, start) && j < |f.data|
    ensures var g := f.(data := Dest(f, start));
            && Addresses(g.data, |disk|)
            && Payload(ffs, disk[g.data[j]]) == Payload(ffs, src[f.data[j]])
            && (!ffs ==> Linked(disk, g, j))
  {
    hide Moved, Payload, Csum, WithPointers;
    DestFits(f, start, |disk|);
    assert disk[start + j] == Moved(ffs, src[f.data[j]], f.header, j, |f.data|, start);
    MovedKeeps(ffs, src[f.data[j]], f.header, j, |f.data|, start);
  }

  /** The layout: metadata blocks other than headers, list blocks and bitmap pages unmoved and unchanged; runs with
      their reserves pairwise apart, clear of what is fixed, and each the first place possible; the free map exact; and
      the check after building passes. */
  lemma StageLaidOut(src: Volume, c: Catalogue, growth: bool)
    requires Scan(src) == Some(c) && Sound(c) && Build(src, c, growth).Some?
    ensures var fin := Build(src, c, growth).value;
            && (forall n | n in Rest(c) && n !in c.pages :: n < |src| && fin.disk[n] == src[n])
            && Apart(c, growth, fin.starts, |c.files|)
            && (forall i | 0 <= i < |c.files| :: Earliest(c, growth, fin.starts, i))
            && (forall n | 0 <= n < |src| ::
                 fin.free[n] == (Cleared(c)[n] && !Occupied(c.files, fin.starts, |c.files|, n)))
            && VerifyLayout(fin.disk, growth)
  {
    hide Scan, Build, WrittenBitmap, Sound, Apart, Earliest, Occupied, Cleared, DiskRight, FileLaidOut, Metadata;
    ScanParts(src, c);
    ScanFits(src, c);
    BuildLaid(src, c, growth);
    var st, fin := LastPlaced(src, c, growth), Build(src, c, growth).value;
    forall n | n in Rest(c) && n !in c.pages ensures n < |src| && fin.disk[n] == src[n] {
      RestSurvives(src, c, growth, st, n);
    }
    StageScans(src, c, growth);
    forall i | 0 <= i < |c.files| ensures FileLaidOut(fin.free, growth, News(c.files, fin.starts)[i]) {
      OneRunEach(src, c, growth, st, i);
    }
  }

  lemma OneRunEach(src: Volume, c: Catalogue, growth: bool, st: Stage, i: nat)
    requires |src| == |c.free| && AllFit(c.files, |src|) && Laid(src, c, growth, st, |c.files|) && i < |c.files|
    ensures FileLaidOut(st.free, growth, News(c.files, st.starts)[i])
  {
    hide DiskRight, Earliest, Cleared, Fixed, InRange, InTarget, Fragments;
    var f, start := c.files[i], st.starts[i];
    var g := News(c.files, st.starts)[i];
    OneRun(g.data);
    if f.data != [] {
      forall n | start + |f.data| <= n < start + Total(growth, f) ensures st.free[n] {
        ReserveStaysFree(src, c, growth, st, i, n);
      }
    }
  }

  lemma ReserveStaysFree(src: Volume, c: Catalogue, growth: bool, st: Stage, i: nat, n: nat)
    requires |src| == |c.free| && AllFit(c.files, |src|) && Laid(src, c, growth, st, |c.files|) && i < |c.files|
    requires st.starts[i] + |c.files[i].data| <= n < st.starts[i] + Total(growth, c.files[i])
    ensures n < |src| && st.free[n]
  {
    hide DiskRight, Earliest, Metadata;
    var f, start := c.files[i], st.starts[i];
    assert InRange(growth, f, start, n) && !Fixed(c)[n];
    forall j | 0 <= j < |c.files| ensures !InTarget(c.files[j], st.starts[j], n) {
      if j != i && InTarget(c.files[j], st.starts[j], n) {
        TargetInRange(growth, c.files[j], st.starts[j], n);
        assert false;
      }
    }
  }

  // ---- when there is no image -------------------------------------------------------------------

  /** File k finds no place: wherever it might start, a fixed block or an earlier file is in the way. */
  ghost predicate NoPlace(src: Volume, c: Catalogue, growth: bool, k: nat)
    requires |src| == |c.free| && AllFit(c.files, |src|) && k < |c.files|
  {
    var mid := PlaceFirst(src, c.ffs, growth, Begun(src, c), c.files, k);
    && mid.Some? && c.files[k].data != []
    && forall t | 2 <= t && t + Total(growth, c.files[k]) <= |c.free| ::
         Blocked(c, growth, mid.value.starts, k, t, Total(growth, c.files[k]))
  }

  lemma PlaceRefuses(src: Volume, c: Catalogue, growth: bool, k: nat)
    requires |src| == |c.free| && AllFit(c.files, |src|) && Sound(c) && k < |c.files|
    requires PlaceFirst(src, c.ffs, growth, Begun(src, c), c.files, k).Some?
    ensures PlaceFirst(src, c.ffs, growth, Begun(src, c), c.files, k + 1).None? <==> NoPlace(src, c, growth, k)
  {
    hide Sound, Apart, DiskRight, Earliest, Repointed, Carried, Fixed, Cleared, Taken, Occupied, Clear, Blocked;
    LaidAlways(src, c, growth, k);
    var mid := PlaceFirst(src, c.ffs, growth, Begun(src, c), c.files, k).value;
    var f := c.files[k];
    forall t: nat | t + Total(growth, f) <= |c.free|
      ensures Clear(mid.fixed, t, Total(growth, f)) == !Blocked(c, growth, mid.starts, k, t, Total(growth, f))
    {
      ClearUnlessBlocked(c, growth, mid, k, t, Total(growth, f));
    }
    assert PlaceFirst(src, c.ffs, growth, Begun(src, c), c.files, k + 1) == Place(src, c.ffs, growth, mid, f);
    var fit := Fit(mid.fixed, Total(growth, f), 2);
    if fit.Some? {
      assert Clear(mid.fixed, fit.value, Total(growth, f));
    }
  }

  lemma ClearUnlessBlocked(c: Catalogue, growth: bool, st: Stage, k: nat, t: nat, total: nat)
    requires Sized(st, |c.free|) && k <= |c.files| && k <= |st.starts| && MapsRight(c, growth, st, k)
             && t + total <= |c.free|
    ensures Clear(st.fixed, t, total) == !Blocked(c, growth, st.starts, k, t, total)
  {
    hide Taken, Fixed, Cleared, Occupied;
  }

  /** The build gives up exactly when some file, in its turn, finds no place. */
  lemma {:induction false} PlacesUnlessBlocked(src: Volume, c: Catalogue, growth: bool, k: nat)
    requires |src| == |c.free| && AllFit(c.files, |src|) && Sound(c) && k <= |c.files|
    ensures PlaceFirst(src, c.ffs, growth, Begun(src, c), c.files, k).None? <==> exists i ::
              0 <= i < k
              && NoPlace(src, c, growth, i)
  {
    hide Sound, Place, NoPlace, Begun;
    if k > 0 {
      PlacesUnlessBlocked(src, c, growth, k - 1);
      if PlaceFirst(src, c.ffs, growth, Begun(src, c), c.files, k - 1).Some? {
        PlaceRefuses(src, c, growth, k - 1);
      }
    }
  }

  lemma BuildsUnlessBlocked(src: Volume, c: Catalogue, growth: bool)
    requires Scan(src) == Some(c) && Sound(c) && AllFit(c.files, |src|)
    ensures Build(src, c, growth).None? <==> exists i :: 0 <= i < |c.files| && NoPlace(src, c, growth, i)
  {
    hide Sound, Scan, Place, NoPlace;
    PlacesUnlessBlocked(src, c, growth, |c.files|);
  }
}
