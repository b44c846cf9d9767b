/** The finished Amiga working image scans as the same files with the same bytes, each in one run followed by its
    reserve, at the first place that was clear. */
module AffsLayout {
  import opened Wrappers
  import opened Bytes
  import opened AffsBlocks
  import opened AffsVolume
  import opened AffsRescan
  import opened AffsStage

  // ---- what distinct metadata gives -------------------------------------------------------------

  lemma AppendApart(a: seq<nat>, b: seq<nat>)
    requires NoRepeats(a + b)
    ensures NoRepeats(a) && NoRepeats(b) && forall x | x in a :: x !in b
  {
    assert forall i | 0 <= i < |a| :: (a + b)[i] == a[i];
    assert forall i | 0 <= i < |b| :: (a + b)[|a| + i] == b[i];
  }

  predicate Owns(f: File, n: nat) {
    n == f.header || n in f.lists
  }

  lemma {:induction false} ListsIn(files: seq<File>, i: nat)
    requires i < |files| && NoRepeats(AllLists(files))
    ensures NoRepeats(files[i].lists)
    ensures forall x | x in files[i].lists :: x in AllLists(files)
  {
    AppendApart(files[0].lists, AllLists(files[1..]));
    if i > 0 {
      ListsIn(files[1..], i - 1);
    }
  }

  lemma {:induction false} ListsApart(files: seq<File>, i: nat, j: nat)
    requires i < j < |files| && NoRepeats(AllLists(files))
    ensures forall x | x in files[i].lists :: x !in files[j].lists
  {
    AppendApart(files[0].lists, AllLists(files[1..]));
    if i == 0 {
      ListsIn(files[1..], j - 1);
    } else {
      ListsApart(files[1..], i - 1, j - 1);
    }
  }

  /** The parts of the metadata that are not headers or list blocks. */
  function Rest(c: Catalogue): seq<nat> {
    [0, 1] + c.exts + c.pages + c.dirs
  }

  lemma PartsApart(c: Catalogue)
    requires NoRepeats(Metadata(c))
    ensures NoRepeats(Rest(c)) && NoRepeats(Headers(c.files)) && NoRepeats(AllLists(c.files))
    ensures forall x | x in Rest(c) :: x !in Headers(c.files) && x !in AllLists(c.files)
    ensures forall x | x in Headers(c.files) :: x !in AllLists(c.files)
    ensures forall x | x in Metadata(c) :: x in Rest(c) || x in Headers(c.files) || x in AllLists(c.files)
  {
    assert Metadata(c) == (Rest(c) + Headers(c.files)) + AllLists(c.files);
    AppendApart(Rest(c) + Headers(c.files), AllLists(c.files));
    AppendApart(Rest(c), Headers(c.files));
  }

  lemma OwnApart(c: Catalogue, i: nat)
    requires Sound(c) && i < |c.files|
    ensures NoRepeats([c.files[i].header] + c.files[i].lists)
    ensures forall n | Owns(c.files[i], n) :: n in Metadata(c) && n !in Rest(c)
  {
    PartsApart(c);
    ListsIn(c.files, i);
    var f := c.files[i];
    assert Headers(c.files)[i] == f.header && f.header in Headers(c.files);
    forall p, q | 0 <= p < q < |[f.header] + f.lists| ensures ([f.header] + f.lists)[p] != ([f.header] + f.lists)[q] {
      assert ([f.header] + f.lists)[q] == f.lists[q - 1] && f.lists[q - 1] in f.lists;
      assert p > 0 ==> ([f.header] + f.lists)[p] == f.lists[p - 1];
    }
  }

  lemma OwnersApart(c: Catalogue, i: nat, j: nat, n: nat)
    requires Sound(c) && i < |c.files| && j < |c.files| && i != j && Owns(c.files[i], n)
    ensures !Owns(c.files[j], n)
  {
    PartsApart(c);
    ListsIn(c.files, i);
    ListsIn(c.files, j);
    if i < j { ListsApart(c.files, i, j); } else { ListsApart(c.files, j, i); }
    assert Headers(c.files)[i] == c.files[i].header && Headers(c.files)[j] == c.files[j].header;
  }

  lemma RestApart(c: Catalogue)
    requires Sound(c)
    ensures NoRepeats(c.pages)
    ensures forall n | n in c.pages :: n in Rest(c) && n !in c.exts && n !in c.dirs && n != 0
    ensures forall n | n in c.exts || n in c.dirs || n == 0 || n == 1 :: n in Rest(c)
  {
    PartsApart(c);
    assert Rest(c) == ([0, 1] + c.exts + c.pages) + c.dirs;
    AppendApart([0, 1] + c.exts + c.pages, c.dirs);
    AppendApart([0, 1] + c.exts, c.pages);
  }

  /** The precondition the engine relies on and does not check: no metadata block has two uses or holds file data, and
      all metadata is marked allocated. */
  predicate Sound(c: Catalogue) {
    && NoRepeats(Metadata(c))
    && forall n | n in Metadata(c) :: n < |c.free| && !c.free[n] && n !in AllData(c.files)
  }

  // ---- one placement ----------------------------------------------------------------------------

  lemma {:induction false} Refilled(disk: Volume, lists: seq<nat>, dest: seq<nat>, k: nat)
    requires |disk| < U32_LIMIT && Addresses(lists, |disk|) && Addresses(dest, |disk|) && NoRepeats(lists)
    ensures var r := RefillFrom(disk, lists, dest, k);
            && (forall i | k <= i < |lists| :: r[lists[i]] == WithPointers(disk[lists[i]], false, Chunk(dest, i + 1)))
            && (forall i | 0 <= i < |lists| && i < k :: r[lists[i]] == disk[lists[i]])
            && (forall n | 0 <= n < |disk| && n !in lists :: r[n] == disk[n])
    decreases |lists| - k
  {
    hide WithPointers;
    if k < |lists| {
      var next := disk[lists[k] := WithPointers(disk[lists[k]], false, Chunk(dest, k + 1))];
      Refilled(next, lists, dest, k + 1);
      assert forall i | 0 <= i < |lists| && i != k :: next[lists[i]] == disk[lists[i]];
    }
  }

  /** The blocks of a placed file: header, lists and data hold what a move from src to start puts there. */
  predicate FileDone(src: Volume, disk: Volume, ffs: bool, f: File, start: nat)
    requires |src| == |disk| && FileFits(f, |disk|)
  {
    && start + |f.data| <= |disk| && (f.data != [] ==> start >= 2)
    && disk[f.header] == WithPointers(src[f.header], true, Chunk(Dest(f, start), 0))
    && (forall i | 0 <= i < |f.lists| ::
         disk[f.lists[i]] == WithPointers(src[f.lists[i]], false, Chunk(Dest(f, start), i + 1)))
    && (forall j | 0 <= j < |f.data| :: disk[start + j] == Moved(ffs, src[f.data[j]], f.header, j, |f.data|, start))
  }

  function Dest(f: File, start: nat): (r: seq<nat>)
    ensures |r| == |f.data|
    ensures f.data != [] ==> forall i | 0 <= i < |r| :: r[i] == start + i
  {
    Run(start, |f.data|)
  }

  lemma DestFits(f: File, start: nat, blocks: nat)
    requires start + |f.data| <= blocks && (f.data != [] ==> start >= 2)
    ensures Addresses(Dest(f, start), blocks)
  {
  }

  function Total(growth: bool, f: File): nat {
    |f.data| + Reserve(growth, |f.data|)
  }

  predicate InRange(growth: bool, f: File, start: nat, n: nat) {
    start <= n < start + Total(growth, f)
  }

  predicate InTarget(f: File, start: nat, n: nat) {
    start <= n < start + |f.data|
  }

  /** What one placement does to the image. */
  lemma PlaceDoes(src: Volume, ffs: bool, growth: bool, st: Stage, f: File, next: Stage)
    requires Sized(st, |src|) && FileFits(f, |src|) && NoRepeats([f.header] + f.lists)
    requires Place(src, ffs, growth, st, f) == Some(next)
    requires forall n: nat | Owns(f, n) && n < |src| :: st.fixed[n] && st.disk[n] == src[n]
    ensures var start := next.starts[|st.starts|];
            && FileDone(src, next.disk, ffs, f, start)
            && (forall n | 0 <= n < |src| && !Owns(f, n) && !InTarget(f, start, n) :: next.disk[n] == st.disk[n])
  {
    hide WithPointers, Moved, Chunk, FileDone, RefillFrom, Repointed;
    var start := next.starts[|st.starts|];
    PlaceMarks(src, ffs, growth, st, f, next);
    DestFits(f, start, |src|);
    if f.data == [] {
      assert Dest(f, 0) == [];
      PlaceWrites(src, st.disk, ffs, f, start, st.disk);
    } else {
      PlaceWrites(src, st.disk, ffs, f, start, Carried(src, st.disk, ffs, f, start));
    }
  }

  /** What one placement does to the two maps, and where it goes. */
  lemma PlaceMarks(src: Volume, ffs: bool, growth: bool, st: Stage, f: File, next: Stage)
    requires Sized(st, |src|) && FileFits(f, |src|)
    requires Place(src, ffs, growth, st, f) == Some(next)
    ensures var start := next.starts[|st.starts|];
            && start + Total(growth, f) <= |src| && (f.data != [] ==> start >= 2)
            && (forall n | 0 <= n < |src| && InRange(growth, f, start, n) :: !st.fixed[n])
            && (forall n | 0 <= n < |src| :: next.fixed[n] == (st.fixed[n] || InRange(growth, f, start, n)))
            && (forall n | 0 <= n < |src| :: next.free[n] ==
                  (!InTarget(f, start, n) && (st.free[n] || InRange(growth, f, start, n))))
            && (f.data != [] ==> forall t | 2 <= t < start :: !Clear(st.fixed, t, Total(growth, f)))
  {
    hide Repointed, Carried;
  }

  lemma PlaceWrites(src: Volume, disk: Volume, ffs: bool, f: File, start: nat, carried: Volume)
    requires |src| == |disk| == |carried| && FileFits(f, |src|) && NoRepeats([f.header] + f.lists)
    requires start + |f.data| <= |disk| && (f.data != [] ==> start >= 2)
    requires forall n: nat | Owns(f, n) && n < |src| :: !InTarget(f, start, n) && disk[n] == src[n]
    requires forall n | 0 <= n < |src| :: carried[n] == CarriedBlock(src, disk, ffs, f, start, n)
    requires Addresses(Dest(f, start), |disk|)
    ensures FileDone(src, Repointed(carried, f, Dest(f, start)), ffs, f, start)
    ensures forall n | 0 <= n < |src| && !Owns(f, n)
            && !InTarget(f, start, n) :: Repointed(carried, f, Dest(f, start))[n] == disk[n]
  {
    hide WithPointers, Moved, Chunk;
    AppendApart([f.header], f.lists);
    assert f.header in [f.header];
    var first := carried[f.header := WithPointers(carried[f.header], true, Chunk(Dest(f, start), 0))];
    Refilled(first, f.lists, Dest(f, start), 0);
    var r := Repointed(carried, f, Dest(f, start));
    assert Owns(f, f.header);
    forall i | 0 <= i < |f.lists|
      ensures r[f.lists[i]] == WithPointers(src[f.lists[i]], false, Chunk(Dest(f, start), i + 1))
    {
      assert Owns(f, f.lists[i]);
    }
    forall j | 0 <= j < |f.data| ensures r[start + j] == Moved(ffs, src[f.data[j]], f.header, j, |f.data|, start) {
      assert InTarget(f, start, start + j);
      assert !Owns(f, start + j);
    }
  }

  /** A placed file stays placed while its own blocks are left alone. */
  lemma DoneStays(src: Volume, disk: Volume, next: Volume, ffs: bool, f: File, start: nat)
    requires |src| == |disk| == |next| && FileFits(f, |disk|) && FileDone(src, disk, ffs, f, start)
    requires forall n | 0 <= n < |disk| && (Owns(f, n) || InTarget(f, start, n)) :: next[n] == disk[n]
    ensures FileDone(src, next, ffs, f, start)
  {
    hide WithPointers, Moved, Chunk;
    forall j | 0 <= j < |f.data| ensures next[start + j] == Moved(ffs, src[f.data[j]], f.header, j, |f.data|, start) {
      assert InTarget(f, start, start + j);
    }
  }

  // ---- all placements ---------------------------------------------------------------------------

  /** Block n is in the run or the reserve of one of the first k files. */
  predicate Taken(growth: bool, files: seq<File>, starts: seq<nat>, k: nat, n: nat)
    requires k <= |files| && k <= |starts|
  {
    exists i :: 0 <= i < k && InRange(growth, files[i], starts[i], n)
  }

  predicate Occupied(files: seq<File>, starts: seq<nat>, k: nat, n: nat)
    requires k <= |files| && k <= |starts|
  {
    exists i :: 0 <= i < k && InTarget(files[i], starts[i], n)
  }

  /** Every run with its reserve lies inside the volume past the boot blocks, clear of everything fixed and of every
      other one. */
  ghost predicate Apart(c: Catalogue, growth: bool, starts: seq<nat>, k: nat)
    requires k <= |c.files| && k <= |starts|
  {
    && (forall i | 0 <= i < k ::
         starts[i] + Total(growth, c.files[i]) <= |c.free| && (c.files[i].data != [] ==> starts[i] >= 2))
    && (forall i, n | 0 <= i < k && 0 <= n < |c.free| && InRange(growth, c.files[i], starts[i], n) :: !Fixed(c)[n])
    && (forall i, j, n: nat | 0 <= i < j < k
       && InRange(growth, c.files[i], starts[i], n) :: !InRange(growth, c.files[j], starts[j], n))
  }

  /** No earlier place could hold file i: each meets a fixed block or an earlier file. */
  ghost predicate Earliest(c: Catalogue, growth: bool, starts: seq<nat>, i: nat)
    requires i < |c.files| && i < |starts|
  {
    c.files[i].data != [] ==>
      forall t | 2 <= t < starts[i] && t + Total(growth, c.files[i]) <= |c.free| ::
        Blocked(c, growth, starts, i, t, Total(growth, c.files[i]))
  }

  predicate Blocked(c: Catalogue, growth: bool, starts: seq<nat>, i: nat, t: nat, total: nat)
    requires i <= |c.files| && i <= |starts| && t + total <= |c.free|
  {
    exists n :: t <= n < t + total && (Fixed(c)[n] || Taken(growth, c.files, starts, i, n))
  }

  predicate MapsRight(c: Catalogue, growth: bool, st: Stage, k: nat)
    requires Sized(st, |c.free|) && k <= |c.files| && k <= |st.starts|
  {
    && (forall n | 0 <= n < |c.free| :: st.fixed[n] == (Fixed(c)[n] || Taken(growth, c.files, st.starts, k, n)))
    && (forall n | 0 <= n < |c.free| :: st.free[n] == (Cleared(c)[n] && !Occupied(c.files, st.starts, k, n)))
  }

  predicate Touched(files: seq<File>, k: nat, n: nat)
    requires k <= |files|
  {
    exists i :: 0 <= i < k && Owns(files[i], n)
  }

  predicate DiskRight(src: Volume, c: Catalogue, st: Stage, k: nat)
    requires |src| == |c.free| && Sized(st, |src|) && k <= |c.files| && k <= |st.starts| && AllFit(c.files, |src|)
  {
    && (forall i | 0 <= i < k :: FileDone(src, st.disk, c.ffs, c.files[i], st.starts[i]))
    && (forall n | n in Metadata(c) && n < |src| && !Touched(c.files, k, n) :: st.disk[n] == src[n])
  }

  ghost predicate Laid(src: Volume, c: Catalogue, growth: bool, st: Stage, k: nat)
    requires |src| == |c.free| && AllFit(c.files, |src|)
  {
    && Sized(st, |src|) && k == |st.starts| <= |c.files|
    && Apart(c, growth, st.starts, k) && MapsRight(c, growth, st, k) && DiskRight(src, c, st, k)
    && forall i | 0 <= i < k :: Earliest(c, growth, st.starts, i)
  }

  lemma LaidStart(src: Volume, c: Catalogue, growth: bool)
    requires |src| == |c.free| && AllFit(c.files, |src|) && Sound(c)
    ensures Laid(src, c, growth, Begun(src, c), 0)
  {
  }

  lemma LaidNext(src: Volume, c: Catalogue, growth: bool, st: Stage, k: nat, next: Stage)
    requires |src| == |c.free| && AllFit(c.files, |src|) && Sound(c) && k < |c.files|
    requires Laid(src, c, growth, st, k) && Place(src, c.ffs, growth, st, c.files[k]) == Some(next)
    ensures Laid(src, c, growth, next, k + 1)
  {
    hide Place, FileDone, MapsRight, DiskRight, Apart, Earliest, Sound, Metadata, Fixed;
    PlaceMarks(src, c.ffs, growth, st, c.files[k], next);
    ApartNext(src, c, growth, st, k, next);
    MapsNext(src, c, growth, st, k, next);
    DiskNext(src, c, growth, st, k, next);
    forall i | 0 <= i < k + 1 ensures Earliest(c, growth, next.starts, i) {
      EarliestNext(src, c, growth, st, k, next, i);
    }
  }

  lemma ApartNext(src: Volume, c: Catalogue, growth: bool, st: Stage, k: nat, next: Stage)
    requires |src| == |c.free| && AllFit(c.files, |src|) && k < |c.files|
    requires Laid(src, c, growth, st, k) && Place(src, c.ffs, growth, st, c.files[k]) == Some(next)
    ensures Apart(c, growth, next.starts, k + 1)
  {
    hide Place, FileDone, DiskRight, Earliest, Fixed, Cleared, Occupied, InRange, InTarget;
    var f, start := c.files[k], next.starts[k];
    PlaceMarks(src, c.ffs, growth, st, f, next);
    forall i, n: nat | 0 <= i < k && InRange(growth, c.files[i], st.starts[i], n)
      ensures !InRange(growth, f, start, n) {
      RangeInside(growth, c.files[i], st.starts[i], n, |src|);
      assert Taken(growth, c.files, st.starts, k, n);
    }
  }

  lemma RangeInside(growth: bool, f: File, start: nat, n: nat, blocks: nat)
    requires start + Total(growth, f) <= blocks && InRange(growth, f, start, n)
    ensures n < blocks
  {
  }

  lemma MapsNext(src: Volume, c: Catalogue, growth: bool, st: Stage, k: nat, next: Stage)
    requires |src| == |c.free| && AllFit(c.files, |src|) && k < |c.files|
    requires Laid(src, c, growth, st, k) && Place(src, c.ffs, growth, st, c.files[k]) == Some(next)
    ensures MapsRight(c, growth, next, k + 1)
  {
    hide Place, FileDone, DiskRight, Earliest, Apart, InRange, InTarget, Metadata;
    var f, start := c.files[k], next.starts[k];
    PlaceMarks(src, c.ffs, growth, st, f, next);
    forall n | 0 <= n < |src|
      ensures Taken(growth, c.files, next.starts, k + 1, n) == (Taken(growth, c.files, st.starts, k, n)
              || InRange(growth, f, start, n))
      ensures Occupied(c.files, next.starts, k + 1, n) == (Occupied(c.files, st.starts, k, n) || InTarget(f, start, n))
      ensures Occupied(c.files, st.starts, k, n) ==> Taken(growth, c.files, st.starts, k, n)
      ensures !Fixed(c)[n] ==> Cleared(c)[n]
    {
      TakenMore(growth, c.files, st.starts, next.starts, k, n);
    }
  }

  lemma TakenMore(growth: bool, files: seq<File>, starts: seq<nat>, more: seq<nat>, k: nat, n: nat)
    requires k < |files| && k == |starts| && |more| == k + 1 && more[..k] == starts
    ensures Taken(growth, files, more, k + 1, n)
            == (Taken(growth, files, starts, k, n) || InRange(growth, files[k], more[k], n))
    ensures Occupied(files, more, k + 1, n) == (Occupied(files, starts, k, n) || InTarget(files[k], more[k], n))
    ensures Occupied(files, starts, k, n) ==> Taken(growth, files, starts, k, n)
  {
    hide InRange, InTarget;
    assert forall i | 0 <= i < k :: more[i] == starts[i];
    if Occupied(files, starts, k, n) {
      var i :| 0 <= i < k && InTarget(files[i], starts[i], n);
      TargetInRange(growth, files[i], starts[i], n);
    }
  }

  lemma TargetInRange(growth: bool, f: File, start: nat, n: nat)
    requires InTarget(f, start, n)
    ensures InRange(growth, f, start, n)
  {
  }

  lemma EarliestNext(src: Volume, c: Catalogue, growth: bool, st: Stage, k: nat, next: Stage, i: nat)
    requires |src| == |c.free| && AllFit(c.files, |src|) && i <= k < |c.files|
    requires Laid(src, c, growth, st, k) && Place(src, c.ffs, growth, st, c.files[k]) == Some(next)
    ensures Earliest(c, growth, next.starts, i)
  {
    hide Place, FileDone, DiskRight, Apart, InRange, Fixed, Cleared, Metadata;
    var f := c.files[i];
    PlaceMarks(src, c.ffs, growth, st, c.files[k], next);
    forall t | 2 <= t < next.starts[i] && t + Total(growth, f) <= |c.free| && f.data != []
      ensures Blocked(c, growth, next.starts, i, t, Total(growth, f))
    {
      if i < k {
        assert Earliest(c, growth, st.starts, i) && st.starts[i] == next.starts[i];
        assert Blocked(c, growth, st.starts, i, t, Total(growth, f));
        var n :| t <= n < t + Total(growth, f) && (Fixed(c)[n] || Taken(growth, c.files, st.starts, i, n));
        SameTaken(growth, c.files, st.starts, next.starts, i, n);
      } else {
        assert !Clear(st.fixed, t, Total(growth, f));
        var n :| t <= n < t + Total(growth, f) && st.fixed[n];
        SameTaken(growth, c.files, st.starts, next.starts, i, n);
      }
    }
  }

  lemma SameTaken(growth: bool, files: seq<File>, starts: seq<nat>, more: seq<nat>, i: nat, n: nat)
    requires i <= |files| && i <= |starts| <= |more| && more[..|starts|] == starts
    ensures Taken(growth, files, more, i, n) == Taken(growth, files, starts, i, n)
  {
    assert forall j | 0 <= j < i :: more[j] == starts[j];
  }

  lemma OwnFixed(c: Catalogue, i: nat, n: nat)
    requires Sound(c) && i < |c.files| && Owns(c.files[i], n)
    ensures n in Metadata(c) && n < |c.free| && !c.free[n] && Fixed(c)[n]
  {
    OwnApart(c, i);
  }

  /** Before file k is placed its header and list blocks are fixed and still as they were copied. */
  lemma OwnUntouched(src: Volume, c: Catalogue, growth: bool, st: Stage, k: nat, n: nat)
    requires |src| == |c.free| && AllFit(c.files, |src|) && Sound(c) && k < |c.files|
    requires Laid(src, c, growth, st, k) && Owns(c.files[k], n)
    ensures n < |src| && st.fixed[n] && st.disk[n] == src[n]
  {
    hide FileDone, Earliest, Apart, InRange, InTarget, Fixed, Cleared, Metadata, Owns, Sound;
    OwnFixed(c, k, n);
    forall i | 0 <= i < k ensures !Owns(c.files[i], n) {
      OwnersApart(c, k, i, n);
    }
    assert !Touched(c.files, k, n);
  }

  /** The blocks of an already placed file are none of those the next placement writes. */
  lemma OthersKept(src: Volume, c: Catalogue, growth: bool, st: Stage, k: nat, start: nat, i: nat, n: nat)
    requires |src| == |c.free| && AllFit(c.files, |src|) && Sound(c) && i < k < |c.files|
    requires Laid(src, c, growth, st, k) && n < |src|
    requires InRange(growth, c.files[k], start, n) ==> !st.fixed[n]
    requires Owns(c.files[i], n) || InTarget(c.files[i], st.starts[i], n)
    ensures !Owns(c.files[k], n) && !InTarget(c.files[k], start, n)
  {
    hide FileDone, Earliest, InRange, InTarget, Fixed, Cleared, Metadata, Owns, Sound, DiskRight;
    if Owns(c.files[i], n) {
      OwnFixed(c, i, n);
      OwnersApart(c, i, k, n);
    } else {
      TargetInRange(growth, c.files[i], st.starts[i], n);
      assert Taken(growth, c.files, st.starts, k, n);
      if Owns(c.files[k], n) {
        OwnFixed(c, k, n);
        assert false;
      }
    }
    if InTarget(c.files[k], start, n) {
      TargetInRange(growth, c.files[k], start, n);
      assert false;
    }
  }

  lemma DiskNext(src: Volume, c: Catalogue, growth: bool, st: Stage, k: nat, next: Stage)
    requires |src| == |c.free| && AllFit(c.files, |src|) && Sound(c) && k < |c.files|
    requires Laid(src, c, growth, st, k) && Place(src, c.ffs, growth, st, c.files[k]) == Some(next)
    ensures DiskRight(src, c, next, k + 1)
  {
    hide Place, FileDone, Earliest, Apart, InRange, InTarget, Fixed, Cleared, Metadata, Owns, Sound, MapsRight;
    var f, start := c.files[k], next.starts[k];
    OwnApart(c, k);
    forall n: nat | Owns(f, n) && n < |src| ensures st.fixed[n] && st.disk[n] == src[n] {
      OwnUntouched(src, c, growth, st, k, n);
    }
    PlaceDoes(src, c.ffs, growth, st, f, next);
    PlaceMarks(src, c.ffs, growth, st, f, next);
    forall i | 0 <= i < k ensures FileDone(src, next.disk, c.ffs, c.files[i], next.starts[i]) {
      assert next.starts[i] == st.starts[i];
      forall n | 0 <= n < |src| && (Owns(c.files[i], n) || InTarget(c.files[i], st.starts[i], n))
        ensures next.disk[n] == st.disk[n]
      {
        OthersKept(src, c, growth, st, k, start, i, n);
      }
      DoneStays(src, st.disk, next.disk, c.ffs, c.files[i], st.starts[i]);
    }
    forall n | n in Metadata(c) && n < |src| && !Touched(c.files, k + 1, n) ensures next.disk[n] == src[n] {
      RestKept(src, c, growth, st, k, start, n);
    }
  }

  lemma RestKept(src: Volume, c: Catalogue, growth: bool, st: Stage, k: nat, start: nat, n: nat)
    requires |src| == |c.free| && AllFit(c.files, |src|) && Sound(c) && k < |c.files|
    requires Laid(src, c, growth, st, k) && n < |src| && n in Metadata(c) && !Touched(c.files, k + 1, n)
    requires InRange(growth, c.files[k], start, n) ==> !st.fixed[n]
    ensures !Owns(c.files[k], n) && !InTarget(c.files[k], start, n) && st.disk[n] == src[n]
  {
    hide FileDone, Earliest, InRange, InTarget, Metadata, Owns;
    assert !Touched(c.files, k, n) && !Owns(c.files[k], n) by {
      assert forall i | 0 <= i < k + 1 :: !Owns(c.files[i], n);
    }
    assert st.fixed[n];
    if InTarget(c.files[k], start, n) {
      TargetInRange(growth, c.files[k], start, n);
      assert false;
    }
  }

  /** Every placement step keeps the layout right. */
  lemma {:induction false} LaidAlways(src: Volume, c: Catalogue, growth: bool, k: nat)
    requires |src| == |c.free| && AllFit(c.files, |src|) && Sound(c) && k <= |c.files|
    requires PlaceFirst(src, c.ffs, growth, Begun(src, c), c.files, k).Some?
    ensures Laid(src, c, growth, PlaceFirst(src, c.ffs, growth, Begun(src, c), c.files, k).value, k)
  {
    hide Laid, Place, Sound;
    if k == 0 {
      LaidStart(src, c, growth);
    } else {
      LaidAlways(src, c, growth, k - 1);
      var mid := PlaceFirst(src, c.ffs, growth, Begun(src, c), c.files, k - 1).value;
      LaidNext(src, c, growth, mid, k - 1, PlaceFirst(src, c.ffs, growth, Begun(src, c), c.files, k).value);
    }
  }
}
