/** The Amiga engine at work: choosing runs, moving data, rewriting pointers and the bitmap in the working image, and
    copying allocated runs in batches. */
module AffsEngine {
  import opened Wrappers
  import opened Bytes
  import opened AffsBlocks
  import opened AffsVolume
  import opened AffsBitmap
  import opened AffsRescan
  import opened AffsStage
  import opened AffsLayout
  import opened AffsFinish
  import opened AffsCommit

  const BATCH := 8192

  // ---- lemmas about first fit and copying -------------------------------------------------------

  /** A fixed block inside the tried run rules out every start up to it. */
  lemma {:induction false} FitSkips(fixed: seq<bool>, total: nat, s: nat, k: nat)
    requires k < total && s + total <= |fixed| && fixed[s + k]
    ensures Fit(fixed, total, s) == Fit(fixed, total, s + k + 1)
    decreases k
  {
    assert !Clear(fixed, s, total);
    if k > 0 && s + 1 + total <= |fixed| {
      FitSkips(fixed, total, s + 1, k - 1);
    }
  }

  /** Blocks of the run at index j that follow one another, at most a batch of them. */
  method ContiguousFileRun(data: seq<nat>, index: nat) returns (count: nat)
    requires index < |data|
    ensures 1 <= count <= BATCH && index + count <= |data|
    ensures forall i | index <= i < index + count :: data[i] == data[index] + (i - index)
    ensures index + count < |data| && count < BATCH ==> data[index + count] != data[index] + count
  {
    count := 1;
    while index + count < |data| && count < BATCH && data[index + count] == data[index] + count
      invariant 1 <= count <= BATCH && index + count <= |data|
      invariant forall i | index <= i < index + count :: data[i] == data[index] + (i - index)
    {
      count := count + 1;
    }
  }

  /** Blocks from start on that are allocated, at most a batch of them. */
  method AllocatedRun(free: seq<bool>, start: nat) returns (count: nat)
    requires start < |free| && !free[start]
    ensures 1 <= count <= BATCH && start + count <= |free|
    ensures forall n | start <= n < start + count :: !free[n]
  {
    count := 0;
    while start + count < |free| && count < BATCH && !free[start + count]
      invariant count <= BATCH && start + count <= |free|
      invariant forall n | start <= n < start + count :: !free[n]
    {
      count := count + 1;
    }
  }

  /** The first j data blocks are in place and marked used; nothing else has changed. */
  ghost predicate MovedSoFar(src: Volume, before: Volume, now: Volume, free: seq<bool>, freeNow: seq<bool>,
                             ffs: bool, f: File, start: nat, j: nat)
    requires |src| == |before| && FileFits(f, |src|) && start + |f.data| <= |src| && j <= |f.data|
  {
    && |now| == |src| && |free| == |freeNow| == |src|
    && (forall n | 0 <= n < |src| ::
         now[n] == if start <= n < start + j then CarriedBlock(src, before, ffs, f, start, n)
       else before[n])
    && (forall n | 0 <= n < |src| :: freeNow[n] == if start <= n < start + j then false else free[n])
  }

  lemma NothingMoved(src: Volume, before: Volume, free: seq<bool>, ffs: bool, f: File, start: nat)
    requires |src| == |before| == |free| && FileFits(f, |src|) && start + |f.data| <= |src|
    ensures MovedSoFar(src, before, before, free, free, ffs, f, start, 0)
  {
  }

  lemma MovedMore(src: Volume, before: Volume, was: Volume, now: Volume, free: seq<bool>, wasFree: seq<bool>,
      freeNow: seq<bool>, ffs: bool, f: File, start: nat, j: nat, buffer: seq<Block>)
    requires |src| == |before| && FileFits(f, |src|) && start + |f.data| <= |src| && j + |buffer| <= |f.data|
    requires MovedSoFar(src, before, was, free, wasFree, ffs, f, start, j) && |now| == |freeNow| == |src|
    requires forall i | j <= i < j + |buffer| ::
               buffer[i - j] == Moved(ffs, src[f.data[i]], f.header, i, |f.data|, start)
    requires forall n | 0 <= n < |src| ::
               now[n] == if start + j <= n < start + j + |buffer| then buffer[n - (start + j)]
             else was[n]
    requires forall n | 0 <= n < |src| ::
               freeNow[n] == if start + j <= n < start + j + |buffer| then false else wasFree[n]
    ensures MovedSoFar(src, before, now, free, freeNow, ffs, f, start, j + |buffer|)
  {
    hide Moved;
    forall n | start + j <= n < start + j + |buffer| ensures now[n] == CarriedBlock(src, before, ffs, f, start, n) {
      assert buffer[(n - start) - j] == Moved(ffs, src[f.data[n - start]], f.header, n - start, |f.data|, start);
    }
  }

  lemma AllMoved(src: Volume, before: Volume, now: Volume, free: seq<bool>, freeNow: seq<bool>, ffs: bool, f: File,
      start: nat)
    requires |src| == |before| && FileFits(f, |src|) && start + |f.data| <= |src|
    requires MovedSoFar(src, before, now, free, freeNow, ffs, f, start, |f.data|)
    ensures now == Carried(src, before, ffs, f, start) && freeNow == Marked(free, start, |f.data|, false)
  {
    hide Moved;
    forall n | 0 <= n < |src| ensures now[n] == CarriedBlock(src, before, ffs, f, start, n) {
    }
  }

  class WorkingImage {
    const blocks: array<Block>
    const freeMap: array<bool>
    const fixedMap: array<bool>

    ghost predicate Valid()
      reads this
    {
      blocks.Length == freeMap.Length == fixedMap.Length < U32_LIMIT && freeMap != fixedMap
    }

    ghost function Value(starts: seq<nat>): Stage
      reads this, blocks, freeMap, fixedMap
    {
      Stage(blocks[..], freeMap[..], fixedMap[..], starts)
    }

    /** The image is created as a copy of the allocated blocks, with the maps of its scan and the file data cleared. */
    constructor (src: Volume, c: Catalogue)
      requires |src| == |c.free| < U32_LIMIT
      ensures Valid() && fresh(blocks) && fresh(freeMap) && fresh(fixedMap)
      ensures Value([]) == Begun(src, c)
    {
      var copy := Copied(src, c.free);
      var cleared, fixed := Cleared(c), Fixed(c);
      blocks := new Block[|src|](i requires 0 <= i < |src| => copy[i]);
      freeMap := new bool[|src|](i requires 0 <= i < |src| => cleared[i]);
      fixedMap := new bool[|src|](i requires 0 <= i < |src| => fixed[i]);
      new;
      assert blocks[..] == copy && freeMap[..] == cleared && fixedMap[..] == fixed;
    }

    /** First fit: after a fixed block at offset k the search goes on behind it. */
    method ChooseRun(need: nat, reserve: nat) returns (start: Option<nat>)
      requires Valid() && need > 0
      modifies fixedMap
      ensures start == Fit(old(fixedMap[..]), need + reserve, 2)
      ensures fixedMap[..] == if start.None? then old(fixedMap[..])
              else Marked(old(fixedMap[..]), start.value, need + reserve, true)
    {
      ghost var fixed := fixedMap[..];
      var s := 2;
      while s + need + reserve <= fixedMap.Length
        invariant fixedMap[..] == fixed
        invariant s >= 2 && Fit(fixed, need + reserve, s) == Fit(fixed, need + reserve, 2)
        decreases fixedMap.Length - s
      {
        var k := 0;
        while k < need + reserve && !fixedMap[s + k]
          invariant k <= need + reserve
          invariant forall i | s <= i < s + k :: !fixedMap[i]
        {
          k := k + 1;
        }
        if k == need + reserve {
          assert Clear(fixed, s, need + reserve);
          Occupy(s, need + reserve);
          return Some(s);
        }
        FitSkips(fixed, need + reserve, s, k);
        s := s + k + 1;
      }
      start := None;
    }

    method Occupy(start: nat, n: nat)
      requires Valid() && start + n <= fixedMap.Length
      modifies fixedMap
      ensures fixedMap[..] == Marked(old(fixedMap[..]), start, n, true)
    {
      for k := 0 to n
        invariant fixedMap[..] == Marked(old(fixedMap[..]), start, k, true)
      {
        fixedMap[start + k] := true;
      }
    }

    /** File data, run by run of the source; OFS blocks are relinked on the way. */
    method MoveFileData(src: Volume, ffs: bool, f: File, start: nat)
      requires Valid() && |src| == blocks.Length && FileFits(f, |src|) && start + |f.data| <= |src|
      modifies blocks, freeMap
      ensures blocks[..] == Carried(src, old(blocks[..]), ffs, f, start)
      ensures freeMap[..] == Marked(old(freeMap[..]), start, |f.data|, false)
    {
      hide Moved, CarriedBlock, Marked, FileFits;
      ghost var before, free := blocks[..], freeMap[..];
      var j := 0;
      NothingMoved(src, before, free, ffs, f, start);
      while j < |f.data|
        invariant j <= |f.data|
        invariant MovedSoFar(src, before, blocks[..], free, freeMap[..], ffs, f, start, j)
      {
        var count := ContiguousFileRun(f.data, j);
        var buffer := ReadRun(src, ffs, f, start, j, count);
        ghost var was, wasFree := blocks[..], freeMap[..];
        WriteRun(buffer, start + j);
        MovedMore(src, before, was, blocks[..], free, wasFree, freeMap[..], ffs, f, start, j, buffer);
        j := j + count;
      }
      AllMoved(src, before, blocks[..], free, freeMap[..], ffs, f, start);
    }

    static method Relink(b: Block, header: nat, logical: nat, need: nat, start: nat) returns (r: Block)
      requires header < U32_LIMIT && logical < need && start + need <= U32_LIMIT - 1
      ensures r == Chained(b, header, logical, need, start)
    {
      r := b[1 := header];
      r := r[2 := logical + 1];
      r := r[4 := if logical + 1 < need then start + logical + 1 else 0];
      r := Fixsum(r, 5);
    }

    method WriteRun(buffer: seq<Block>, at: nat)
      requires Valid() && at + |buffer| <= blocks.Length
      modifies blocks, freeMap
      ensures forall n | 0 <= n < blocks.Length ::
                blocks[n] == if at <= n < at + |buffer| then buffer[n - at] else old(blocks[n])
      ensures forall n | 0 <= n < blocks.Length ::
                freeMap[n] == if at <= n < at + |buffer| then false else old(freeMap[n])
    {
      for k := 0 to |buffer|
        invariant forall n | 0 <= n < blocks.Length ::
                    blocks[n] == if at <= n < at + k then buffer[n - at] else old(blocks[n])
        invariant forall n | 0 <= n < blocks.Length :: freeMap[n] == if at <= n < at + k then false else old(freeMap[n])
      {
        blocks[at + k] := buffer[k];
        freeMap[at + k] := false;
      }
    }

    method ReadRun(src: Volume, ffs: bool, f: File, start: nat, j: nat, count: nat) returns (buffer: seq<Block>)
      requires FileFits(f, |src|) && start + |f.data| <= |src| && 0 < count && j + count <= |f.data|
      requires forall i | j <= i < j + count :: f.data[i] == f.data[j] + (i - j)
      ensures |buffer| == count
      ensures forall i | j <= i < j + count :: buffer[i - j] == Moved(ffs, src[f.data[i]], f.header, i, |f.data|, start)
    {
      hide Chained, Csum;
      assert f.data[j + count - 1] == f.data[j] + (count - 1);
      buffer := src[f.data[j]..f.data[j] + count];
      if !ffs {
        for k := 0 to count
          invariant |buffer| == count
          invariant forall i | j <= i < j + count ::
                      buffer[i - j] == if i < j + k then Moved(ffs, src[f.data[i]], f.header, i, |f.data|, start)
                          else src[f.data[i]]
        {
          var block := Relink(buffer[k], f.header, j + k, |f.data|, start);
          buffer := buffer[k := block];
        }
      }
    }

    /** Header first, then the list blocks in chain order, 72 pointers each; all of dest is always used up. */
    method RewritePtrs(f: File, dest: seq<nat>) returns (complete: bool)
      requires Valid() && FileFits(f, blocks.Length) && |dest| == |f.data| && Addresses(dest, blocks.Length)
      modifies blocks
      ensures complete
      ensures blocks[..] == Repointed(old(blocks[..]), f, dest)
    {
      var n := if |dest| < PTRS then |dest| else PTRS;
      assert Chunk(dest, 0) == dest[..n];
      var b := WritePointers(blocks[f.header], true, dest[..n]);
      blocks[f.header] := b;
      var off := n;
      for li := 0 to |f.lists|
        invariant off == Upto(dest, li + 1)
        invariant RefillFrom(blocks[..], f.lists, dest, li) == Repointed(old(blocks[..]), f, dest)
      {
        n := if |dest| - off < PTRS then |dest| - off else PTRS;
        ghost var now := blocks[..];
        assert Chunk(dest, li + 1) == dest[off..off + n];
        b := WritePointers(blocks[f.lists[li]], false, dest[off..off + n]);
        blocks[f.lists[li]] := b;
        assert blocks[..] == now[f.lists[li] := b];
        off := off + n;
      }
      complete := off == |dest|;
    }

    method WriteBitmap(pages: seq<nat>)
      requires Valid() && blocks.Length >= 2 && Addresses(pages, blocks.Length)
      modifies blocks
      ensures blocks[..] == WrittenBitmap(old(blocks[..]), pages, freeMap[..], 0)
    {
      var bits := blocks.Length - 2;
      var free := freeMap[..];
      var bi := 0;
      while bi < |pages| && bi * PAGE_BITS < bits
        invariant WrittenBitmap(blocks[..], pages, free, bi) == WrittenBitmap(old(blocks[..]), pages, free, 0)
      {
        ghost var now := blocks[..];
        var b := FillPage(blocks[pages[bi]], free, bi);
        blocks[pages[bi]] := b;
        assert blocks[..] == now[pages[bi] := b];
        bi := bi + 1;
      }
    }

    /** One file: its run, its data, its reserve, its pointers. */
    method PlaceFile(src: Volume, ffs: bool, growth: bool, f: File, ghost starts: seq<nat>) returns (start: Option<nat>)
      requires Valid() && |src| == blocks.Length && FileFits(f, |src|)
      modifies blocks, freeMap, fixedMap
      ensures Valid()
      ensures start.None? <==> Place(src, ffs, growth, old(Value(starts)), f).None?
      ensures start.Some? ==> Some(Value(starts + [start.value])) == Place(src, ffs, growth, old(Value(starts)), f)
    {
      hide Fit, Carried, Repointed, CarriedBlock;
      ghost var before := Value(starts);
      var need, reserve := |f.data|, Reserve(growth, |f.data|);
      var at := 0;
      if need > 0 {
        start := ChooseRun(need, reserve);
        if start.None? {
          return;
        }
        at := start.value;
        MoveFileData(src, ffs, f, at);
        Release(at + need, reserve);
        DestFits(f, at, |src|);
      }
      start := Some(at);
      assert need == 0 ==> Run(at, need) == [];
      var complete := RewritePtrs(f, Run(at, need));
    }

    method Release(start: nat, n: nat)
      requires Valid() && start + n <= freeMap.Length
      modifies freeMap
      ensures freeMap[..] == Marked(old(freeMap[..]), start, n, true)
    {
      for k := 0 to n
        invariant freeMap[..] == Marked(old(freeMap[..]), start, k, true)
      {
        freeMap[start + k] := true;
      }
    }
  }

  /** A bitmap page: word by word while there are bits left, then its checksum. */
  method FillPage(b: Block, free: seq<bool>, bi: nat) returns (r: Block)
    requires |free| >= 2 && bi * PAGE_BITS < |free| - 2
    ensures r == PageFor(b, free, bi)
  {
    var w: Block := b;
    var bit := bi * PAGE_BITS;
    var li := 1;
    while li < 128 && bit < |free| - 2
      invariant 1 <= li <= 128 && bit == bi * PAGE_BITS + 32 * (li - 1)
      invariant forall i | 0 <= i < LONGS :: w[i] == if i < li then PageWord(b, free, bi, i) else b[i]
    {
      var v := FillWord(free, bit);
      w := w[li := v];
      bit := bit + 32;
      li := li + 1;
    }
    assert w == PageWords(b, free, bi);
    r := Fixsum(w, 0);
  }

  method FillWord(free: seq<bool>, bit: nat) returns (w: word)
    requires |free| >= 2
    ensures w == WordFrom(free, bit, 32)
  {
    w := 0;
    var k := 0;
    while k < 32 && bit + k < |free| - 2
      invariant 0 <= k <= 32 && w == WordFrom(free, bit, k)
    {
      if free[2 + bit + k] {
        WordFits(w, k);
        w := SetBit(w, k);
      }
      k := k + 1;
    }
    NoMoreBits(free, bit, k);
  }

  lemma {:induction false} NoMoreBits(free: seq<bool>, bit: nat, k: nat)
    requires |free| >= 2 && k <= 32 && (k < 32 ==> bit + k >= |free| - 2)
    ensures WordFrom(free, bit, 32) == WordFrom(free, bit, k)
    decreases 32 - k
  {
    if k < 32 {
      NoMoreBits(free, bit, k + 1);
    }
  }

  /** Builds the whole image: every file in scan order, then the bitmap. */
  method BuildStage(src: Volume, c: Catalogue, growth: bool) returns (image: Option<WorkingImage>,
      ghost starts: seq<nat>)
    requires Scan(src) == Some(c)
    ensures image.None? <==> Build(src, c, growth).None?
    ensures image.Some? ==> fresh(image.value) && Some(image.value.Value(starts)) == Build(src, c, growth)
  {
    hide Scan, Place, WrittenBitmap, Begun, PlaceFirst, Build;
    ScanFits(src, c);
    ScanParts(src, c);
    BuildIs(src, c, growth);
    var w := new WorkingImage(src, c);
    starts := [];
    for i := 0 to |c.files|
      invariant w.Valid() && w.blocks.Length == |src|
      invariant fresh(w.blocks) && fresh(w.freeMap) && fresh(w.fixedMap)
      invariant PlaceFirst(src, c.ffs, growth, Begun(src, c), c.files, i) == Some(w.Value(starts))
    {
      ghost var st := w.Value(starts);
      PlacedNext(src, c.ffs, growth, Begun(src, c), c.files, i);
      var start := w.PlaceFile(src, c.ffs, growth, c.files[i], starts);
      if start.None? {
        StaysNone(src, c.ffs, growth, Begun(src, c), c.files, i + 1);
        return None, starts;
      }
      starts := starts + [start.value];
    }
    w.WriteBitmap(c.pages);
    image := Some(w);
  }

  lemma PlacedNext(src: Volume, ffs: bool, growth: bool, st: Stage, files: seq<File>, k: nat)
    requires Sized(st, |src|) && AllFit(files, |src|) && k < |files| && st.starts == []
    requires PlaceFirst(src, ffs, growth, st, files, k).Some?
    ensures PlaceFirst(src, ffs, growth, st, files, k + 1)
         == Place(src, ffs, growth, PlaceFirst(src, ffs, growth, st, files, k).value, files[k])
  {
  }

  lemma BuildIs(src: Volume, c: Catalogue, growth: bool)
    requires Scan(src) == Some(c) && AllFit(c.files, |src|)
    ensures PlaceFirst(src, c.ffs, growth, Begun(src, c), c.files, 0) == Some(Begun(src, c))
    ensures var last := PlaceFirst(src, c.ffs, growth, Begun(src, c), c.files, |c.files|);
            Build(src, c, growth) == if last.None? then None
                                     else Some(last.value.(disk := WrittenBitmap(last.value.disk, c.pages,
                                         last.value.free, 0)))
  {
    hide Scan, Place, WrittenBitmap;
  }

  lemma {:induction false} StaysNone(src: Volume, ffs: bool, growth: bool, st: Stage, files: seq<File>, k: nat)
    requires Sized(st, |src|) && AllFit(files, |src|) && k <= |files| && st.starts == []
    requires PlaceFirst(src, ffs, growth, st, files, k).None?
    ensures PlaceFirst(src, ffs, growth, st, files, |files|).None?
    decreases |files| - k
  {
    hide Place, Sized, FileFits;
    if k < |files| {
      StaysNone(src, ffs, growth, st, files, k + 1);
    }
  }

  /** The commit: allocated runs of the image in ascending order, in batches, until done or asked to stop. */
  method CommitStage(target: array<Block>, image: Stage, stops: nat -> bool) returns (at: nat, written: nat)
    requires target.Length == |image.disk| == |image.free|
    modifies target
    ensures at <= target.Length && (at < target.Length ==> stops(at))
    ensures target[..] == Overwritten(old(target[..]), image, 0, at)
  {
    at, written := 0, 0;
    while at < target.Length
      invariant at <= target.Length
      invariant target[..] == Overwritten(old(target[..]), image, 0, at)
      decreases target.Length - at
    {
      if image.free[at] {
        at := at + 1;
      } else {
        if stops(at) {
          return;
        }
        var count := AllocatedRun(image.free, at);
        CopyRun(target, image.disk, at, count);
        written := written + 512 * count;
        at := at + count;
      }
    }
  }

  method CopyRun(target: array<Block>, source: Volume, from: nat, count: nat)
    requires target.Length == |source| && from + count <= |source|
    modifies target
    ensures target[..] == old(target[..from]) + source[from..from + count] + old(target[from + count..])
  {
    for k := 0 to count
      invariant target[..] == old(target[..from]) + source[from..from + k] + old(target[from + k..])
    {
      target[from + k] := source[from + k];
    }
  }
}
