/** What a scan's catalogue says, read off the directories' own bytes: every object with its fields and its path, and
    every entry set that has data. */
module ExfatCatalogue {
  import opened Bytes
  import opened Checksum
  import opened ExfatVolume
  import opened ExfatDirectory
  import opened ExfatScan
  import opened ExfatTree
  import opened ExfatRoot
  import opened ExfatRelaid
  import opened Wrappers

  /** The entry set at offset s of a directory is well read. */
  predicate WellRead(data: seq<byte>, s: int) {
    && 0 <= s && s + ENTRY <= |data|
    && var n: nat := data[s + 1] as int + 1;
       n >= 2 && s + ENTRY * n <= |data| && ReadSet(data[s..s + ENTRY * n], n).Ok?
  }

  function SetAt(data: seq<byte>, s: nat): EntrySet
    requires WellRead(data, s)
  {
    var n: nat := data[s + 1] as int + 1;
    ReadSet(data[s..s + ENTRY * n], n).value
  }

  /** An object's fields are those of its entry set; its path is that of the directory and its name. */
  ghost predicate Told(v: Volume, o: Obj, path: seq<byte>, data: seq<byte>)
    requires v.Valid()
  {
    && 0 <= o.entryOffset && WellRead(data, o.entryOffset) && data[o.entryOffset] == FILE_ENTRY
    && var es := SetAt(data, o.entryOffset);
       && o.path == path + (if path == [SLASH] then [] else [SLASH]) + es.name
       && o.kind == (if es.directory then DirectoryKind else FileKind) && o.entryCount == es.count
       && o.dataLength == es.length && o.validLength == es.valid && o.noFat == es.noFat
       && o.clusters != []
          && Chain(v, es.first, ClustersFor(es.length, v.clusterSize), true, es.noFat) == Ok(o.clusters)
  }

  predicate FoundAt(objects: seq<Obj>, dir: int, s: int) {
    exists k | 0 <= k < |objects| :: ChildAt(objects, dir, k) && objects[k].entryOffset == s
  }

  /** The walk over a directory from off on stops at an entry set at s. */
  predicate SetStop(data: seq<byte>, off: nat, s: nat) {
    OnWalk(data, off, s) && s + ENTRY <= |data| && data[s] == FILE_ENTRY
  }

  /** Every entry set of a directory is well read, and has an object exactly when its stream is not empty. */
  ghost predicate AllFound(objects: seq<Obj>, dir: int, data: seq<byte>, off: nat) {
    forall s: nat | SetStop(data, off, s) ::
      WellRead(data, s) && (SetAt(data, s).length != 0 ==> FoundAt(objects, dir, s))
  }

  ghost predicate ChildrenTold(v: Volume, objects: seq<Obj>, dir: int, path: seq<byte>, data: seq<byte>, lo: nat)
    requires v.Valid()
  {
    forall k | lo <= k < |objects| && ChildAt(objects, dir, k) :: Told(v, objects[k], path, data)
  }

  /** A directory of the catalogue: its children are told by its bytes, and none is missing. */
  ghost predicate DirTold(v: Volume, objects: seq<Obj>, d: nat)
    requires v.Valid() && d < |objects|
  {
    && InHeap(v, objects[d])
    && var data := ReadAll(v, objects[d].clusters);
       ChildrenTold(v, objects, d, objects[d].path, data, 0) && AllFound(objects, d, data, 0)
  }

  // ---- one step ---------------------------------------------------------------------------------

  lemma FoundIsTold(v: Volume, parent: nat, path: seq<byte>, data: seq<byte>, off: nat)
    requires v.Valid() && NextEntry(v, parent, path, data, off).Found?
    ensures Told(v, NextEntry(v, parent, path, data, off).item, path, data)
    ensures NextEntry(v, parent, path, data, off).item.entryOffset == off
    ensures NextEntry(v, parent, path, data, off).item.parent == parent
    ensures off + ENTRY <= |data| && data[off] == FILE_ENTRY && WellRead(data, off)
  {
    hide ReadSet, Chain, ClustersFor;
    SetCount(data, off);
  }

  lemma SetCount(data: seq<byte>, s: nat)
    ensures WellRead(data, s) ==> SetAt(data, s).count == data[s + 1] as int + 1
  {
    hide EntrySum;
  }

  lemma SkippedIsEmpty(v: Volume, parent: nat, path: seq<byte>, data: seq<byte>, off: nat)
    requires v.Valid() && NextEntry(v, parent, path, data, off).Skip? && data[off] == FILE_ENTRY
    ensures WellRead(data, off) && SetAt(data, off).length == 0
  {
    hide ReadSet, Chain;
  }

  lemma WalkStep(data: seq<byte>, off: nat, s: nat)
    requires OnWalk(data, off, s) && s != off
    ensures off + ENTRY <= |data| && OnWalk(data, off + EntrySize(data, off), s)
  {
  }

  /** Nothing is on a walk that has ended. */
  lemma WalkEnds(v: Volume, parent: nat, path: seq<byte>, data: seq<byte>, off: nat, s: nat)
    requires v.Valid() && NextEntry(v, parent, path, data, off).End?
    ensures !OnWalk(data, off, s)
  {
    hide ReadSet, Chain;
  }

  // ---- a whole parse ----------------------------------------------------------------------------

  /** What a parse of directory parent from off on has added. */
  ghost predicate Tells(v: Volume, before: seq<Obj>, after: seq<Obj>, parent: nat, path: seq<byte>, data: seq<byte>,
                        off: nat)
    requires v.Valid()
  {
    && before <= after
    && ChildrenTold(v, after, parent, path, data, |before|) && AllFound(after, parent, data, off)
    && DirsTold(v, after, |before|)
  }

  ghost predicate DirsTold(v: Volume, after: seq<Obj>, lo: nat)
    requires v.Valid()
  {
    forall d | lo <= d < |after| && after[d].kind == DirectoryKind :: DirTold(v, after, d)
  }

  lemma FoundMore(objects: seq<Obj>, more: seq<Obj>, dir: int, s: int)
    requires objects <= more && FoundAt(objects, dir, s)
    ensures FoundAt(more, dir, s)
  {
    var k :| 0 <= k < |objects| && ChildAt(objects, dir, k) && objects[k].entryOffset == s;
    assert more[k] == objects[k] && ChildAt(more, dir, k);
  }

  lemma AllFoundMore(objects: seq<Obj>, more: seq<Obj>, dir: int, data: seq<byte>, off: nat)
    requires objects <= more && AllFound(objects, dir, data, off)
    ensures AllFound(more, dir, data, off)
  {
    hide OnWalk, WellRead, SetAt, FoundAt;
    forall s: nat | SetStop(data, off, s)
      ensures WellRead(data, s) && (SetAt(data, s).length != 0 ==> FoundAt(more, dir, s))
    {
      if FoundAt(objects, dir, s) { FoundMore(objects, more, dir, s); }
    }
  }

  /** Directories already told stay so when only children of others are added. */
  lemma DirsStay(v: Volume, mid: seq<Obj>, after: seq<Obj>, lo: nat)
    requires v.Valid() && mid <= after && DirsTold(v, mid, lo)
    requires forall k | |mid| <= k < |after| :: after[k].parent < lo || after[k].parent >= |mid|
    ensures forall d | lo <= d < |mid| && after[d].kind == DirectoryKind :: DirTold(v, after, d)
  {
    hide Told, AllFound, ReadAll;
    forall d | lo <= d < |mid| && after[d].kind == DirectoryKind ensures DirTold(v, after, d) {
      assert after[d] == mid[d] && DirTold(v, mid, d);
      var data := ReadAll(v, mid[d].clusters);
      AllFoundMore(mid, after, d, data, 0);
      forall k | 0 <= k < |after| && ChildAt(after, d, k) ensures Told(v, after[k], after[d].path, data) {
        assert k < |mid| && mid[k] == after[k] && ChildAt(mid, d, k);
      }
    }
  }

  lemma TellsSkip(v: Volume, w: Walk, parent: nat, path: seq<byte>, data: seq<byte>, off: nat, after: seq<Obj>)
    requires v.Valid() && NextEntry(v, parent, path, data, off).Skip?
    requires Tells(v, w.objects, after, parent, path, data, NextEntry(v, parent, path, data, off).next)
    ensures Tells(v, w.objects, after, parent, path, data, off)
  {
    hide Told, WellRead, SetAt, FoundAt, DirTold, OnWalk, NextEntry;
    NextSize(v, parent, path, data, off);
    forall s: nat | SetStop(data, off, s)
      ensures WellRead(data, s) && (SetAt(data, s).length != 0 ==> FoundAt(after, parent, s))
    {
      if s == off { SkippedIsEmpty(v, parent, path, data, off); } else { WalkStep(data, off, s); }
    }
  }

  lemma TellsEnd(v: Volume, w: Walk, parent: nat, path: seq<byte>, data: seq<byte>, off: nat)
    requires v.Valid() && NextEntry(v, parent, path, data, off).End?
    ensures Tells(v, w.objects, w.objects, parent, path, data, off)
  {
    hide Told, WellRead, SetAt, FoundAt, DirTold, OnWalk, NextEntry;
    forall s: nat ensures !OnWalk(data, off, s) {
      WalkEnds(v, parent, path, data, off, s);
    }
  }

  /** One object with all below it, and then the rest of the directory. */
  lemma TellsFound(v: Volume, w: Walk, parent: nat, path: seq<byte>, data: seq<byte>, off: nat, mid: seq<Obj>,
      after: seq<Obj>)
    requires v.Valid() && NextEntry(v, parent, path, data, off).Found? && parent < |w.objects|
    requires var r := NextEntry(v, parent, path, data, off);
             && w.objects + [r.item] <= mid && Tells(v, mid, after, parent, path, data, r.next)
    requires DirsTold(v, mid, |w.objects|)
    requires forall k | |w.objects| < k < |mid| :: mid[k].parent >= |w.objects|
    requires forall k | |mid| <= k < |after| :: after[k].parent == parent || after[k].parent >= |mid|
    ensures Tells(v, w.objects, after, parent, path, data, off)
  {
    hide Told, WellRead, SetAt, FoundAt, DirTold, OnWalk, NextEntry;
    var o := NextEntry(v, parent, path, data, off).item;
    FoundIsTold(v, parent, path, data, off);
    NextSize(v, parent, path, data, off);
    assert after[|w.objects|] == o && ChildAt(after, parent, |w.objects|);
    forall s: nat | SetStop(data, off, s)
      ensures WellRead(data, s) && (SetAt(data, s).length != 0 ==> FoundAt(after, parent, s))
    {
      if s == off { IsFound(after, parent, |w.objects|); } else { WalkStep(data, off, s); }
    }
    forall k | |w.objects| <= k < |after| && ChildAt(after, parent, k) ensures Told(v, after[k], path, data) {
      if k < |mid| { assert after[k] == mid[k]; }
    }
    DirsStay(v, mid, after, |w.objects|);
  }

  lemma IsFound(objects: seq<Obj>, dir: int, k: nat)
    requires k < |objects| && ChildAt(objects, dir, k)
    ensures FoundAt(objects, dir, objects[k].entryOffset)
  {
  }

  lemma {:induction false} ParseTells(v: Volume, w: Walk, parent: nat, path: seq<byte>, data: seq<byte>, off: nat)
    requires v.Valid() && ParseDir(v, w, parent, path, data, off).Ok?
    requires parent < |w.objects| && Ordered(w.objects) && off % ENTRY == 0
    ensures Tells(v, w.objects, ParseDir(v, w, parent, path, data, off).value.objects, parent, path, data, off)
    decreases v.HeapSet() - w.visited, |data| - off
  {
    hide NextEntry, ParseDir, Tells, ReadAll, SetRead, Told, AllFound, DirsTold;
    PassEntry(v, w, parent, path, data, off);
    NextSize(v, parent, path, data, off);
    match NextEntry(v, parent, path, data, off)
    case End =>
      TellsEnd(v, w, parent, path, data, off);
    case Skip(next) =>
      ParseTells(v, w, parent, path, data, next);
      TellsSkip(v, w, parent, path, data, off, ParseDir(v, w, parent, path, data, next).value.objects);
    case Found(o, next) =>
      FoundIsRead(v, parent, path, data, off);
      var mid := Walk(w.objects + [o], w.visited);
      if o.kind == FileKind {
        FileTold(v, w.objects, o);
      } else {
        EnterDirectory(v, w, parent, path, data, off, o, next);
        assert o.clusters[0] in v.HeapSet() - w.visited;
        var w2 := Walk(w.objects + [o], w.visited + {o.clusters[0]});
        var below := ReadAll(v, o.clusters);
        ParseGrows(v, w2, |w.objects|, o.path, below, 0);
        ParseTells(v, w2, |w.objects|, o.path, below, 0);
        mid := ParseDir(v, w2, |w.objects|, o.path, below, 0).value;
        SubtreeTold(v, w.objects, o, mid.objects);
      }
      ParseGrows(v, mid, parent, path, data, next);
      ParseTells(v, mid, parent, path, data, next);
      var after := ParseDir(v, mid, parent, path, data, next).value.objects;
      GrownParents(v, mid.objects, after, parent, data, next);
      TellsFound(v, w, parent, path, data, off, mid.objects, after);
  }

  lemma FileTold(v: Volume, before: seq<Obj>, o: Obj)
    requires v.Valid() && o.kind == FileKind
    ensures DirsTold(v, before + [o], |before|)
  {
  }

  lemma GrownParents(v: Volume, before: seq<Obj>, after: seq<Obj>, parent: nat, data: seq<byte>, off: nat)
    requires v.Valid() && Grown(v, before, after, parent, data, off)
    ensures before <= after
    ensures forall k | |before| <= k < |after| :: after[k].parent == parent || after[k].parent >= |before|
  {
  }

  /** A directory is told once its own parse has told it. */
  lemma SubtreeTold(v: Volume, before: seq<Obj>, o: Obj, after: seq<Obj>)
    requires v.Valid() && Ordered(before) && InHeap(v, o) && o.parent < |before|
    requires Grown(v, before + [o], after, |before|, ReadAll(v, o.clusters), 0)
    requires Tells(v, before + [o], after, |before|, o.path, ReadAll(v, o.clusters), 0)
    ensures before + [o] <= after && DirsTold(v, after, |before|)
    ensures forall k | |before| < k < |after| :: after[k].parent >= |before|
  {
    hide Told, AllFound, ReadAll, SetRead;
    var k0 := |before|;
    GrownParents(v, before + [o], after, k0, ReadAll(v, o.clusters), 0);
    assert after[k0] == o && after[k0].path == o.path;
    assert forall i | 0 <= i < k0 :: after[i] == before[i];
    assert DirTold(v, after, k0);
  }

  // ---- the whole catalogue ----------------------------------------------------------------------

  /** The catalogue of a scanned volume: the bitmap, the up-case table and the root directory; then, for the root and
      every directory below it, exactly the entry sets that have data, each with the kind, lengths, flag, clusters and
      name its bytes give it. */
  lemma CatalogueTold(v: Volume, cat: Catalogue)
    requires Scans(v, cat)
    ensures |cat.objects| > 2 && cat.objects[0].kind == BitmapKind && cat.objects[1].kind == UpcaseKind
    ensures cat.objects[2].kind == RootKind && cat.objects[2].path == [SLASH]
    ensures Chain(v, v.root, 0, false, false) == Ok(cat.objects[2].clusters)
    ensures forall d | 2 <= d < |cat.objects| && cat.objects[d].Directory() :: DirTold(v, cat.objects, d)
    ensures forall k | 3 <= k < |cat.objects| ::
              2 <= cat.objects[k].parent < k && cat.objects[cat.objects[k].parent].Directory()
  {
    hide *;
    var first, root := FirstRead(v, cat);
    var w := Walk(first, {v.root});
    ParseGrows(v, w, ROOT_INDEX, [SLASH], root, 0);
    ParseTells(v, w, ROOT_INDEX, [SLASH], root, 0);
    RootTold(v, first, cat.objects, root);
    ParentsFound(v, first, cat.objects, root);
  }

  /** What the parse of the root directory starts from. */
  lemma FirstRead(v: Volume, cat: Catalogue) returns (first: seq<Obj>, root: seq<byte>)
    requires Scans(v, cat)
    ensures v.Valid() && |first| == 3 && Ordered(first) && ROOT_INDEX < |first| && 0 % ENTRY == 0
    ensures first[0].kind == BitmapKind && first[1].kind == UpcaseKind && first[2].kind == RootKind
    ensures first[2].path == [SLASH] && forall i | 0 <= i < 3 :: first[i].parent == NONE
    ensures InHeap(v, first[2]) && (forall i | 0 <= i < |first[2].clusters| :: first[2].clusters[i] < |v.heap|)
    ensures root == ReadAll(v, first[2].clusters) && Chain(v, v.root, 0, false, false) == Ok(first[2].clusters)
    ensures ParseDir(v, Walk(first, {v.root}), ROOT_INDEX, [SLASH], root, 0).Ok?
    ensures ParseDir(v, Walk(first, {v.root}), ROOT_INDEX, [SLASH], root, 0).value.objects == cat.objects
    ensures forall i | 3 <= i < |cat.objects| :: cat.objects[i].kind != RootKind
    ensures SystemEntries(v, root, 0, NoSystem) == Ok(cat.system)
  {
    hide ParseDir, SystemEntries, Chain, TableSum, ReadAll, ExactOwnership, SystemFound, StopsOnWalk, Bit;
    ScanUnderstands(v, cat);
    var rootClusters := Chain(v, v.root, 0, false, false).value;
    ChainShape(v, v.root, 0, false, false);
    root := ReadAll(v, rootClusters);
    first := FirstObjects(cat.system, rootClusters, |root|);
  }

  lemma RootTold(v: Volume, first: seq<Obj>, all: seq<Obj>, root: seq<byte>)
    requires v.Valid() && |first| == 3 && Tells(v, first, all, ROOT_INDEX, [SLASH], root, 0)
    requires first[0].kind == BitmapKind && first[1].kind == UpcaseKind && first[2].kind == RootKind
    requires forall i | 0 <= i < 3 :: first[i].parent == NONE
    requires first[2].path == [SLASH] && InHeap(v, first[2]) && root == ReadAll(v, first[2].clusters)
    requires forall i | 3 <= i < |all| :: all[i].kind != RootKind
    ensures forall d | 2 <= d < |all| && all[d].Directory() :: DirTold(v, all, d)
    ensures |all| > 2 && forall i | 0 <= i < 3 :: all[i] == first[i]
  {
    hide Told, AllFound, ReadAll, InHeap;
    assert forall i | 0 <= i < 3 :: all[i] == first[i];
  }

  lemma ParentsFound(v: Volume, first: seq<Obj>, all: seq<Obj>, root: seq<byte>)
    requires v.Valid() && |first| == 3 && Grown(v, first, all, ROOT_INDEX, root, 0) && first[2].kind == RootKind
    ensures forall k | 3 <= k < |all| :: 2 <= all[k].parent < k && all[all[k].parent].Directory()
  {
    hide ReadAll, SetRead, InHeap;
    assert all[2] == first[2];
  }

  // ---- system entries ---------------------------------------------------------------------------

  /** The search of the root directory gets to an entry at off: no entry up to there has type zero. */
  predicate Seen(root: seq<byte>, off: nat) {
    && off % ENTRY == 0 && off + ENTRY <= |root|
    && forall p | 0 <= p <= off && p % ENTRY == 0 :: root[p] != 0
  }

  /** From an offset that is seen, or the start, on. */
  predicate SeenTo(root: seq<byte>, off: nat) {
    off % ENTRY == 0 && forall p | 0 <= p < off && p % ENTRY == 0 && p < |root| :: root[p] != 0
  }

  lemma {:induction false} OnlyActive(v: Volume, root: seq<byte>, off: nat, s: System, at: nat)
    requires v.Valid() && SeenTo(root, off) && SystemFound(v, root, s) && SystemEntries(v, root, off, s).Ok?
    requires Seen(root, at) && at >= off
    ensures var f := SystemEntries(v, root, off, s).value;
            && (ActiveEntry(root, at, BitmapKind) ==> f.bitmapOffset == at)
            && (ActiveEntry(root, at, UpcaseKind) ==> f.upcaseOffset == at)
    decreases |root| - off
  {
    hide StreamClusters, SystemFound, Bit, U64;
    var next := TakeEntry(v, root, off, s).value;
    TakeEntryFound(v, root, off, s);
    SystemEntriesFound(v, root, off + ENTRY, next);
    if at > off {
      NextAligned(off, at);
      OnlyActive(v, root, off + ENTRY, next, at);
    }
  }

  lemma NextAligned(off: nat, at: nat)
    requires off % ENTRY == 0 && at % ENTRY == 0 && at > off
    ensures at >= off + ENTRY && (off + ENTRY) % ENTRY == 0
    ensures forall p | off < p < off + ENTRY :: p % ENTRY != 0
  {
  }

  /** The one active bitmap entry and the one up-case entry that the search sees, with the lengths and
      clusters they name. */
  lemma SystemTold(v: Volume, cat: Catalogue)
    requires Scans(v, cat)
    ensures |cat.objects| > 2 && InHeap(v, cat.objects[2])
    ensures var root, f := ReadAll(v, cat.objects[2].clusters), cat.system;
            && EntryRead(v, root, f.bitmapOffset, BitmapKind, f.bitmapLength, f.bitmapClusters)
            && EntryRead(v, root, f.upcaseOffset, UpcaseKind, f.upcaseLength, f.upcaseClusters)
            && forall at: nat | Seen(root, at) ::
                 && (ActiveEntry(root, at, BitmapKind) ==> at == f.bitmapOffset)
                 && (ActiveEntry(root, at, UpcaseKind) ==> at == f.upcaseOffset)
    ensures cat.objects[0].clusters == cat.system.bitmapClusters && cat.objects[1].clusters == cat.system.upcaseClusters
    ensures cat.objects[0].dataLength == cat.system.bitmapLength && cat.objects[1].dataLength == cat.system.upcaseLength
  {
    hide ParseDir, Chain, ReadAll, ExactOwnership, StopsOnWalk, ActiveEntry, EntryRead, Seen, ReadCatalogue,
         SystemEntries;
    var first, root := FirstRead(v, cat);
    CatalogueTold(v, cat);
    ScanUnderstands(v, cat);
    assert cat.objects[2].clusters == first[2].clusters;
    NothingFound(v, root);
    SystemEntriesFound(v, root, 0, NoSystem);
    forall at: nat | Seen(root, at)
      ensures ActiveEntry(root, at, BitmapKind) ==> at == cat.system.bitmapOffset
      ensures ActiveEntry(root, at, UpcaseKind) ==> at == cat.system.upcaseOffset
    {
      OnlyActive(v, root, 0, NoSystem, at);
    }
  }
}
