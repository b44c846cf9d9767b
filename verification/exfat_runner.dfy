/** The relayout and the recovery, step by step over a mutable disk, proved to follow the traces of the protocol. */
module ExfatRunner {
  import opened Bytes
  import opened Checksum
  import opened ExfatVolume
  import opened ExfatScan
  import opened ExfatManifest
  import opened ExfatCanonical
  import opened ExfatMeaning
  import opened ExfatRelaid
  import opened ExfatPlan
  import opened ExfatBuilder
  import opened ExfatBoot
  import opened ExfatOpen
  import opened ExfatDevice
  import opened ExfatProtocol
  import opened ExfatJob
  import opened ExfatRecovery
  import opened ExfatReplay
  import opened ExfatCourse
  import opened ExfatEngine
  import opened Wrappers

  /** The workspace holds every object. */
  ghost predicate StagedIn(e: Job, img: Image)
    requires Ready(e)
  {
    forall i, j | CellOf(e, i, j) :: StagedCell(e, i, j) in img && img[StagedCell(e, i, j)] == CellContent(e, i, j)
  }

  lemma {:induction false} ReadAlike(v: Volume, a: seq<nat>, v2: Volume, b: seq<nat>)
    requires |a| == |b| && (forall j | 0 <= j < |a| ::
               a[j] < |v.heap| && b[j] < |v2.heap| && v.heap[a[j]] == v2.heap[b[j]])
    ensures ReadAll(v, a) == ReadAll(v2, b)
  {
    if a != [] { ReadAlike(v, a[1..], v2, b[1..]); }
  }

  lemma RecordAt(e: Job, cat: Catalogue, i: nat)
    requires Ready(e) && Built(e, cat) && i < |e.lists|
    ensures |e.m| == |e.lists| == |e.targets| == |cat.objects| && e.lists[i] == cat.objects[i].clusters
            && e.m[i].kind == cat.objects[i].kind
    ensures e.m[i].target == e.targets[i] && e.m[i].clusters == |e.lists[i]|
    ensures e.m[i].staged == e.workspace + Total(e.lists, i) && e.m[i].staged + e.m[i].clusters <= e.g.clusterCount + 2
    ensures HeapRun(e.g, e.m[i].target, e.m[i].clusters) && HeapRun(e.g, e.m[i].staged, e.m[i].clusters)
    ensures e.m[i].target + e.m[i].clusters <= e.workspace <= e.m[i].staged
    ensures forall k | 0 <= k < |e.m| :: e.m[k].target < U32_LIMIT
  {
    hide Ready, Built, Total;
    BuiltRecord(e, cat, i);
    BuiltLengths(e, cat, i);
    ReadyTargets(e);
    TotalGrows(e.lists, i, |e.lists|);
    assert 2 <= e.targets[i];
  }

  lemma SameLength(e: Job, cat: Catalogue)
    requires Built(e, cat)
    ensures |cat.objects| == |e.lists|
  {
    hide Scans, SystemApart, GoodTargets, Populate, PayloadsOf, FinalFat;
  }

  lemma BuiltLengths(e: Job, cat: Catalogue, i: nat)
    requires Built(e, cat) && i < |e.lists|
    ensures |cat.objects| == |e.lists| && e.lists[i] == cat.objects[i].clusters
  {
    hide Scans, SystemApart, GoodTargets, Populate, PayloadsOf, FinalFat;
  }

  /** What is staged for object i is what the object held, so placing its record makes its canonical payload. */
  lemma StagedRead(e: Job, cat: Catalogue, img: Image, i: nat)
    requires Ready(e) && Built(e, cat) && Sized(e.g, img) && StagedIn(e, img) && i < |e.lists|
    ensures |e.m| == |e.lists| == |e.payloads| && HeapRun(e.g, e.m[i].staged, e.m[i].clusters)
    ensures forall k | 0 <= k < |e.m| :: e.m[k].target < U32_LIMIT
    ensures Payload(e.m, e.g.clusterCount, i, StagedBytes(e.g, img, e.m[i].staged, e.m[i].clusters))
            == Some(e.payloads[i])
  {
    hide Ready, Built, Payload, CellContent, Total;
    RecordAt(e, cat, i);
    ReadyTargets(e);
    ReadySizes(e);
    BuiltPayload(e, cat, i);
    var v, v2 := VolumeOf(e.g, e.orig), VolumeOf(e.g, img);
    var a, b := e.lists[i], Run(e.m[i].staged, e.m[i].clusters);
    forall j | 0 <= j < |a| ensures a[j] < |v.heap| && b[j] < |v2.heap| && v.heap[a[j]] == v2.heap[b[j]] {
      assert CellOf(e, i, j);
      OwnedInside(e, i, j);
      CellContentIs(e, i, j);
      assert StagedCell(e, i, j) == Cluster(b[j]);
    }
    ReadAlike(v, a, v2, b);
  }

  lemma BuiltPayload(e: Job, cat: Catalogue, i: nat)
    requires Built(e, cat) && i < |e.lists|
    ensures VolumeOf(e.g, e.orig).Valid() && |cat.objects| == |e.lists| == |e.payloads| == |e.m|
            && PayloadAt(e, cat.objects, i)
  {
    hide Scans, SystemApart, GoodTargets, Populate, Payload, FinalFat;
    BuiltScan(e, cat);
  }

  /** The steps of the first n records begin the steps of all. */
  lemma {:induction false} PlacePrefix(e: Job, order: seq<nat>, n: nat, all: nat)
    requires Ready(e) && Indexes(e, order) && n <= all <= |order|
    ensures PlaceOps(e, order, n) <= PlaceOps(e, order, all)
  {
    hide Ready, Built, RunOps, Splits;
    if n < all {
      PlacePrefix(e, order, n, all - 1);
      ReadyTargets(e);
    }
  }

  lemma PlaceSplit(e: Job, order: seq<nat>, k: nat)
    requires Ready(e) && Indexes(e, order) && k < |order|
    ensures |e.m| == |e.lists| == |e.targets|
    ensures PlaceOps(e, order, k + 1)
         == PlaceOps(e, order, k) + RunOps(e.payloads[order[k]], e.g.clusterSize, e.targets[order[k]],
             |e.lists[order[k]]|)
  {
    hide Ready, Built, RunOps, Splits;
    ReadyTargets(e);
  }

  /** A stop inside record k is a prefix of the whole placement. */
  lemma StopPrefix(e: Job, order: seq<nat>, k: nat, done: nat) returns (stop: nat)
    requires Ready(e) && Indexes(e, order) && k < |order|
    requires |e.lists| == |e.m| && done <= |e.lists[order[k]]|
    ensures |e.targets| == |e.lists|
    ensures stop <= |PlaceOps(e, order, |order|)|
    ensures PlaceOps(e, order, |order|)[..stop]
         == PlaceOps(e, order, k)
            + RunOps(e.payloads[order[k]], e.g.clusterSize, e.targets[order[k]], |e.lists[order[k]]|)[..done]
  {
    hide Ready, Built, RunOps, Splits, PlaceOps;
    PlaceSplit(e, order, k);
    PlacePrefix(e, order, k + 1, |order|);
    stop := |PlaceOps(e, order, k)| + done;
    var next := PlaceOps(e, order, k + 1);
    assert PlaceOps(e, order, |order|)[..|next|] == next;
    assert PlaceOps(e, order, |order|)[..stop] == next[..stop];
  }

  /** Placing leaves the workspace alone. */
  lemma StagedKept(e: Job, a: Image, b: Image, t: nat, n: nat)
    requires Ready(e) && StagedIn(e, a) && SameOutside(a, b, PlacesOf(Run(t, n))) && t + n <= e.workspace
    ensures StagedIn(e, b)
  {
    hide Ready, Built, CellContent;
    ReadyTargets(e);
    forall i, j | CellOf(e, i, j) ensures StagedCell(e, i, j) in b && b[StagedCell(e, i, j)] == CellContent(e, i, j) {
      StagedInside(e, i, j);
      assert StagedCell(e, i, j) !in PlacesOf(Run(t, n));
    }
  }

  /** Placing the manifest's records in the order of their targets. */
  method ExecuteLayout(disk: Disk, ghost e: Job, ghost cat: Catalogue, m: seq<Record>, order: seq<nat>, buffer: nat,
      honourStop: bool)
    returns (stopped: bool, ghost stop: nat)
    requires disk.Valid() && buffer > 0 && Ready(e) && Built(e, cat) && disk.g == e.g && m == e.m
             && Permutation(order, |e.m|) && Indexes(e, order)
    requires StagedIn(e, disk.now)
    modifies disk`now, disk`log
    ensures disk.Valid() && StagedIn(e, disk.now) && (stopped ==> honourStop)
    ensures stopped ==>
              stop <= |PlaceOps(e, order, |order|)|
              && disk.log == old(disk.log) + PlaceOps(e, order, |order|)[..stop]
    ensures !stopped ==> disk.log == old(disk.log) + ReplayOps(e, order)
  {
    hide Ready, Built, RunOps, PlaceOps, Execute, Payload, StagedIn, Permutation, Places, Sized, StagedBytes;
    ReadyTargets(e);
    NoPlaceOps(e, order);
    stop := 0;
    for position := 0 to |order|
      invariant disk.Valid() && StagedIn(e, disk.now) && disk.log == old(disk.log) + PlaceOps(e, order, position)
    {
      var i := order[position];
      RecordAt(e, cat, i);
      DiskSized(disk);
      StagedRead(e, cat, disk.now, i);
      PlaceSplit(e, order, position);
      ghost var before := disk.now;
      var ok, halted, done := disk.PlaceRecord(m, i, buffer, honourStop);
      StagedKept(e, before, disk.now, m[i].target, m[i].clusters);
      assert ok;
      if halted {
        stop := StopPrefix(e, order, position, done);
        return true, stop;
      }
      AllOps(e.payloads[i], e.g.clusterSize, e.targets[i], |e.lists[i]|);
    }
    disk.Fsync();
    return false, stop;
  }

  lemma NoPlaceOps(e: Job, order: seq<nat>)
    requires Ready(e) && Indexes(e, order)
    ensures PlaceOps(e, order, 0) == []
  {
  }

  lemma DiskSized(disk: Disk)
    requires disk.Valid()
    ensures Sized(disk.g, disk.now)
  {
  }

  // ---- staging and rollback ---------------------------------------------------------------------

  /** The image still agrees with the original on everything below the workspace. */
  lemma StageAgrees(e: Job, img: Image, i: nat)
    requires Ready(e) && SourceIntact(e, img) && i < |e.lists|
    ensures forall j | 0 <= j < |e.lists[i]| ::
              && Cluster(e.lists[i][j]) in img && Cluster(e.lists[i][j]) in e.orig
              && img[Cluster(e.lists[i][j])] == e.orig[Cluster(e.lists[i][j])]
              && HeapRun(e.g, e.lists[i][j], 1) && e.lists[i][j] < e.workspace
  {
    hide Ready;
    ReadySizes(e);
    forall j | 0 <= j < |e.lists[i]|
      ensures Cluster(e.lists[i][j]) in e.orig && e.lists[i][j] < e.workspace && HeapRun(e.g, e.lists[i][j], 1)
    {
      assert CellOf(e, i, j);
      OwnedInside(e, i, j);
    }
  }

  lemma SameCopy(img: Image, img2: Image, from: seq<nat>, to: seq<nat>)
    requires |from| == |to|
    requires forall j | 0 <= j < |from| ::
               Cluster(from[j]) in img && Cluster(from[j]) in img2
               && img[Cluster(from[j])] == img2[Cluster(from[j])]
    ensures CopyOps(img, from, to) == CopyOps(img2, from, to)
  {
  }

  lemma {:induction false} StagePrefix(e: Job, n: nat, all: nat)
    requires Ready(e) && n <= all <= |e.lists|
    ensures StageOps(e, n) <= StageOps(e, all)
  {
    hide Ready, Built, Total, CopyOps;
    if n < all {
      StagePrefix(e, n, all - 1);
      ObjectReadable(e, all - 1);
    }
  }

  lemma StageSplit(e: Job, cat: Catalogue, i: nat)
    requires Ready(e) && Built(e, cat) && i < |e.lists|
    ensures |e.m| == |e.lists|
    ensures forall j | 0 <= j < |e.lists[i]| :: Cluster(e.lists[i][j]) in e.orig
    ensures StageOps(e, i + 1) == StageOps(e, i) + CopyOps(e.orig, e.lists[i], Run(e.m[i].staged, |e.lists[i]|))
  {
    hide Ready, Built, Total, CopyOps;
    RecordAt(e, cat, i);
    ObjectReadable(e, i);
  }

  lemma WorkspaceOnly(e: Job, a: Image, b: Image, t: nat, n: nat)
    requires Ready(e) && SourceIntact(e, a) && SameOutside(a, b, PlacesOf(Run(t, n))) && e.workspace <= t
    ensures SourceIntact(e, b)
  {
    hide Ready;
    forall p | p in PlacesOf(Run(t, n)) ensures InWorkspace(e, p) {
    }
  }

  lemma PrefixInside(a: seq<Op>, b: seq<Op>, c: seq<Op>, k: nat)
    requires a + b <= c && k <= |b|
    ensures |a| + k <= |c| && a + b[..k] == c[..|a| + k]
  {
    assert c[..|a + b|] == a + b;
  }

  /** Staging the whole object set, stoppable at any chunk. */
  method Stage(disk: Disk, ghost e: Job, ghost cat: Catalogue, objects: seq<Obj>, m: seq<Record>,
      buffer: nat) returns (stopped: bool, ghost stop: nat)
    requires disk.Valid() && buffer > 0 && Ready(e) && Built(e, cat) && disk.g == e.g && m == e.m
             && objects == cat.objects
    requires SourceIntact(e, disk.now)
    modifies disk`now, disk`log
    ensures disk.Valid() && SourceIntact(e, disk.now)
    ensures stopped ==> stop <= |StageOps(e, |objects|)| && disk.log == old(disk.log) + StageOps(e, |objects|)[..stop]
    ensures !stopped ==> disk.log == old(disk.log) + StageOps(e, |objects|)
  {
    hide Ready, Built, CopyOps, StageOps, Execute, SourceIntact, Places, Sized, Total;
    ReadyTargets(e);
    SameLength(e, cat);
    NoStageOps(e);
    stop := 0;
    for i := 0 to |objects|
      invariant disk.Valid() && SourceIntact(e, disk.now) && disk.log == old(disk.log) + StageOps(e, i)
    {
      RecordAt(e, cat, i);
      StageAgrees(e, disk.now, i);
      StageSplit(e, cat, i);
      SameCopy(disk.now, e.orig, objects[i].clusters, Run(m[i].staged, |objects[i].clusters|));
      ghost var before := disk.now;
      var halted, done := disk.CopyObjectToRun(objects[i].clusters, m[i].staged, buffer, true);
      WorkspaceOnly(e, before, disk.now, m[i].staged, |objects[i].clusters|);
      if halted {
        StagePrefix(e, i + 1, |objects|);
        PrefixInside(StageOps(e, i), CopyOps(e.orig, objects[i].clusters, Run(m[i].staged, |objects[i].clusters|)),
            StageOps(e, |objects|), done);
        stop := |StageOps(e, i)| + done;
        return true, stop;
      }
      WholeCopy(e.orig, objects[i].clusters, Run(m[i].staged, |objects[i].clusters|));
    }
    return false, stop;
  }

  lemma WholeCopy(img: Image, from: seq<nat>, to: seq<nat>)
    requires |from| == |to| && forall j | 0 <= j < |from| :: Cluster(from[j]) in img
    ensures CopyOps(img, from, to)[..|from|] == CopyOps(img, from, to)
  {
  }

  lemma NoStageOps(e: Job)
    requires Ready(e)
    ensures StageOps(e, 0) == [] && BackOps(e, 0) == []
  {
  }

  lemma BackSplit(e: Job, cat: Catalogue, img: Image, i: nat)
    requires Ready(e) && Built(e, cat) && StagedIn(e, img) && i < |e.lists| && |e.m| == |e.lists|
    ensures forall j | 0 <= j < |e.lists[i]| :: Cluster(Run(e.m[i].staged, |e.lists[i]|)[j]) in img
    ensures BackOps(e, i + 1) == BackOps(e, i) + CopyOps(img, Run(e.m[i].staged, |e.lists[i]|), e.lists[i])
  {
    hide Ready, Built, Total, CellContent;
    RecordAt(e, cat, i);
    ObjectReadable(e, i);
    var clusters := e.lists[i];
    forall j | 0 <= j < |clusters|
      ensures Cluster(Run(e.m[i].staged, |clusters|)[j]) in img
      ensures img[Cluster(Run(e.m[i].staged, |clusters|)[j])] == e.orig[Cluster(clusters[j])]
    {
      assert CellOf(e, i, j);
      CellContentIs(e, i, j);
      assert StagedCell(e, i, j) == Cluster(Run(e.m[i].staged, |clusters|)[j]);
    }
  }

  lemma BackKeepsStaged(e: Job, a: Image, b: Image, i: nat)
    requires Ready(e) && StagedIn(e, a) && i < |e.lists| && SameOutside(a, b, PlacesOf(e.lists[i]))
    ensures StagedIn(e, b)
  {
    hide Ready, Built, CellContent;
    ReadyTargets(e);
    forall k, j | CellOf(e, k, j) ensures StagedCell(e, k, j) in b && b[StagedCell(e, k, j)] == CellContent(e, k, j) {
      StagedInside(e, k, j);
      forall l | 0 <= l < |e.lists[i]| ensures Cluster(e.lists[i][l]) != StagedCell(e, k, j) {
        assert CellOf(e, i, l);
        OwnedInside(e, i, l);
      }
      assert StagedCell(e, k, j) !in PlacesOf(e.lists[i]);
    }
  }

  lemma OwnedHeap(e: Job, i: nat)
    requires Ready(e) && i < |e.lists|
    ensures forall j | 0 <= j < |e.lists[i]| ::
              HeapRun(e.g, e.lists[i][j], 1) && e.lists[i][j] < e.workspace
  {
    hide Ready;
    forall j | 0 <= j < |e.lists[i]|
      ensures HeapRun(e.g, e.lists[i][j], 1) && e.lists[i][j] < e.workspace
    {
      assert CellOf(e, i, j);
      OwnedInside(e, i, j);
    }
  }

  /** Restoring the original layout from the workspace; boots are the boot copies read when the volume was opened. */
  method Rollback(disk: Disk, ghost e: Job, ghost cat: Catalogue, objects: seq<Obj>, m: seq<Record>, boots: Image,
      buffer: nat)
    requires disk.Valid() && buffer > 0 && Ready(e) && Built(e, cat) && disk.g == e.g && m == e.m
             && objects == cat.objects
    requires StagedIn(e, disk.now) && BootsOf(e, boots)
    modifies disk`now, disk`log
    ensures disk.Valid() && disk.log == old(disk.log) + (BackOps(e, |objects|) + [Sync]) + RestoreOps(e)
  {
    hide Ready, Built, CopyOps, BackOps, Execute, StagedIn, Places, Sized, Total;
    ReadyTargets(e);
    SameLength(e, cat);
    NoStageOps(e);
    for i := 0 to |objects|
      invariant disk.Valid() && StagedIn(e, disk.now) && disk.log == old(disk.log) + BackOps(e, i)
    {
      RecordAt(e, cat, i);
      OwnedHeap(e, i);
      BackSplit(e, cat, disk.now, i);
      ghost var before := disk.now;
      disk.CopyRunToObject(m[i].staged, objects[i].clusters, buffer);
      BackKeepsStaged(e, before, disk.now, i);
    }
    disk.Fsync();
    BootSizes(e, boots);
    RestoreBoot(disk, boots);
  }

  /** The boot copies held in memory are the original ones. */
  ghost predicate BootsOf(e: Job, boots: Image)
    requires Ready(e)
  {
    Sized(e.g, e.orig) && forall p: Place | Boot(p) :: p in boots && p in e.orig && boots[p] == e.orig[p]
  }

  lemma BootSizes(e: Job, boots: Image)
    requires Ready(e) && BootsOf(e, boots)
    ensures BootSized(e.g, boots)
    ensures CopyAt(boots, Main) == CopyAt(e.orig, Main) && CopyAt(boots, Backup) == CopyAt(e.orig, Backup)
  {
    assert Boot(Head(Main)) && Boot(Mid(Main)) && Boot(Sum(Main));
    assert Boot(Head(Backup)) && Boot(Mid(Backup)) && Boot(Sum(Backup));
  }

  predicate CopySized(g: Geometry, c: Copy) {
    |c.head| == |c.sum| == g.sectorSize && |c.mid| == 10 * g.sectorSize
  }

  predicate BootSized(g: Geometry, boots: Image) {
    && Head(Main) in boots && Mid(Main) in boots && Sum(Main) in boots && CopySized(g, CopyAt(boots, Main))
    && Head(Backup) in boots && Mid(Backup) in boots && Sum(Backup) in boots && CopySized(g, CopyAt(boots, Backup))
  }

  /** Rewriting one boot copy and waiting for it. */
  method UpdateBoot(disk: Disk, side: Side, c: Copy)
    requires disk.Valid() && CopySized(disk.g, c)
    modifies disk`now, disk`log
    ensures disk.Valid() && disk.log == old(disk.log) + UpdateOps(side, c)
            && disk.now == WithCopy(old(disk.now), side, c)
  {
    hide Execute, Places, Sized;
    PlacesOfSide(disk.g, side);
    disk.Put(Head(side), c.head);
    disk.Put(Mid(side), c.mid);
    disk.Put(Sum(side), c.sum);
    disk.Fsync();
  }

  lemma PlacesOfSide(g: Geometry, side: Side)
    ensures Head(side) in Places(g) && Mid(side) in Places(g) && Sum(side) in Places(g)
  {
    assert side == Main || side == Backup;
  }

  method RestoreBoot(disk: Disk, boots: Image)
    requires disk.Valid() && BootSized(disk.g, boots)
    modifies disk`now, disk`log
    ensures disk.Valid()
    ensures disk.log == old(disk.log) + (UpdateOps(Backup, CopyAt(boots, Backup)) + UpdateOps(Main,
            CopyAt(boots, Main)))
  {
    hide Execute, Sized, UpdateOps;
    UpdateBoot(disk, Backup, CopyAt(boots, Backup));
    UpdateBoot(disk, Main, CopyAt(boots, Main));
  }

  // ---- boot metadata ----------------------------------------------------------------------------

  lemma SizedBoot(g: Geometry, img: Image)
    requires Sized(g, img)
    ensures BootSized(g, img) && g.sectorSize >= MIN_SECTOR && g.sectorSize % 4 == 0
  {
  }

  /** Setting the dirty flag in both copies, with the main copy's flags. */
  method WriteDirtyFlag(disk: Disk, flags: nat)
    requires disk.Valid() && flags < U16_LIMIT
    modifies disk`now, disk`log
    ensures disk.Valid() && Sized(disk.g, old(disk.now))
    ensures var f := WithDirty(flags, true);
            && f < U16_LIMIT && Head(Main) in old(disk.now) && Head(Backup) in old(disk.now)
            && |old(disk.now)[Head(Main)]| >= MIN_SECTOR && |old(disk.now)[Head(Backup)]| >= MIN_SECTOR
            && disk.log == old(disk.log) + [Write(Head(Backup), FlaggedHead(old(disk.now)[Head(Backup)], f)), Sync,
                                            Write(Head(Main), FlaggedHead(old(disk.now)[Head(Main)], f)), Sync]
            && disk.now == old(disk.now)[Head(Backup) := FlaggedHead(old(disk.now)[Head(Backup)], f)]
                                        [Head(Main) := FlaggedHead(old(disk.now)[Head(Main)], f)]
  {
    hide Execute, FlaggedHead, Places;
    SizedBoot(disk.g, disk.now);
    BootPlaces(disk.g);
    WithDirtyReads(flags, true, 1);
    var f := WithDirty(flags, true);
    disk.Put(Head(Backup), FlaggedHead(disk.now[Head(Backup)], f));
    disk.Fsync();
    disk.Put(Head(Main), FlaggedHead(disk.now[Head(Main)], f));
    disk.Fsync();
  }

  lemma BootPlaces(g: Geometry)
    ensures Head(Main) in Places(g) && Head(Backup) in Places(g)
  {
  }

  /** A boot copy's new sector 0 and checksum sector. */
  method BuildBoot(c: Copy, root: nat, percent: byte, sectorSize: nat) returns (r: Copy)
    requires |c.head| >= MIN_SECTOR && root < U32_LIMIT && sectorSize % 4 == 0
    ensures var h := BootHead(c.head, root, false, percent);
            r == Copy(h, c.mid, SumSector(sectorSize, HeadSum(h, c.mid)))
  {
    var h := BootHead(c.head, root, false, percent);
    var checksum := BootChecksum(h + c.mid);
    var sum := new byte[sectorSize];
    FillChecksumSector(sum, checksum);
    r := Copy(h, c.mid, sum[..]);
  }

  method WriteBootState(disk: Disk, boots: Image, root: nat, percent: byte)
    requires disk.Valid() && root < U32_LIMIT && disk.g.sectorSize >= MIN_SECTOR && disk.g.sectorSize % 4 == 0
    requires BootSized(disk.g, boots)
    modifies disk`now, disk`log
    ensures disk.Valid()
    ensures var b, m := CopyAt(boots, Backup), CopyAt(boots, Main);
            var hb := BootHead(b.head, root, false, percent);
            var hm := BootHead(m.head, root, false, percent);
            disk.log == old(disk.log)
              + UpdateOps(Backup, Copy(hb, b.mid, SumSector(disk.g.sectorSize, HeadSum(hb, b.mid))))
              + UpdateOps(Main, Copy(hm, m.mid, SumSector(disk.g.sectorSize, HeadSum(hm, m.mid))))
  {
    hide Execute, Sized, BootHead, HeadSum, SumSector, UpdateOps;
    var b := BuildBoot(CopyAt(boots, Backup), root, percent, disk.g.sectorSize);
    var m := BuildBoot(CopyAt(boots, Main), root, percent, disk.g.sectorSize);
    UpdateBoot(disk, Backup, b);
    UpdateBoot(disk, Main, m);
  }

  lemma TotalNext(lists: seq<seq<nat>>, n: nat)
    requires 0 < n <= |lists|
    ensures Total(lists, n) == Total(lists, n - 1) + |lists[n - 1]| && Total(lists, 0) == 0
  {
  }

  method PercentInUse(m: seq<Record>, clusterCount: nat, ghost e: Job, ghost cat: Catalogue) returns (percent: byte)
    requires Ready(e) && Built(e, cat) && m == e.m && clusterCount == e.g.clusterCount
    ensures percent == Percent(e)
  {
    hide Ready, Built, Total;
    ReadyTargets(e);
    var total := 0;
    TotalNext(e.lists, 1);

    for i := 0 to |m|
      invariant total == Total(e.lists, i)
    {
      RecordAt(e, cat, i);
      TotalNext(e.lists, i + 1);
      total := total + m[i].clusters;
    }
    var p := if clusterCount == 0 then 0 else total * 100 / clusterCount;
    percent := if p > 100 then 100 else p;
  }

  lemma BuiltFat(e: Job, cat: Catalogue)
    requires Built(e, cat)
    ensures Fat in e.orig && (forall k | 0 <= k < |e.m| :: e.m[k].target + e.m[k].clusters < EOC)
    ensures FinalFat(e.m, e.orig[Fat]) == Some(e.fat)
  {
    hide Scans, SystemApart, GoodTargets, Populate, PayloadsOf, ListsOf, FinalFat;
  }

  lemma FatFromPrefix(m: seq<Record>, orig: seq<byte>, fat: seq<byte>)
    requires forall k | 0 <= k < |m| :: m[k].target + m[k].clusters < EOC
    requires |fat| == |orig| >= 8 && fat[..8] == orig[..8]
    ensures FinalFat(m, fat) == FinalFat(m, orig)
  {
    hide LinkFrom;
  }

  method CommitFat(disk: Disk, ghost e: Job, ghost cat: Catalogue, m: seq<Record>, fat: seq<byte>)
    requires disk.Valid() && Ready(e) && Built(e, cat) && disk.g == e.g && m == e.m
    requires Fat in e.orig && |e.orig[Fat]| == e.g.fatLength
    requires |fat| == e.g.fatLength && |fat| >= 8 && fat[..8] == e.orig[Fat][..8]
    modifies disk`now, disk`log
    ensures disk.Valid() && disk.log == old(disk.log) + [Write(Fat, e.fat), Sync]
  {
    hide Ready, Built, Execute, FinalFat;
    ReadyTargets(e);
    BuiltFat(e, cat);
    FatFromPrefix(m, e.orig[Fat], fat);
    var ok, table := BuildFinalFat(fat, m);
    disk.Put(Fat, table[..]);
    disk.Fsync();
  }

  /** The final metadata: FAT, then boot copies; fat and boots are what was read when the volume was opened. */
  method CommitFinalMetadata(disk: Disk, ghost e: Job, ghost cat: Catalogue, m: seq<Record>, fat: seq<byte>,
      boots: Image)
    requires disk.Valid() && Ready(e) && Built(e, cat) && disk.g == e.g && m == e.m
    requires Sized(e.g, boots) && Fat in e.orig && |e.orig[Fat]| == e.g.fatLength
    requires |fat| == e.g.fatLength && |fat| >= 8 && fat[..8] == e.orig[Fat][..8]
    modifies disk`now, disk`log
    ensures disk.Valid() && disk.log == old(disk.log) + CommitOps(e, boots)
  {
    hide Ready, Built, Execute, BootHead, HeadSum, SumSector, UpdateOps, Percent, FindKind, Sized, Places, CommitOps;
    CommitFat(disk, e, cat, m, fat);
    var root := FindRecord(m, RootKind);
    RootRecord(e, cat);
    var percent := PercentInUse(m, disk.g.clusterCount, e, cat);
    SizedBoot(e.g, boots);
    WriteBootState(disk, boots, root.value.target, percent);
    CommitShape(e, boots);
  }

  lemma CommitShape(e: Job, boots: Image)
    requires Ready(e) && Sized(e.g, boots) && BootSized(e.g, boots)
    ensures |e.targets| > 2 && e.targets[2] < U32_LIMIT
    ensures var b, m := CopyAt(boots, Backup), CopyAt(boots, Main);
            var hb := BootHead(b.head, e.targets[2], false, Percent(e));
            var hm := BootHead(m.head, e.targets[2], false, Percent(e));
            CommitOps(e, boots) == [Write(Fat, e.fat), Sync]
              + UpdateOps(Backup, Copy(hb, b.mid, SumSector(e.g.sectorSize, HeadSum(hb, b.mid))))
              + UpdateOps(Main, Copy(hm, m.mid, SumSector(e.g.sectorSize, HeadSum(hm, m.mid))))
  {
    hide Ready, Built, BootHead, HeadSum, SumSector, UpdateOps, Percent;
    ReadyTargets(e);
  }

  lemma RootRecord(e: Job, cat: Catalogue)
    requires Ready(e) && Built(e, cat)
    ensures |e.m| > 2 && FindKind(e.m, RootKind, 0) == Some(e.m[2]) && |e.targets| > 2
            && e.m[2].target == e.targets[2] < U32_LIMIT
  {
    hide Ready, Built, Total, FindKind;
    ReadyTargets(e);
    RecordAt(e, cat, 2);
    RecordAt(e, cat, 0);
    RecordAt(e, cat, 1);
    ReadyKinds(e, cat);
    ThirdOfKind(e.m);
  }

  lemma ReadyKinds(e: Job, cat: Catalogue)
    requires Built(e, cat)
    ensures |cat.objects| > 2 && cat.objects[0].kind == BitmapKind && cat.objects[1].kind == UpcaseKind
            && cat.objects[2].kind == RootKind
  {
    hide Scans, SystemApart, GoodTargets, Populate, PayloadsOf, FinalFat, Built, ListsOf, Understood;
    BuiltScan(e, cat);
    UnderstoodKinds(VolumeOf(e.g, e.orig), cat);
  }

  lemma ThirdOfKind(m: seq<Record>)
    requires |m| > 2 && m[0].kind == BitmapKind && m[1].kind == UpcaseKind && m[2].kind == RootKind
    ensures FindKind(m, RootKind, 0) == Some(m[2])
  {
    assert FindKind(m, RootKind, 1) == FindKind(m, RootKind, 2) == Some(m[2]);
  }

  // ---- whole runs -------------------------------------------------------------------------------

  datatype Outcome = Completed | StoppedStaging | StoppedPublished | StoppedPlacing

  /** The steps of a run, by how it ended; stop is where a stop was honoured. */
  ghost predicate RunSteps(e: Job, order: seq<nat>, outcome: Outcome, stop: nat, log: seq<Op>)
    requires Ready(e) && Indexes(e, order)
  {
    match outcome
    case Completed => log == PublishOps(e) + CompleteOps(e, order)
    case StoppedStaging => stop <= |StageOps(e, |e.lists|)| && log == StageOps(e, |e.lists|)[..stop]
    case StoppedPublished => log == PublishOps(e) + [Remove]
    case StoppedPlacing =>
      stop <= |PlaceOps(e, order, |order|)| && log == PublishOps(e) + StoppedOps(e, order, stop) + [Remove]
  }

  lemma OrigIsSource(e: Job)
    requires Ready(e)
    ensures SourceIntact(e, e.orig) && BootsOf(e, e.orig) && Sized(e.g, e.orig)
    ensures e.orig.Keys == Places(e.g) && Fat in e.orig && Head(Main) in e.orig
    ensures |e.orig[Fat]| == e.g.fatLength >= 8 && |e.orig[Head(Main)]| >= MIN_SECTOR
  {
    hide Ready;
    ReadySizes(e);
    AllSides(e, e.orig);
  }

  /** After staging and publication the disk holds the staged image. */
  lemma AfterPublish(e: Job, disk: Disk)
    requires Ready(e) && disk.Valid() && disk.start == Settled(e.orig, None) && disk.log == PublishOps(e)
    ensures StagedImage(e, disk.now) && StagedIn(e, disk.now) && disk.journal == Some(e.m)
    ensures Execute(disk.start, disk.log) == Settled(disk.now, Some(e.m))
  {
    hide Ready, Built, Execute, PublishOps;
    var img := Published(e);
  }

  /** The dirty flag leaves the workspace alone. */
  lemma DirtyKeepsStaged(e: Job, img: Image)
    requires Ready(e) && StagedIn(e, img)
    ensures StagedIn(e, MarkedDirty(e, img))
  {
    hide Ready, Built, CellContent, DirtyHead;
  }

  lemma DirtySteps(e: Job, img: Image)
    requires Ready(e) && StagedImage(e, img)
    ensures Sized(e.g, e.orig) && U16(e.orig[Head(Main)], FLAGS_FIELD) < U16_LIMIT
    ensures Head(Main) in img && Head(Backup) in img && |img[Head(Main)]| >= MIN_SECTOR
            && |img[Head(Backup)]| >= MIN_SECTOR
    ensures var f := WithDirty(U16(e.orig[Head(Main)], FLAGS_FIELD), true);
            && f < U16_LIMIT
            && DirtyOps(e.orig) == [Write(Head(Backup), FlaggedHead(img[Head(Backup)], f)), Sync,
               Write(Head(Main), FlaggedHead(img[Head(Main)], f)), Sync]
            && MarkedDirty(e, img)
               == img[Head(Backup) := FlaggedHead(img[Head(Backup)], f)][Head(Main) := FlaggedHead(img[Head(Main)], f)]
  {
    hide Ready, Built, FlaggedHead;
    ReadySizes(e);
    StagedBoot(e, img);
    assert Boot(Head(Main)) && Boot(Head(Backup));
    WithDirtyReads(U16(e.orig[Head(Main)], FLAGS_FIELD), true, 1);
  }

  /** One relayout over an open disk, up to the final verification. */
  method Relayout(disk: Disk, ghost e: Job, ghost cat: Catalogue, objects: seq<Obj>, m: seq<Record>, order: seq<nat>,
      buffer: nat)
    returns (outcome: Outcome, ghost stop: nat)
    requires disk.Valid() && buffer > 0 && Ready(e) && Built(e, cat) && disk.g == e.g && m == e.m
             && objects == cat.objects
    requires Permutation(order, |e.m|) && Indexes(e, order)
    requires disk.now == e.orig && disk.log == [] && disk.start == Settled(e.orig, None)
    modifies disk
    ensures disk.Valid() && RunSteps(e, order, outcome, stop, disk.log)
  {
    hide Ready, Built, Execute, Permutation, StageOps, PlaceOps, BackOps, CommitOps, ReplayOps, DirtyOps, StagedIn,
         Sized, Places, StagedImage, SourceIntact, BootsOf, RestoreOps, MarkedDirty;
    OrigIsSource(e);
    SameLength(e, cat);
    var boots := disk.now;
    var fat := boots[Fat];
    var flags := U16(boots[Head(Main)], FLAGS_FIELD);
    var halted;
    halted, stop := Stage(disk, e, cat, objects, m, buffer);
    if halted {
      return StoppedStaging, stop;
    }
    disk.Fsync();
    disk.SaveManifest(m);
    assert disk.log == PublishOps(e);
    AfterPublish(e, disk);
    var stopEarly: bool := *;
    if stopEarly {
      disk.RemoveManifest();
      return StoppedPublished, 0;
    }
    DirtySteps(e, disk.now);
    DirtyKeepsStaged(e, disk.now);
    WriteDirtyFlag(disk, flags);
    halted, stop := ExecuteLayout(disk, e, cat, m, order, buffer, true);
    if halted {
      Rollback(disk, e, cat, objects, m, boots, buffer);
      StoppedShape(e, order, stop);
      disk.RemoveManifest();
      return StoppedPlacing, stop;
    }
    CommitFinalMetadata(disk, e, cat, m, fat, boots);
    CompleteShape(e, order);
    return Completed, stop;
  }

  lemma StoppedShape(e: Job, order: seq<nat>, stop: nat)
    requires Ready(e) && Indexes(e, order) && stop <= |PlaceOps(e, order, |order|)|
    ensures Sized(e.g, e.orig) && |e.orig[Head(Main)]| >= MIN_SECTOR && |e.orig[Head(Backup)]| >= MIN_SECTOR
    ensures PublishOps(e) + DirtyOps(e.orig) + PlaceOps(e, order, |order|)[..stop]
            + (BackOps(e, |e.lists|) + [Sync]) + RestoreOps(e) + [Remove]
         == PublishOps(e) + StoppedOps(e, order, stop) + [Remove]
  {
    hide Ready, Built, PlaceOps, BackOps, DirtyOps, RestoreOps, PublishOps;
    ReadySizes(e);
  }

  lemma CompleteShape(e: Job, order: seq<nat>)
    requires Ready(e) && Indexes(e, order)
    ensures Sized(e.g, e.orig) && |e.orig[Head(Main)]| >= MIN_SECTOR && |e.orig[Head(Backup)]| >= MIN_SECTOR
    ensures PublishOps(e) + DirtyOps(e.orig) + ReplayOps(e, order) + CommitOps(e, e.orig)
         == PublishOps(e) + CompleteOps(e, order)
  {
    hide Ready, Built, ReplayOps, CommitOps, DirtyOps, PublishOps;
    ReadySizes(e);
  }

  /** Repairing one torn boot copy from the other, valid one; it gives up when both are invalid. */
  method RepairBoot(disk: Disk) returns (ok: bool)
    requires disk.Valid()
    modifies disk`now, disk`log
    ensures disk.Valid() && Sized(disk.g, old(disk.now))
    ensures ok <==> CopyOk(old(disk.now), Main) || CopyOk(old(disk.now), Backup)
    ensures ok ==>
              disk.now == Repaired(disk.g, old(disk.now))
              && disk.log == old(disk.log) + RepairOps(disk.g, old(disk.now))
    ensures !ok ==> disk.now == old(disk.now) && disk.log == old(disk.log)
  {
    hide Execute, ValidCopy, UpdateOps, Sized;
    SizedBoot(disk.g, disk.now);
    var main, backup := CopyAt(disk.now, Main), CopyAt(disk.now, Backup);
    var mainValid := RegionValid(main.head, main.mid, main.sum);
    var backupValid := RegionValid(backup.head, backup.mid, backup.sum);
    if !mainValid && !backupValid {
      return false;
    }
    if !mainValid {
      UpdateBoot(disk, Main, backup);
    } else if !backupValid {
      UpdateBoot(disk, Backup, main);
    }
    return true;
  }

  /** Opening the volume for writing, and comparing it with the parameters of the journal. */
  method OpenJournaled(disk: Disk, device: nat, params: Parameters) returns (ok: bool)
    requires disk.Valid()
    ensures Sized(disk.g, disk.now) && Head(Main) in disk.now && |disk.now[Head(Main)]| >= MIN_SECTOR
    ensures ok <==> OpenSector(disk.now[Head(Main)], device, true) == Ok(params) && CopyOk(disk.now, Main)
                    && CopyOk(disk.now, Backup)
  {
    hide Execute, ValidCopy, OpenSector, Sized;
    SizedBoot(disk.g, disk.now);
    var main, backup := CopyAt(disk.now, Main), CopyAt(disk.now, Backup);
    var found := OpenSector(main.head, device, true);
    if found != Ok(params) {
      return false;
    }
    var mainValid := RegionValid(main.head, main.mid, main.sum);
    var backupValid := RegionValid(backup.head, backup.mid, backup.sum);
    ok := mainValid && backupValid;
  }

  lemma RecoverableParts(e: Job, img: Image)
    requires Ready(e) && RecoverableImage(e, img)
    ensures StagedIn(e, img) && Sized(e.g, img) && Sized(e.g, e.orig) && |img[Fat]| == e.g.fatLength >= 8
            && img[Fat][..8] == e.orig[Fat][..8]
    ensures Fat in e.orig && |e.orig[Fat]| == e.g.fatLength
  {
    hide Ready, Built, CellContent, CopyOk, RootKnown, HeadKept, Steady, SteadyAt, NewRoot;
    ReadySizes(e);
    ReadyTargets(e);
    forall i, j | CellOf(e, i, j)
      ensures StagedCell(e, i, j) in img && img[StagedCell(e, i, j)] == CellContent(e, i, j) {
      StagedInside(e, i, j);
      assert Keeps(e, StagedCell(e, i, j), img[StagedCell(e, i, j)]);
    }
    assert Keeps(e, Fat, img[Fat]);
  }

  /** Replaying the placement and committing, on a repaired disk. */
  method Replay(disk: Disk, ghost e: Job, ghost cat: Catalogue, m: seq<Record>, order: seq<nat>, buffer: nat)
    requires disk.Valid() && buffer > 0 && Ready(e) && Built(e, cat) && disk.g == e.g && m == e.m
    requires Permutation(order, |e.m|) && Indexes(e, order) && RecoverableImage(e, disk.now)
    modifies disk`now, disk`log
    ensures disk.Valid() && disk.log == old(disk.log) + ReplayOps(e, order) + CommitOps(e, old(disk.now))
  {
    hide Ready, Built, Execute, Permutation, PlaceOps, CommitOps, ReplayOps, StagedIn, Keeps, CopyOk, Places, Sized;
    RecoverableParts(e, disk.now);
    FatPresent(disk);
    var boots := disk.now;
    var fat := boots[Fat];
    var stopped, stop := ExecuteLayout(disk, e, cat, m, order, buffer, false);
    CommitFinalMetadata(disk, e, cat, m, fat, boots);
  }

  lemma FatPresent(disk: Disk)
    requires disk.Valid()
    ensures Fat in disk.now
  {
  }

  /** Where a recovery's steps lead. */
  lemma RecoverEnds(e: Job, disk: Disk, before: Image, order: seq<nat>)
    requires Ready(e) && RecoverableImage(e, before) && Permutation(order, |e.m|) && Indexes(e, order)
    requires disk.Valid() && disk.start == Settled(before, Some(e.m)) && disk.log == RecoverOps(e, before, order)
    ensures Sized(e.g, before) && Opens(e, Repaired(e.g, before)) ==> Finished(e, disk.now)
  {
    hide Ready, Built, Execute, Permutation, Indexes, RecoverOps, RecoverableImage, Finished, Always, Opens, Repaired,
         Sized;
    var final := RecoveryCompletes(e, before, order);
  }

  /** The parameters the journal records. */
  ghost predicate Journaled(e: Job, params: Parameters)
    requires Ready(e)
  {
    ReadyTargets(e);
    params == ParametersOf(e.orig[Head(Main)])
  }

  /** Recovery over a disk: repair, open, replay, commit. On a recoverable image it fails exactly when the repaired
      volume does not open as the journaled one. */
  method Recover(disk: Disk, ghost e: Job, ghost cat: Catalogue, device: nat, params: Parameters, m: seq<Record>,
      order: seq<nat>, buffer: nat) returns (ok: bool)
    requires disk.Valid() && buffer > 0 && Ready(e) && Built(e, cat) && disk.g == e.g && m == e.m
    requires device == e.device && Journaled(e, params)
    requires Permutation(order, |e.m|) && Indexes(e, order)
    requires RecoverableImage(e, disk.now) && disk.log == [] && disk.start == Settled(disk.now, Some(e.m))
    modifies disk`now, disk`log
    ensures disk.Valid() && Sized(e.g, old(disk.now)) && disk.log == RecoverOps(e, old(disk.now), order)
    ensures ok <==> Opens(e, Repaired(e.g, old(disk.now)))
    ensures ok ==> Finished(e, disk.now)
  {
    hide Ready, Built, Execute, Permutation, CommitOps, ReplayOps, Repaired, RepairOps, Keeps, CopyOk, Finished, Always,
         OpenSector, NewRoot, Sized, Indexes;
    ghost var before := disk.now;
    ok := RepairBoot(disk);
    RepairAlways(e, before);
    ok := OpenJournaled(disk, device, params);
    if !ok {
      return;
    }
    Replay(disk, e, cat, m, order, buffer);
    RecoverEnds(e, disk, before, order);
  }
}
