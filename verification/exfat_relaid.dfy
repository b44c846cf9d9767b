/** The meaning-preservation theorem for a whole volume. */
module ExfatRelaid {
  import opened Bytes
  import opened Checksum
  import opened ExfatVolume
  import opened ExfatDirectory
  import opened ExfatScan
  import opened ExfatTree
  import opened ExfatManifest
  import opened ExfatCanonical
  import opened ExfatMeaning
  import opened ExfatRoot
  import opened Wrappers

  /** A linked run is a FAT path. */
  lemma LinkedIsPath(v: Volume, t: nat, n: nat, known: bool, count: nat)
    requires v.Valid() && n > 0 && 2 <= t && t + n <= v.clusterCount + 2 && Linked(v.fat, t, n)
    requires known ==> count == n
    ensures Chain(v, t, count, known, false) == Ok(Run(t, n))
  {
    var p := Run(t, n);
    assert forall i | 0 <= i < n :: v.FatGet(p[i]) == U32(v.fat, 4 * (t + i));
    FatChainExact(v, t, count, known, p);
  }

  /** What the scan of a volume establishes about its catalogue. */
  ghost predicate Understood(v: Volume, cat: Catalogue) {
    && v.Valid() && |cat.objects| > 2
    && cat.objects[0] == SystemObject(BitmapKind, cat.system.bitmapClusters, cat.system.bitmapLength,
       cat.system.bitmapOffset)
    && cat.objects[1] == SystemObject(UpcaseKind, cat.system.upcaseClusters, cat.system.upcaseLength,
       cat.system.upcaseOffset)
    && cat.objects[2].kind == RootKind
    && TreeRead(v, cat.objects)
    && (forall i | 0 <= i < |cat.objects| :: cat.objects[i].clusters != [] && InHeap(v, cat.objects[i]))
    && (forall i | 3 <= i < |cat.objects| :: cat.objects[i].Named())
    && var root := ReadAll(v, cat.objects[2].clusters);
       && StopsOnWalk(cat.objects, 0, ROOT_INDEX, root, 0)
       && SystemFound(v, root, cat.system) && cat.system.bitmapOffset != NONE && cat.system.upcaseOffset != NONE
       && cat.system.bitmapLength <= |ReadAll(v, cat.objects[0].clusters)|
       && cat.system.upcaseLength <= |ReadAll(v, cat.objects[1].clusters)|
       && v.clusterCount <= 8 * cat.system.bitmapLength
  }

  /** Growth from the three system objects reads the whole tree. */
  lemma GrownTree(v: Volume, first: seq<Obj>, all: seq<Obj>, root: seq<byte>)
    requires v.Valid() && |first| == 3 && Grown(v, first, all, ROOT_INDEX, root, 0) && Ordered(all)
    requires forall i | 0 <= i < 3 :: first[i].parent == NONE && first[i].kind != DirectoryKind
    requires first[2].kind == RootKind && first[0].kind == BitmapKind && first[1].kind == UpcaseKind
    requires InHeap(v, first[2]) && root == ReadAll(v, first[2].clusters)
    ensures TreeRead(v, all)
    ensures forall i | 3 <= i < |all| :: all[i].Named() && InHeap(v, all[i]) && all[i].clusters != []
  {
    assert forall i | 0 <= i < 3 :: all[i] == first[i];
    forall i | 3 <= i < |all| ensures all[i].clusters != [] {
      if all[i].parent == ROOT_INDEX {
        assert ChildAt(all, ROOT_INDEX, i);
      } else {
        assert SubtreeRead(v, all, all[i].parent) && ChildAt(all, all[i].parent, i);
      }
    }
    assert SubtreeRead(v, all, 2) by {
      assert forall i | 0 <= i < |all| && ChildAt(all, 2, i) :: i >= 3;
    }
  }

  lemma StopsFromStart(first: seq<Obj>, all: seq<Obj>, root: seq<byte>)
    requires |first| == 3 && first <= all && forall i | 0 <= i < 3 :: first[i].parent == NONE
    requires StopsOnWalk(all, 3, ROOT_INDEX, root, 0)
    ensures StopsOnWalk(all, 0, ROOT_INDEX, root, 0)
  {
    assert forall i | 0 <= i < 3 :: all[i] == first[i];
  }

  lemma NothingFound(v: Volume, root: seq<byte>)
    requires v.Valid()
    ensures SystemFound(v, root, NoSystem)
  {
  }

  lemma ScanUnderstands(v: Volume, cat: Catalogue)
    requires v.Valid() && ReadCatalogue(v) == Ok(cat)
    ensures Understood(v, cat)
    ensures cat.bitmap == ReadAll(v, cat.objects[0].clusters)[..cat.system.bitmapLength]
  {
    hide ParseDir, SystemEntries, Chain, TableSum, ReadAll, SystemFound, StopsOnWalk, TreeRead, Grown, Bit;
    var rootClusters := Chain(v, v.root, 0, false, false).value;
    ChainShape(v, v.root, 0, false, false);
    var root := ReadAll(v, rootClusters);
    NothingFound(v, root);
    SystemEntriesFound(v, root, 0, NoSystem);
    var s := cat.system;
    var first := FirstObjects(s, rootClusters, |root|);
    var w := Walk(first, {v.root});
    ParseGrows(v, w, ROOT_INDEX, [SLASH], root, 0);
    ChildrenOnWalk(v, w, ROOT_INDEX, [SLASH], root, 0);
    SystemClusters(v, root, s);
    GrownTree(v, first, cat.objects, root);
    GrownExtends(v, first, cat.objects, ROOT_INDEX, root, 0);
    StopsFromStart(first, cat.objects, root);
    assert rootClusters != [] by { NothingRead(v); }
    forall i | 0 <= i < |cat.objects| ensures cat.objects[i].clusters != [] && InHeap(v, cat.objects[i]) {
      if i < 3 { assert cat.objects[i] == first[i]; }
    }
  }

  lemma NothingRead(v: Volume)
    ensures ReadAll(v, []) == []
  {
  }

  lemma SystemClusters(v: Volume, root: seq<byte>, s: System)
    requires v.Valid() && SystemFound(v, root, s) && s.bitmapOffset != NONE && s.upcaseOffset != NONE
    ensures forall i | 0 <= i < |s.bitmapClusters| :: v.InHeap(s.bitmapClusters[i])
    ensures forall i | 0 <= i < |s.upcaseClusters| :: v.InHeap(s.upcaseClusters[i])
    ensures |s.bitmapClusters| == ClustersFor(s.bitmapLength, v.clusterSize)
    ensures |s.upcaseClusters| == ClustersFor(s.upcaseLength, v.clusterSize)
  {
    hide Chain;
    ChainShape(v, U32(root, s.bitmapOffset + 20), ClustersFor(s.bitmapLength, v.clusterSize), true, false);
    ChainShape(v, U32(root, s.upcaseOffset + 20), ClustersFor(s.upcaseLength, v.clusterSize), true, false);
  }

  /** Both system entries are stops of the root walk: no entry set covers them. */
  ghost predicate SystemApart(v: Volume, cat: Catalogue) {
    && v.Valid() && |cat.objects| > 2
    && (forall i | 0 <= i < |cat.objects[2].clusters| :: cat.objects[2].clusters[i] < |v.heap|)
    && cat.system.bitmapOffset >= 0 && cat.system.upcaseOffset >= 0
    && var root := ReadAll(v, cat.objects[2].clusters);
       OnWalk(root, 0, cat.system.bitmapOffset) && OnWalk(root, 0, cat.system.upcaseOffset)
  }

  /** What the relayout makes of v: payloads on the target runs, the final FAT, and the root at its target. */
  ghost predicate LaidAnew(v: Volume, v2: Volume, cat: Catalogue, targets: seq<nat>, m: seq<Record>) {
    && v.Valid() && ReadCatalogue(v) == Ok(cat)
    && Placed(v, v2, cat.objects, targets, m)
    && FinalFat(m, v.fat) == Some(v2.fat)
    && |targets| > 2 && v2.root == targets[2]
  }

  /** The same where it is sure to keep its meaning. */
  ghost predicate RelaidVolume(v: Volume, v2: Volume, cat: Catalogue, targets: seq<nat>, m: seq<Record>) {
    LaidAnew(v, v2, cat, targets, m) && SystemApart(v, cat)
  }

  lemma TargetFacts(clusterCount: nat, objects: seq<Obj>, targets: seq<nat>, m: seq<Record>)
    requires GoodTargets(clusterCount, objects, targets) && Describes(m, objects, targets)
    ensures TargetsInHeap(m, clusterCount) && TargetsDisjoint(m)
    ensures forall k | 0 <= k < |m| :: m[k].target + m[k].clusters < EOC
  {
    forall i, j | 0 <= i < |m| && 0 <= j < |m| && i != j ensures Apart(m[i], m[j]) {
      assert RunsApart(targets[i], |objects[i].clusters|, targets[j], |objects[j].clusters|);
    }
  }

  lemma RootSets(v: Volume, cat: Catalogue, targets: seq<nat>, m: seq<Record>)
    requires Understood(v, cat) && SystemApart(v, cat) && Describes(m, cat.objects, targets)
    ensures var root := ReadAll(v, cat.objects[2].clusters);
            var b := cat.system.bitmapOffset; var u := cat.system.upcaseOffset;
            && ActiveEntry(root, b, BitmapKind) && ActiveEntry(root, u, UpcaseKind)
            && ChildrenRead(cat.objects, ROOT_INDEX, root, 0)
            && GoodChildren(m, ROOT_INDEX, root) && Outside(m, ROOT_INDEX, b) && Outside(m, ROOT_INDEX, u)
  {
    hide ReadSet, OnWalk, StreamClusters, ReadAll, GoodChildren, Outside;
    var root := ReadAll(v, cat.objects[2].clusters);
    assert SubtreeRead(v, cat.objects, 2);
    ReadChildrenAreGood(cat.objects, m, targets, ROOT_INDEX, root);
    StopIsOutside(cat.objects, targets, m, root, cat.system.bitmapOffset);
    StopIsOutside(cat.objects, targets, m, root, cat.system.upcaseOffset);
  }

  lemma RootRead(v: Volume, v2: Volume, cat: Catalogue, targets: seq<nat>, m: seq<Record>)
    requires RelaidVolume(v, v2, cat, targets, m)
    requires GoodChildren(m, ROOT_INDEX, ReadAll(v, cat.objects[2].clusters))
    ensures var root := ReadAll(v, cat.objects[2].clusters);
            var root2 := ReadAll(v2, Run(targets[2], |cat.objects[2].clusters|));
            var b := cat.system.bitmapOffset; var u := cat.system.upcaseOffset;
            && b >= 0 && u >= 0 && b + ENTRY <= |root| && u + ENTRY <= |root|
            && Rewritten(m, ROOT_INDEX, root, root2, {b, u})
            && U32(root2, b + 20) == targets[0] && U32(root2, u + 20) == targets[1]
  {
    hide ReadAll, GoodChildren, Outside, Rewritten, OnWalk, ChildrenRead, ExpectedBitmap, U32, PatchChildren, InHeap,
         ReadCatalogue, FinalFat, PlacedAt;
    PlacedFacts(v, v2, cat, targets, m);
    var root := ReadAll(v, cat.objects[2].clusters);
    RootSets(v, cat, targets, m);
    RootRewritten(cat.objects, targets, m, root, cat.system.bitmapOffset, cat.system.upcaseOffset);
    RootPlaced(v, v2, cat, targets, m, PatchDirectory(m, 2, root).value);
    RewrittenLength(m, ROOT_INDEX, root, PatchDirectory(m, 2, root).value,
        {cat.system.bitmapOffset, cat.system.upcaseOffset});
  }

  lemma RootPlaced(v: Volume, v2: Volume, cat: Catalogue, targets: seq<nat>, m: seq<Record>, payload: seq<byte>)
    requires LaidAnew(v, v2, cat, targets, m)
    requires PatchDirectory(m, 2, ReadAll(v, cat.objects[2].clusters)) == Some(payload)
    ensures ReadAll(v2, Run(targets[2], |cat.objects[2].clusters|)) == payload
  {
    hide ReadAll, PatchDirectory;
    LaidFacts(v, v2, cat, targets, m);
    assert PlacedAt(v, v2, cat.objects, targets, m, 2);
    HoldsReads(v2, targets[2], |cat.objects[2].clusters|, payload);
  }

  lemma RootSearch(objects: seq<Obj>, targets: seq<nat>, m: seq<Record>, root: seq<byte>, root2: seq<byte>, b: nat,
      u: nat)
    requires Describes(m, objects, targets) && (forall k | 0 <= k < |m| :: m[k].target < U32_LIMIT)
    requires ChildrenRead(objects, ROOT_INDEX, root, 0) && GoodChildren(m, ROOT_INDEX, root)
    requires b % ENTRY == 0 && u % ENTRY == 0 && Rewritten(m, ROOT_INDEX, root, root2, {b, u})
    ensures SearchAgrees(root, root2)
  {
    hide ReadSet, GoodChildren, Rewritten;
    forall i | 0 <= i < |m| && ChildOf(m, ROOT_INDEX, i) ensures m[i].entryOffset % ENTRY == 0 {
      assert ChildAt(objects, ROOT_INDEX, i);
    }
    RewrittenLength(m, ROOT_INDEX, root, root2, {b, u});
    forall off | 0 <= off && off + ENTRY <= |root| && off % ENTRY == 0
      ensures root2[off] == root[off] && (root[off] == BITMAP_ENTRY ==> root2[off + 1] == root[off + 1])
    {
      RewrittenKeepsTypes(m, ROOT_INDEX, root, root2, {b, u}, off);
    }
  }

  lemma RewrittenLength(m: seq<Record>, dir: nat, base: seq<byte>, cur: seq<byte>, sys: set<nat>)
    requires GoodChildren(m, dir, base) && forall k | 0 <= k < |m| :: m[k].target < U32_LIMIT
    requires Rewritten(m, dir, base, cur, sys)
    ensures |cur| == |base|
  {
  }

  /** A system object's run is found through the final FAT. */
  lemma SystemRun(v: Volume, v2: Volume, cat: Catalogue, targets: seq<nat>, m: seq<Record>, i: nat, known: bool,
      count: nat)
    requires LaidAnew(v, v2, cat, targets, m) && i < 3
    requires known ==> count == |cat.objects[i].clusters|
    ensures Chain(v2, targets[i], count, known, false) == Ok(Run(targets[i], |cat.objects[i].clusters|))
  {
    hide Chain, Understood, ReadAll, PlacedAt;
    LaidFacts(v, v2, cat, targets, m);
    UnderstoodKinds(v, cat);
    TargetFacts(v.clusterCount, cat.objects, targets, m);
    FinalFatLinks(m, v.fat, v.clusterCount);
    assert SystemKind(m[i].kind);
    LinkedIsPath(v2, targets[i], |cat.objects[i].clusters|, known, count);
  }

  lemma UnderstoodKinds(v: Volume, cat: Catalogue)
    requires Understood(v, cat)
    ensures |cat.objects| > 2 && cat.objects[0].kind == BitmapKind && cat.objects[1].kind == UpcaseKind
            && cat.objects[2].kind == RootKind
  {
  }

  lemma PlacedFacts(v: Volume, v2: Volume, cat: Catalogue, targets: seq<nat>, m: seq<Record>)
    requires RelaidVolume(v, v2, cat, targets, m)
    ensures v.Valid() && Understood(v, cat) && SystemApart(v, cat) && Placed(v, v2, cat.objects, targets, m)
    ensures |cat.objects| > 2 && v2.root == targets[2]
    ensures v2.Valid() && SameShape(v, v2) && Describes(m, cat.objects, targets) && |targets| == |cat.objects|
    ensures forall k | 0 <= k < |m| :: m[k].target < U32_LIMIT
    ensures forall i | 0 <= i < |targets| ::
              2 <= targets[i] && targets[i] + |cat.objects[i].clusters| <= v.clusterCount + 2
    ensures forall i | 0 <= i < |targets| :: |cat.objects[i].clusters| > 0
    ensures v2.clusterCount == v.clusterCount && v2.clusterSize == v.clusterSize
    ensures forall i | 0 <= i < |targets| ::
              InHeap(v, cat.objects[i]) && RunBelow(v2, targets[i], |cat.objects[i].clusters|)
  {
    hide *;
    RelaidParts(v, v2, cat, targets, m);
    LaidFacts(v, v2, cat, targets, m);
  }

  lemma RelaidParts(v: Volume, v2: Volume, cat: Catalogue, targets: seq<nat>, m: seq<Record>)
    requires RelaidVolume(v, v2, cat, targets, m)
    ensures LaidAnew(v, v2, cat, targets, m) && SystemApart(v, cat)
  {
  }

  lemma LaidFacts(v: Volume, v2: Volume, cat: Catalogue, targets: seq<nat>, m: seq<Record>)
    requires LaidAnew(v, v2, cat, targets, m)
    ensures v.Valid() && Understood(v, cat) && Placed(v, v2, cat.objects, targets, m)
    ensures |cat.objects| > 2 && v2.root == targets[2]
    ensures v2.Valid() && SameShape(v, v2) && Describes(m, cat.objects, targets) && |targets| == |cat.objects|
    ensures forall k | 0 <= k < |m| :: m[k].target < U32_LIMIT
    ensures forall i | 0 <= i < |targets| ::
              2 <= targets[i] && targets[i] + |cat.objects[i].clusters| <= v.clusterCount + 2
    ensures forall i | 0 <= i < |targets| :: |cat.objects[i].clusters| > 0
    ensures v2.clusterCount == v.clusterCount && v2.clusterSize == v.clusterSize
    ensures forall i | 0 <= i < |targets| ::
              InHeap(v, cat.objects[i]) && RunBelow(v2, targets[i], |cat.objects[i].clusters|)
  {
    hide ReadCatalogue, TreeRead, ReadAll, PlacedAt, FinalFat, SystemFound, StopsOnWalk, OnWalk;
    ScanUnderstands(v, cat);
  }

  /** The system entries of the relaid volume point to the target runs. */
  lemma SystemRelaid(v: Volume, v2: Volume, cat: Catalogue, targets: seq<nat>, m: seq<Record>)
    requires RelaidVolume(v, v2, cat, targets, m)
    requires SystemEntries(v, ReadAll(v, cat.objects[2].clusters), 0, NoSystem) == Ok(cat.system)
    ensures SystemEntries(v2, ReadAll(v2, Run(targets[2], |cat.objects[2].clusters|)), 0, NoSystem)
         == Ok(MovedSystem(cat.system, Run(targets[0], |cat.objects[0].clusters|),
             Run(targets[1], |cat.objects[1].clusters|)))
  {
    hide Chain, Placed, SystemApart, ReadAll, TakeEntry, Rewritten, GoodChildren, Outside, FinalFat, ChildrenRead,
         TreeRead, U32, U64, SystemEntries, SearchAgrees;
    PlacedFacts(v, v2, cat, targets, m);
    var root := ReadAll(v, cat.objects[2].clusters);
    var root2 := ReadAll(v2, Run(targets[2], |cat.objects[2].clusters|));
    var b := cat.system.bitmapOffset;
    var u := cat.system.upcaseOffset;
    RootSets(v, cat, targets, m);
    RootRead(v, v2, cat, targets, m);
    RewrittenLength(m, ROOT_INDEX, root, root2, {b, u});
    NothingFound(v, root);
    RootSearch(cat.objects, targets, m, root, root2, b, u);
    SystemFields(m, ROOT_INDEX, root, root2, {b, u}, b);
    SystemFields(m, ROOT_INDEX, root, root2, {b, u}, u);
    SystemClusters(v, root, cat.system);
    SystemRun(v, v2, cat, targets, m, 0, true, |cat.objects[0].clusters|);
    SystemRun(v, v2, cat, targets, m, 1, true, |cat.objects[1].clusters|);
    SystemEntriesMoved(v, v2, root, root2, 0, NoSystem,
      Run(targets[0], |cat.objects[0].clusters|), Run(targets[1], |cat.objects[1].clusters|));
  }

  /** Placing never fails on a scanned volume: every record has a canonical payload. */
  lemma PayloadExists(v: Volume, cat: Catalogue, targets: seq<nat>, m: seq<Record>, i: nat)
    requires Understood(v, cat) && SystemApart(v, cat) && Describes(m, cat.objects, targets)
    requires GoodTargets(v.clusterCount, cat.objects, targets) && i < |m|
    ensures forall k | 0 <= k < |m| :: m[k].target < U32_LIMIT
    ensures Payload(m, v.clusterCount, i, ReadAll(v, cat.objects[i].clusters)).Some?
  {
    hide ReadSet, OnWalk, ReadAll, GoodChildren, Outside, BitmapFrom, PatchChildren, StreamClusters;
    TargetFacts(v.clusterCount, cat.objects, targets, m);
    if i == 0 {
      ExpectedBitmapExact(m, v.clusterCount, m[0].dataLength);
    } else if i == 2 {
      RootSets(v, cat, targets, m);
      RootRewritten(cat.objects, targets, m, ReadAll(v, cat.objects[2].clusters),
                    cat.system.bitmapOffset, cat.system.upcaseOffset);
    } else if i >= 3 && cat.objects[i].kind == DirectoryKind {
      var data := ReadAll(v, cat.objects[i].clusters);
      assert SubtreeRead(v, cat.objects, i);
      ReadChildrenAreGood(cat.objects, m, targets, i, data);
      ChildrenRewritten(m, i, data);
    }
  }

  /** The relaid bitmap object holds the expected bitmap. */
  lemma BitmapRelaid(v: Volume, v2: Volume, cat: Catalogue, targets: seq<nat>, m: seq<Record>)
    requires RelaidVolume(v, v2, cat, targets, m)
    ensures var b := ReadAll(v2, Run(targets[0], |cat.objects[0].clusters|));
            && cat.system.bitmapLength <= |b|
            && ExpectedBitmap(m, v.clusterCount, cat.system.bitmapLength) == Some(b[..cat.system.bitmapLength])
  {
    hide ReadAll, ExpectedBitmap, SystemApart, TreeRead, PatchDirectory;
    PlacedFacts(v, v2, cat, targets, m);
    assert PlacedAt(v, v2, cat.objects, targets, m, 0);
    var p := Payload(m, v.clusterCount, 0, ReadAll(v, cat.objects[0].clusters)).value;
    HoldsReads(v2, targets[0], |cat.objects[0].clusters|, p);
    var e := ExpectedBitmap(m, v.clusterCount, cat.system.bitmapLength).value;
    assert p[..|e|] == e;
  }

  /** Files and the up-case table keep their bytes. */
  lemma BytesRelaid(v: Volume, v2: Volume, cat: Catalogue, targets: seq<nat>, m: seq<Record>, i: nat)
    requires RelaidVolume(v, v2, cat, targets, m) && i < |cat.objects|
    requires cat.objects[i].kind == FileKind || cat.objects[i].kind == UpcaseKind
    ensures ReadAll(v2, Run(targets[i], |cat.objects[i].clusters|)) == ReadAll(v, cat.objects[i].clusters)
  {
    hide ReadAll, SystemApart, TreeRead, PatchDirectory, ExpectedBitmap;
    PlacedFacts(v, v2, cat, targets, m);
    assert PlacedAt(v, v2, cat.objects, targets, m, i);
    HoldsReads(v2, targets[i], |cat.objects[i].clusters|, ReadAll(v, cat.objects[i].clusters));
  }

  /** The moved objects own exactly the clusters the expected bitmap marks. */
  lemma OwnershipRelaid(clusterCount: nat, objects: seq<Obj>, objects2: seq<Obj>, targets: seq<nat>, m: seq<Record>,
      length: nat)
    requires GoodTargets(clusterCount, objects, targets) && Describes(m, objects, targets)
    requires MovedAll(objects, objects2, targets) && clusterCount <= 8 * length
    ensures ExpectedBitmap(m, clusterCount, length).Some?
    ensures ExactOwnership(clusterCount, objects2, ExpectedBitmap(m, clusterCount, length).value)
  {
    hide ExpectedBitmap, Allocated;
    TargetFacts(clusterCount, objects, targets, m);
    ExpectedBitmapExact(m, clusterCount, length);
    var b := ExpectedBitmap(m, clusterCount, length).value;
    forall i, c: nat | 0 <= i < |objects2| ensures Owns(objects2, i, c) <==> InTarget(m[i], c) {
      assert objects2[i] == Moved(objects[i], targets[i]);
      var run := Run(targets[i], |objects[i].clusters|);
      if InTarget(m[i], c) { assert run[c - targets[i]] == c; }
    }
    forall i, j, c | 0 <= i < j < |objects2| && Owns(objects2, i, c) ensures !Owns(objects2, j, c) {
      assert Apart(m[i], m[j]);
    }
    forall i, c: nat | 0 <= i < |objects2| && Owns(objects2, i, c) ensures Allocated(b, c) {
      assert InTargets(m, |m|, c);
    }
    forall c: nat | 2 <= c < clusterCount + 2 && Allocated(b, c) ensures Owned(objects2, c) {
      var i :| 0 <= i < |m| && InTarget(m[i], c);
      assert Owns(objects2, i, c);
    }
  }

  /** The relaid root directory and everything below it parse to the moved objects. */
  lemma TreeRelaid(v: Volume, v2: Volume, cat: Catalogue, targets: seq<nat>, m: seq<Record>,
      s2: System) returns (w2: Walk)
    requires RelaidVolume(v, v2, cat, targets, m) && ReadCatalogue(v) == Ok(cat)
    requires s2 == MovedSystem(cat.system, Run(targets[0], |cat.objects[0].clusters|),
             Run(targets[1], |cat.objects[1].clusters|))
    ensures var run := Run(targets[2], |cat.objects[2].clusters|);
            var root2 := ReadAll(v2, run);
            && |root2| == |ReadAll(v, cat.objects[2].clusters)|
            && ParseDir(v2, Walk(FirstObjects(s2, run, |root2|), {v2.root}), ROOT_INDEX, [SLASH], root2, 0) == Ok(w2)
            && MovedAll(cat.objects, w2.objects, targets)
  {
    hide *;
    PlacedFacts(v, v2, cat, targets, m);
    RootAtStart();
    var rootClusters := cat.objects[2].clusters;
    ReadFacts(v, cat);
    var root := ReadAll(v, rootClusters);
    var run := Run(targets[2], |rootClusters|);
    RunInHeap(v2, targets[2], |rootClusters|);
    var root2 := ReadAll(v2, run);
    RootSets(v, cat, targets, m);
    RootRead(v, v2, cat, targets, m);
    var sys: set<nat> := {cat.system.bitmapOffset, cat.system.upcaseOffset};
    RewrittenLength(m, ROOT_INDEX, root, root2, sys);
    RootAhead(v, cat);
    var first := FirstObjects(cat.system, rootClusters, |root|);
    var first2 := FirstObjects(s2, run, |root2|);
    FirstMoved(v, cat, targets, s2);
    FirstWalk(v, v2, first, first2, targets);
    var w := Walk(first, {v.root});
    BeInStep(v, v2, cat.objects, targets, m, w, Walk(first2, {v2.root}), ROOT_INDEX, [SLASH], root, root2, 0, sys);
    Simulate(v, v2, cat.objects, targets, m, w, Walk(first2, {v2.root}), ROOT_INDEX, [SLASH], root, root2, 0, sys);
    w2 := ParseDir(v2, Walk(first2, {v2.root}), ROOT_INDEX, [SLASH], root2, 0).value;
    WalkMoved(ParseDir(v, w, ROOT_INDEX, [SLASH], root, 0).value, w2, targets);
  }

  lemma RootAtStart()
    ensures ROOT_INDEX == 2 && 0 % ENTRY == 0
  {
  }

  ghost predicate RunBelow(v: Volume, t: nat, n: nat) {
    forall k | 0 <= k < n :: Run(t, n)[k] < |v.heap|
  }

  lemma RunInHeap(v: Volume, t: nat, n: nat)
    requires v.Valid() && 2 <= t && t + n <= v.clusterCount + 2
    ensures forall i | 0 <= i < |Run(t, n)| :: Run(t, n)[i] < |v.heap|
  {
  }

  lemma WalkMoved(w: Walk, w2: Walk, targets: seq<nat>)
    requires |w.objects| <= |targets| && SameWalk(w, w2, targets)
    ensures MovedAll(w.objects, w2.objects, targets)
  {
  }

  lemma FirstMoved(v: Volume, cat: Catalogue, targets: seq<nat>, s2: System)
    requires Understood(v, cat) && |targets| == |cat.objects| && cat.objects[2].clusters != []
    requires s2 == MovedSystem(cat.system, Run(targets[0], |cat.objects[0].clusters|),
             Run(targets[1], |cat.objects[1].clusters|))
    requires FirstObjects(cat.system, cat.objects[2].clusters, |ReadAll(v, cat.objects[2].clusters)|) <= cat.objects
    ensures var rootClusters := cat.objects[2].clusters;
            var length := |ReadAll(v, rootClusters)|;
            var first := FirstObjects(cat.system, rootClusters, length);
            var first2 := FirstObjects(s2, Run(targets[2], |rootClusters|), length);
            && |first| == |first2| == 3 && Ordered(first) && MovedAll(first, first2, targets)
            && first[0].kind == BitmapKind && first[1].kind == UpcaseKind && first[2].kind == RootKind
            && first[2].clusters == rootClusters
            && (forall i | 0 <= i < 3 :: !ChildAt(cat.objects, ROOT_INDEX, i))
    ensures TreeRead(v, cat.objects)
    ensures ClosedAfter(cat.objects, ROOT_INDEX, 3, |cat.objects|)
  {
    hide ReadAll, TreeRead, SystemFound, StopsOnWalk;
    var rootClusters := cat.objects[2].clusters;
    var first := FirstObjects(cat.system, rootClusters, |ReadAll(v, rootClusters)|);
    assert forall i | 0 <= i < 3 :: first[i] == cat.objects[i];
  }

  lemma RootAhead(v: Volume, cat: Catalogue)
    requires Understood(v, cat) && SystemApart(v, cat)
    ensures SystemAhead(ReadAll(v, cat.objects[2].clusters), 0,
            {cat.system.bitmapOffset as nat, cat.system.upcaseOffset as nat})
  {
    hide ReadAll, StreamClusters, TreeRead;
  }

  lemma FirstWalk(v: Volume, v2: Volume, first: seq<Obj>, first2: seq<Obj>, targets: seq<nat>)
    requires |first| == |first2| == 3 <= |targets|
    requires first[0].kind == BitmapKind && first[1].kind == UpcaseKind && first[2].kind == RootKind
    requires first[2].clusters != [] && first[2].clusters[0] == v.root && v2.root == targets[2]
    requires MovedAll(first, first2, targets)
    ensures SameWalk(Walk(first, {v.root}), Walk(first2, {v2.root}), targets)
  {
    assert v.root in FirstClusters(first) by { assert first[2].Directory(); }
    assert first2[2] == Moved(first[2], targets[2]);
    assert v2.root in FirstClusters(first2) by { assert first2[2].Directory(); }
    assert FirstClusters(first) == {v.root};
    assert FirstClusters(first2) == {v2.root} by {
      assert !first2[0].Directory() && !first2[1].Directory();
    }
  }

  /** What a successful read says about the root chain and the parse it ran. */
  lemma ReadFacts(v: Volume, cat: Catalogue)
    requires v.Valid() && ReadCatalogue(v) == Ok(cat) && Understood(v, cat)
    ensures var rootClusters := cat.objects[2].clusters;
            && Chain(v, v.root, 0, false, false) == Ok(rootClusters)
            && rootClusters != [] && rootClusters[0] == v.root
            && (forall i | 0 <= i < |rootClusters| :: rootClusters[i] < |v.heap|)
            && var root := ReadAll(v, rootClusters);
               var first := FirstObjects(cat.system, rootClusters, |root|);
               && first <= cat.objects
               && SystemEntries(v, root, 0, NoSystem) == Ok(cat.system)
               && ParseDir(v, Walk(first, {v.root}), ROOT_INDEX, [SLASH], root, 0).Ok?
               && ParseDir(v, Walk(first, {v.root}), ROOT_INDEX, [SLASH], root, 0).value.objects == cat.objects
  {
    hide ParseDir, SystemEntries, Chain, TableSum, Understood, Grown;
    var rootClusters := Chain(v, v.root, 0, false, false).value;
    ChainShape(v, v.root, 0, false, false);
    var root := ReadAll(v, rootClusters);
    var first := FirstObjects(cat.system, rootClusters, |root|);
    ParseGrows(v, Walk(first, {v.root}), ROOT_INDEX, [SLASH], root, 0);
    GrownExtends(v, first, cat.objects, ROOT_INDEX, root, 0);
    assert cat.objects[2] == first[2];
  }

  /** The catalogue of the relaid volume. */
  ghost predicate MovedCatalogue(cat: Catalogue, cat2: Catalogue, targets: seq<nat>, m: seq<Record>, clusterCount: nat)
    requires |targets| == |cat.objects| && |targets| > 2
  {
    && MovedAll(cat.objects, cat2.objects, targets)
    && Some(cat2.bitmap) == ExpectedBitmap(m, clusterCount, cat.system.bitmapLength)
    && cat2.system == MovedSystem(cat.system, Run(targets[0], |cat.objects[0].clusters|),
       Run(targets[1], |cat.objects[1].clusters|))
  }

  lemma ReadFromParts(v2: Volume, s2: System, root: seq<nat>, w2: Walk)
    requires v2.Valid() && Chain(v2, v2.root, 0, false, false) == Ok(root)
    requires forall i | 0 <= i < |root| :: root[i] < |v2.heap|
    requires ReadAll(v2, root) != [] && SystemEntries(v2, ReadAll(v2, root), 0, NoSystem) == Ok(s2)
    requires StreamsInHeap(v2, s2)
    requires s2.bitmapLength > 0 && v2.clusterCount <= s2.bitmapLength * 8
    requires s2.bitmapLength <= |ReadAll(v2, s2.bitmapClusters)| && s2.upcaseLength <= |ReadAll(v2, s2.upcaseClusters)|
    requires 0 <= s2.upcaseOffset && s2.upcaseOffset + ENTRY <= |ReadAll(v2, root)|
    requires TableSum(ReadAll(v2, s2.upcaseClusters)[..s2.upcaseLength], s2.upcaseLength)
          == U32(ReadAll(v2, root), s2.upcaseOffset + 4)
    requires ParseDir(v2, Walk(FirstObjects(s2, root, |ReadAll(v2, root)|), {v2.root}), ROOT_INDEX, [SLASH],
             ReadAll(v2, root), 0) == Ok(w2)
    ensures ReadCatalogue(v2) == Ok(Catalogue(w2.objects, ReadAll(v2, s2.bitmapClusters)[..s2.bitmapLength], s2))
  {
    hide ParseDir, SystemEntries, Chain, ReadAll, TableSum;
  }

  /** The up-case checksum stored in the root still matches the moved table. */
  lemma UpcaseRelaid(v: Volume, v2: Volume, cat: Catalogue, targets: seq<nat>, m: seq<Record>)
    requires RelaidVolume(v, v2, cat, targets, m) && ReadCatalogue(v) == Ok(cat)
    ensures var root2 := ReadAll(v2, Run(targets[2], |cat.objects[2].clusters|));
            var table2 := ReadAll(v2, Run(targets[1], |cat.objects[1].clusters|));
            && 0 <= cat.system.upcaseOffset && cat.system.upcaseOffset + ENTRY <= |root2|
            && cat.system.upcaseLength <= |table2|
            && TableSum(table2[..cat.system.upcaseLength], cat.system.upcaseLength)
               == U32(root2, cat.system.upcaseOffset + 4)
  {
    hide *;
    PlacedFacts(v, v2, cat, targets, m);
    ReadFacts(v, cat);
    UpcaseChecked(v, cat);
    RootAtStart();
    UnderstoodKinds(v, cat);
    RootSets(v, cat, targets, m);
    RootRead(v, v2, cat, targets, m);
    BytesRelaid(v, v2, cat, targets, m, 1);
    ActiveAligned(ReadAll(v, cat.objects[2].clusters), cat.system.bitmapOffset, BitmapKind);
    ActiveAligned(ReadAll(v, cat.objects[2].clusters), cat.system.upcaseOffset, UpcaseKind);
    var root := ReadAll(v, cat.objects[2].clusters);
    RunInHeap(v2, targets[2], |cat.objects[2].clusters|);
    var root2 := ReadAll(v2, Run(targets[2], |cat.objects[2].clusters|));
    var sys: set<nat> := {cat.system.bitmapOffset, cat.system.upcaseOffset};
    RewrittenLength(m, ROOT_INDEX, root, root2, sys);
    SystemFields(m, ROOT_INDEX, root, root2, sys, cat.system.upcaseOffset);
  }

  lemma ActiveAligned(root: seq<byte>, off: int, kind: Kind)
    requires ActiveEntry(root, off, kind)
    ensures off >= 0 && off % ENTRY == 0 && off + ENTRY <= |root|
  {
  }

  lemma UpcaseChecked(v: Volume, cat: Catalogue)
    requires Understood(v, cat) && ReadCatalogue(v) == Ok(cat)
    ensures var root := ReadAll(v, cat.objects[2].clusters);
            var table := ReadAll(v, cat.objects[1].clusters);
            && 0 <= cat.system.upcaseOffset && cat.system.upcaseOffset + ENTRY <= |root|
            && cat.system.upcaseLength <= |table| && cat.system.bitmapLength > 0
            && TableSum(table[..cat.system.upcaseLength], cat.system.upcaseLength)
               == U32(root, cat.system.upcaseOffset + 4)
  {
    hide ParseDir, SystemEntries, TableSum, ReadAll, SystemFound, TreeRead, StopsOnWalk;
    ReadFacts(v, cat);
  }

  /** Two objects on two volumes hold the same bytes in their clusters. */
  ghost predicate SameBytes(v: Volume, a: Obj, v2: Volume, b: Obj)
    requires v.Valid() && v2.Valid()
  {
    InHeap(v, a) && InHeap(v2, b) && ReadAll(v2, b.clusters) == ReadAll(v, a.clusters)
  }

  /** A volume relaid from a scanned one scans again: same objects, paths and lengths, each in its target run,
      files and up-case table with the same bytes, and the allocation bitmap set exactly on the targets. */
  lemma MeaningPreserved(v: Volume, v2: Volume, cat: Catalogue, targets: seq<nat>,
      m: seq<Record>) returns (cat2: Catalogue)
    requires Scans(v, cat) && RelaidVolume(v, v2, cat, targets, m)
    ensures Scans(v2, cat2) && MovedCatalogue(cat, cat2, targets, m, v.clusterCount)
    ensures forall i | 0 <= i < |cat.objects|
              && (cat.objects[i].kind == FileKind || cat.objects[i].kind == UpcaseKind) ::
              SameBytes(v, cat.objects[i], v2, cat2.objects[i])
  {
    hide *;
    PlacedFacts(v, v2, cat, targets, m);
    ScanParts(v, cat);
    UpcaseChecked(v, cat);
    ReadFacts(v, cat);
    var bitmap := Run(targets[0], |cat.objects[0].clusters|);
    var upcase := Run(targets[1], |cat.objects[1].clusters|);
    var root := Run(targets[2], |cat.objects[2].clusters|);
    var s2 := MovedSystem(cat.system, bitmap, upcase);
    SystemRelaid(v, v2, cat, targets, m);
    var w2 := TreeRelaid(v, v2, cat, targets, m, s2);
    BitmapRelaid(v, v2, cat, targets, m);
    UpcaseRelaid(v, v2, cat, targets, m);
    RelaidParts(v, v2, cat, targets, m);
    SystemRun(v, v2, cat, targets, m, 2, false, 0);
    RunInHeap(v2, targets[2], |cat.objects[2].clusters|);
    MovedSystemFields(v, v2, cat, targets, s2);
    ReadFromParts(v2, s2, root, w2);
    RunInHeap(v2, targets[0], |cat.objects[0].clusters|);
    cat2 := Catalogue(w2.objects, ReadAll(v2, bitmap)[..s2.bitmapLength], s2);
    PlacedTargets(v, v2, cat, targets, m);
    OwnershipRelaid(v.clusterCount, cat.objects, cat2.objects, targets, m, cat.system.bitmapLength);
    ScansFromParts(v, v2, cat2);
    forall i | 0 <= i < |cat.objects| && (cat.objects[i].kind == FileKind || cat.objects[i].kind == UpcaseKind)
      ensures |cat2.objects| == |cat.objects| && SameBytes(v, cat.objects[i], v2, cat2.objects[i])
    {
      BytesRelaid(v, v2, cat, targets, m, i);
      MovedOne(v, v2, cat, cat2, targets, i);
    }
    CatalogueFromParts(v, cat, cat2, targets, m, bitmap, upcase);
  }

  lemma ScanParts(v: Volume, cat: Catalogue)
    requires Scans(v, cat)
    ensures v.Valid() && ReadCatalogue(v) == Ok(cat)
  {
  }

  lemma ScansFromParts(v: Volume, v2: Volume, cat2: Catalogue)
    requires v2.Valid() && SameShape(v, v2) && ReadCatalogue(v2) == Ok(cat2)
    requires ExactOwnership(v.clusterCount, cat2.objects, cat2.bitmap)
    ensures Scans(v2, cat2)
  {
  }

  lemma PlacedTargets(v: Volume, v2: Volume, cat: Catalogue, targets: seq<nat>, m: seq<Record>)
    requires Placed(v, v2, cat.objects, targets, m) && Understood(v, cat)
    ensures GoodTargets(v.clusterCount, cat.objects, targets) && v.clusterCount <= 8 * cat.system.bitmapLength
  {
  }

  lemma MovedSystemFields(v: Volume, v2: Volume, cat: Catalogue, targets: seq<nat>, s2: System)
    requires Understood(v, cat) && |targets| == |cat.objects| && v2.Valid() && SameShape(v, v2)
    requires forall i | 0 <= i < |targets| ::
               2 <= targets[i] && targets[i] + |cat.objects[i].clusters| <= v.clusterCount + 2
    requires s2 == MovedSystem(cat.system, Run(targets[0], |cat.objects[0].clusters|),
             Run(targets[1], |cat.objects[1].clusters|))
    ensures StreamsInHeap(v2, s2)
    ensures s2.bitmapClusters == Run(targets[0], |cat.objects[0].clusters|)
    ensures s2.upcaseClusters == Run(targets[1], |cat.objects[1].clusters|)
    ensures s2.bitmapOffset == cat.system.bitmapOffset && s2.upcaseOffset == cat.system.upcaseOffset
    ensures s2.bitmapLength == cat.system.bitmapLength && s2.upcaseLength == cat.system.upcaseLength
    ensures v2.clusterCount <= s2.bitmapLength * 8 && ENTRY == 32
  {
    hide ReadAll, TreeRead, SystemFound, StopsOnWalk;
  }

  lemma MovedOne(v: Volume, v2: Volume, cat: Catalogue, cat2: Catalogue, targets: seq<nat>, i: nat)
    requires Understood(v, cat) && |targets| == |cat.objects| && i < |targets| && v2.Valid() && SameShape(v, v2)
    requires MovedAll(cat.objects, cat2.objects, targets)
    requires 2 <= targets[i] && targets[i] + |cat.objects[i].clusters| <= v.clusterCount + 2
    requires InHeap(v, cat.objects[i])
          && RunBelow(v2, targets[i], |cat.objects[i].clusters|)
          && ReadAll(v2, Run(targets[i], |cat.objects[i].clusters|)) == ReadAll(v, cat.objects[i].clusters)
    ensures |cat2.objects| == |cat.objects| && SameBytes(v, cat.objects[i], v2, cat2.objects[i])
  {
    hide ReadAll, TreeRead, SystemFound, StopsOnWalk;
    assert cat2.objects[i] == Moved(cat.objects[i], targets[i]);
  }

  lemma CatalogueFromParts(v: Volume, cat: Catalogue, cat2: Catalogue, targets: seq<nat>, m: seq<Record>,
      bitmap: seq<nat>, upcase: seq<nat>)
    requires |targets| == |cat.objects| && |targets| > 2 && MovedAll(cat.objects, cat2.objects, targets)
    requires bitmap == Run(targets[0], |cat.objects[0].clusters|)
             && upcase == Run(targets[1], |cat.objects[1].clusters|)
    requires cat2.system == MovedSystem(cat.system, bitmap, upcase)
    requires ExpectedBitmap(m, v.clusterCount, cat.system.bitmapLength) == Some(cat2.bitmap)
    ensures MovedCatalogue(cat, cat2, targets, m, v.clusterCount)
  {
  }
}
