/** The stage of the redo path: a new image with every object in its target run, canonical FAT and root. */
module ExfatStage {
  import opened Bytes
  import opened ExfatVolume
  import opened ExfatScan
  import opened ExfatTree
  import opened ExfatRoot
  import opened ExfatManifest
  import opened ExfatCanonical
  import opened ExfatMeaning
  import opened ExfatRelaid
  import opened ExfatPlan
  import opened ExfatFixpoint
  import opened ExfatProtocol
  import opened ExfatBuilder
  import opened ExfatJob
  import opened Wrappers

  // ---- runs of clusters -------------------------------------------------------------------------

  /** What is left of a payload after its first n clusters. */
  function Left(payload: seq<byte>, size: nat, n: nat): seq<byte>
    decreases n
  {
    if n == 0 then payload else if |payload| < size then [] else Left(payload[size..], size, n - 1)
  }

  lemma {:induction false} LeftNext(payload: seq<byte>, size: nat, total: nat, n: nat)
    requires Splits(payload, size, total) && n < total
    ensures |Left(payload, size, n)| >= size && Piece(payload, size, n) == Left(payload, size, n)[..size]
    ensures Left(payload, size, n + 1) == Left(payload, size, n)[size..]
  {
    if n > 0 { LeftNext(payload[size..], size, total - 1, n - 1); }
  }

  /** Clusters outside a run are no business of it. */
  lemma {:induction false} HoldsFrame(heap: seq<seq<byte>>, next: seq<seq<byte>>, size: nat, t: nat, n: nat,
      payload: seq<byte>)
    requires |next| == |heap| && SameRun(heap, next, t, n) && Holds(heap, size, t, n, payload)
    ensures Holds(next, size, t, n, payload)
    decreases n
  {
    hide SameRun;
    if n > 0 {
      SameRest(heap, next, t, n);
      assert heap[t] == payload[..size];
      HoldsFrame(heap, next, size, t + 1, n - 1, payload[size..]);
    }
  }

  predicate SameRun(heap: seq<seq<byte>>, next: seq<seq<byte>>, t: nat, n: nat)
    requires |next| == |heap|
  {
    forall c | t <= c < t + n && c < |heap| :: next[c] == heap[c]
  }

  lemma SameRest(heap: seq<seq<byte>>, next: seq<seq<byte>>, t: nat, n: nat)
    requires |next| == |heap| && SameRun(heap, next, t, n) && n > 0
    ensures SameRun(heap, next, t + 1, n - 1) && (t < |heap| ==> next[t] == heap[t])
  {
  }

  /** The stage file being written. */
  class StageFile {
    const clusterSize: nat
    const clusterCount: nat
    var heap: seq<seq<byte>>
    var fat: seq<byte>
    var root: nat

    ghost predicate Valid()
      reads this
    {
      |heap| == clusterCount + 2 && forall c | 2 <= c < |heap| :: |heap[c]| == clusterSize
    }

    /** A file of zeros behind a copy of everything before the heap. */
    constructor (v: Volume)
      requires v.Valid()
      ensures Valid() && clusterSize == v.clusterSize && clusterCount == v.clusterCount && fat == v.fat
              && root == v.root
    {
      clusterSize, clusterCount, fat, root := v.clusterSize, v.clusterCount, v.fat, v.root;
      heap := seq(v.clusterCount + 2, c requires 0 <= c => if c < 2 then [] else Zeros(v.clusterSize));
      new;
      assert forall c | 2 <= c < |heap| :: heap[c] == Zeros(v.clusterSize) && |heap[c]| == v.clusterSize;
    }

    /** One payload, cluster by cluster, the last one filled up with zeros. */
    method WriteTargetPayload(target: nat, n: nat, payload: seq<byte>, ghost whole: seq<byte>)
      requires Valid() && 2 <= target && target + n <= clusterCount + 2
      requires Splits(whole, clusterSize, n) && |payload| <= |whole| && whole == payload + Zeros(|whole| - |payload|)
      modifies this`heap
      ensures Valid() && Holds(heap, clusterSize, target, n, whole)
      ensures forall c | 0 <= c < |heap| && !(target <= c < target + n) :: heap[c] == old(heap[c])
    {
      var rest := payload;
      for i := 0 to n
        invariant Valid() && |heap| == |old(heap)|
        invariant |rest| <= |Left(whole, clusterSize, i)|
        invariant Left(whole, clusterSize, i) == rest + Zeros(|Left(whole, clusterSize, i)| - |rest|)
        invariant forall j: nat | j < i :: heap[target + j] == Piece(whole, clusterSize, j)
        invariant forall c | 0 <= c < |heap| && !(target <= c < target + n) :: heap[c] == old(heap[c])
      {
        LeftNext(whole, clusterSize, n, i);
        var chunk := if |rest| < clusterSize then |rest| else clusterSize;
        var cluster := rest[..chunk] + Zeros(clusterSize - chunk);
        ghost var left := Left(whole, clusterSize, i);
        FirstCluster(left, rest, clusterSize);
        heap := heap[target + i := cluster];
        rest := rest[chunk..];
      }
      PiecesHold(heap, clusterSize, target, n, whole);
    }

    method WriteFat(table: seq<byte>)
      requires Valid()
      modifies this`fat
      ensures Valid() && fat == table
    {
      fat := table;
    }

    method WriteBoot(target: nat)
      requires Valid()
      modifies this`root
      ensures Valid() && root == target
    {
      root := target;
    }

    /** The file, opened. */
    function Opens(): Volume
      reads this
    {
      Volume(clusterSize, clusterCount, fat, heap, root)
    }
  }

  /** The first cluster of a payload that has been filled up with zeros, and what is left of it. */
  lemma FirstCluster(left: seq<byte>, rest: seq<byte>, size: nat)
    requires |rest| <= |left| && left == rest + Zeros(|left| - |rest|) && |left| >= size
    ensures var chunk := if |rest| < size then |rest| else size;
            && left[..size] == rest[..chunk] + Zeros(size - chunk)
            && |left[size..]| >= |rest[chunk..]|
               && left[size..] == rest[chunk..] + Zeros(|left[size..]| - |rest[chunk..]|)
  {
    var chunk := if |rest| < size then |rest| else size;
    var a := rest[..chunk] + Zeros(size - chunk);
    forall k | 0 <= k < size ensures left[..size][k] == a[k] { }
    var b := rest[chunk..] + Zeros(|left[size..]| - |rest[chunk..]|);
    forall k | 0 <= k < |left| - size ensures left[size..][k] == b[k] { }
  }

  // ---- the stage --------------------------------------------------------------------------------

  /** The first n objects hold what placing them means. */
  ghost predicate Staged(v: Volume, heap: seq<seq<byte>>, cat: Catalogue, targets: seq<nat>, m: seq<Record>, n: nat)
    requires v.Valid() && n <= |cat.objects| == |targets| == |m| && (forall k | 0 <= k < |m| :: m[k].target < U32_LIMIT)
  {
    forall i | 0 <= i < n :: StagedAt(v, heap, cat, targets, m, i)
  }

  ghost predicate StagedAt(v: Volume, heap: seq<seq<byte>>, cat: Catalogue, targets: seq<nat>, m: seq<Record>, i: nat)
    requires v.Valid() && i < |cat.objects| == |targets| == |m| && (forall k | 0 <= k < |m| :: m[k].target < U32_LIMIT)
  {
    && InHeap(v, cat.objects[i]) && Readable(v, cat.objects[i])
    && var p := Payload(m, v.clusterCount, i, ReadAll(v, cat.objects[i].clusters));
       p.Some? && Holds(heap, v.clusterSize, targets[i], |cat.objects[i].clusters|, p.value)
  }

  /** Builds the stage of a scanned volume along a plan: bitmap, table, directories patched, files copied, then FAT and
      boot copies. It fails only where a system entry lies inside an entry set. */
  method BuildStage(v: Volume, cat: Catalogue, percent: nat, plan: Plan, ghost order: seq<nat>)
      returns (ok: bool, file: StageFile, m: seq<Record>)
    requires Scans(v, cat) && Permutation(order, |cat.objects|)
    requires Planned(v.clusterCount, cat.objects, |cat.bitmap|, percent, order, plan)
    ensures fresh(file) && |plan.targets| == |cat.objects| && m == Populate(cat.objects, plan.targets, 0)
    ensures ok ==> LaidAnew(v, file.Opens(), cat, plan.targets, m)
    ensures SystemApart(v, cat) ==> ok
  {
    hide *;
    PlanParts(v, cat, percent, order, plan);
    m := PopulateManifest(cat.objects, plan.targets, 0);
    StageParts(v, cat, plan.targets, m);
    PlanBitmapIsExpected(v.clusterCount, cat.objects, |cat.bitmap|, percent, order, plan, m);
    file := new StageFile(v);
    NothingStaged(v, file.heap, cat, plan.targets, m);
    for i := 0 to |cat.objects|
      invariant file.Valid() && fresh(file) && file.fat == v.fat && Staged(v, file.heap, cat, plan.targets, m, i)
    {
      ok := StageObject(file, v, cat, plan, m, i);
      if !ok {
        return;
      }
    }
    var made, table := BuildFinalFat(v.fat, m);
    file.WriteFat(table[..]);
    RootTarget(m, cat, plan.targets);
    file.WriteBoot(m[2].target);
    ok := made;
    FatIsMade(m, v, cat, plan.targets);
    StageDone(v, file, cat, plan.targets, m);
  }

  /** One object's payload in its target run. */
  method StageObject(file: StageFile, v: Volume, cat: Catalogue, plan: Plan, m: seq<Record>, i: nat) returns (ok: bool)
    requires file.Valid() && file.clusterSize == v.clusterSize && file.clusterCount == v.clusterCount
    requires Understood(v, cat) && GoodTargets(v.clusterCount, cat.objects, plan.targets)
    requires i < |cat.objects| == |plan.targets| == |m| && Describes(m, cat.objects, plan.targets)
    requires forall k | 0 <= k < |m| :: m[k].target < U32_LIMIT
    requires ExpectedBitmap(m, v.clusterCount, cat.system.bitmapLength) == Some(plan.bitmap)
    requires Staged(v, file.heap, cat, plan.targets, m, i)
    modifies file`heap
    ensures file.Valid() && (ok ==> Staged(v, file.heap, cat, plan.targets, m, i + 1))
    ensures SystemApart(v, cat) ==> ok
  {
    hide Payload, ReadAll, PatchDirectory, Staged, SystemApart, GoodTargets, ExpectedBitmap, Describes, Understood,
         Splits, Holds;
    var o := cat.objects[i];
    StagePart(v, cat, plan.targets, m, i);
    ghost var whole := Payload(m, v.clusterCount, i, ReadAll(v, o.clusters));
    ghost var before := file.heap;
    if o.kind == BitmapKind {
      BitmapPart(v, cat, plan, m, i);
      file.WriteTargetPayload(plan.targets[i], |o.clusters|, plan.bitmap, whole.value);
    } else {
      var stream := ReadObject(v, o.clusters);
      PayloadCases(m, v.clusterCount, i, stream);
      if o.Directory() {
        var data := new byte[|stream|](k requires 0 <= k < |stream| => stream[k]);
        assert data[..] == stream;
        ok := PatchDirectoryPayload(m, i, data);
        if !ok {
          return;
        }
        stream := data[..];
      }
      NothingAdded(stream);
      file.WriteTargetPayload(plan.targets[i], |o.clusters|, stream, whole.value);
    }
    StagedMore(v, before, file.heap, cat, plan.targets, m, i);
    ok := true;
  }

  method ReadObject(v: Volume, clusters: seq<nat>) returns (data: seq<byte>)
    requires forall i | 0 <= i < |clusters| :: clusters[i] < |v.heap|
    ensures data == ReadAll(v, clusters)
  {
    data := [];
    for i := |clusters| downto 0
      invariant data == ReadAll(v, clusters[i..])
    {
      assert clusters[i..][1..] == clusters[i + 1..];
      data := v.heap[clusters[i]] + data;
    }
    assert clusters[0..] == clusters;
  }

  lemma PlanParts(v: Volume, cat: Catalogue, percent: nat, order: seq<nat>, plan: Plan)
    requires Scans(v, cat) && Permutation(order, |cat.objects|)
    requires Planned(v.clusterCount, cat.objects, |cat.bitmap|, percent, order, plan)
    ensures v.Valid() && ReadCatalogue(v) == Ok(cat) && Understood(v, cat) && |cat.objects| > 2
    ensures v.clusterCount <= MAX_CLUSTERS && v.clusterCount <= 8 * |cat.bitmap|
            && |cat.bitmap| == cat.system.bitmapLength
    ensures |plan.targets| == |cat.objects| && GoodTargets(v.clusterCount, cat.objects, plan.targets)
  {
    hide Planned, Permutation, ReadCatalogue, Understood, GoodTargets, ReadAll;
    BitmapLongEnough(v, cat);
    PlanGood(v.clusterCount, cat.objects, |cat.bitmap|, percent, order, plan);
    ScanUnderstands(v, cat);
    BitmapLengthIs(v, cat);
  }

  lemma BitmapLengthIs(v: Volume, cat: Catalogue)
    requires Scans(v, cat)
    ensures |cat.bitmap| == cat.system.bitmapLength
  {
    hide ExactOwnership, ReadAll, TreeRead, ParseDir, SystemEntries, Chain;
    ScanUnderstands(v, cat);
  }

  lemma StageParts(v: Volume, cat: Catalogue, targets: seq<nat>, m: seq<Record>)
    requires Understood(v, cat) && GoodTargets(v.clusterCount, cat.objects, targets) && |targets| == |cat.objects|
    requires m == Populate(cat.objects, targets, 0)
    ensures |m| == |cat.objects| && Describes(m, cat.objects, targets)
    ensures forall k | 0 <= k < |m| :: m[k].target < U32_LIMIT && m[k].target + m[k].clusters < EOC
    ensures forall i | 0 <= i < |targets| ::
              2 <= targets[i] && targets[i] + |cat.objects[i].clusters| <= v.clusterCount + 2
  {
    hide Understood, Populate;
    DescribesPopulated(cat.objects, targets, 0, v.clusterCount);
    TargetFacts(v.clusterCount, cat.objects, targets, m);
  }

  lemma NothingStaged(v: Volume, heap: seq<seq<byte>>, cat: Catalogue, targets: seq<nat>, m: seq<Record>)
    requires v.Valid() && |cat.objects| == |targets| == |m| && (forall k | 0 <= k < |m| :: m[k].target < U32_LIMIT)
    ensures Staged(v, heap, cat, targets, m, 0)
  {
  }

  /** One object: it can be read, and if placing it means something, that fills its run. */
  lemma StagePart(v: Volume, cat: Catalogue, targets: seq<nat>, m: seq<Record>, i: nat)
    requires Understood(v, cat) && i < |cat.objects| == |m| && (forall k | 0 <= k < |m| :: m[k].target < U32_LIMIT)
    requires GoodTargets(v.clusterCount, cat.objects, targets) && Describes(m, cat.objects, targets)
    ensures v.Valid() && m[i].kind == cat.objects[i].kind && 2 <= targets[i]
            && targets[i] + |cat.objects[i].clusters| <= v.clusterCount + 2
    ensures SystemApart(v, cat) ==> Payload(m, v.clusterCount, i, ReadAll(v, cat.objects[i].clusters)).Some?
    ensures InHeap(v, cat.objects[i]) && Readable(v, cat.objects[i])
    ensures var p := Payload(m, v.clusterCount, i, ReadAll(v, cat.objects[i].clusters));
            p.Some? ==> Splits(p.value, v.clusterSize, |cat.objects[i].clusters|)
  {
    hide ReadAll, Payload, TreeRead, SystemFound, StopsOnWalk, Splits, SystemApart;
    if SystemApart(v, cat) {
      PayloadExists(v, cat, targets, m, i);
    }
    var o := cat.objects[i];
    ObjectClusters(v, o);
    ReadSplits(v, o.clusters);
    var p := Payload(m, v.clusterCount, i, ReadAll(v, o.clusters));
    if p.Some? {
      SplitsByLength(ReadAll(v, o.clusters), p.value, v.clusterSize, |o.clusters|);
    }
  }

  lemma BitmapPart(v: Volume, cat: Catalogue, plan: Plan, m: seq<Record>, i: nat)
    requires Understood(v, cat) && |plan.targets| == |cat.objects| && Describes(m, cat.objects, plan.targets)
    requires i < |m| && cat.objects[i].kind == BitmapKind && (forall k | 0 <= k < |m| :: m[k].target < U32_LIMIT)
    requires ExpectedBitmap(m, v.clusterCount, cat.system.bitmapLength) == Some(plan.bitmap)
    requires Readable(v, cat.objects[i])
    ensures var p := Payload(m, v.clusterCount, i, ReadAll(v, cat.objects[i].clusters));
            p.Some? && |plan.bitmap| <= |p.value| && p.value == plan.bitmap + Zeros(|p.value| - |plan.bitmap|)
  {
    hide ReadAll, ExpectedBitmap, TreeRead, SystemFound, StopsOnWalk, PatchDirectory;
    assert i == 0;
    ExpectedLength(m, v.clusterCount, cat.system.bitmapLength);
  }

  lemma ExpectedLength(m: seq<Record>, clusterCount: nat, length: nat)
    requires ExpectedBitmap(m, clusterCount, length).Some?
    ensures |ExpectedBitmap(m, clusterCount, length).value| == length
  {
  }

  lemma PayloadCases(m: seq<Record>, clusterCount: nat, i: nat, stream: seq<byte>)
    requires i < |m| && (forall k | 0 <= k < |m| :: m[k].target < U32_LIMIT) && m[i].kind != BitmapKind
    ensures Payload(m, clusterCount, i, stream) == if m[i].Directory() then PatchDirectory(m, i, stream)
            else Some(stream)
  {
    hide PatchDirectory, ExpectedBitmap;
  }

  lemma NothingAdded(stream: seq<byte>)
    ensures stream == stream + Zeros(0)
  {
  }

  lemma StagedMore(v: Volume, heap: seq<seq<byte>>, next: seq<seq<byte>>, cat: Catalogue, targets: seq<nat>,
      m: seq<Record>, i: nat)
    requires v.Valid() && i < |cat.objects| == |targets| == |m| && (forall k | 0 <= k < |m| :: m[k].target < U32_LIMIT)
    requires GoodTargets(v.clusterCount, cat.objects, targets) && |next| == |heap|
             && Staged(v, heap, cat, targets, m, i)
    requires forall c | 0 <= c < |heap| && !(targets[i] <= c < targets[i] + |cat.objects[i].clusters|) ::
               next[c] == heap[c]
    requires StagedAt(v, next, cat, targets, m, i)
    ensures Staged(v, next, cat, targets, m, i + 1)
  {
    hide Payload, ReadAll, Holds, InHeap;
    forall k | 0 <= k < i ensures StagedAt(v, next, cat, targets, m, k) {
      assert StagedAt(v, heap, cat, targets, m, k);
      assert RunsApart(targets[k], |cat.objects[k].clusters|, targets[i], |cat.objects[i].clusters|);
      var p := Payload(m, v.clusterCount, k, ReadAll(v, cat.objects[k].clusters)).value;
      assert SameRun(heap, next, targets[k], |cat.objects[k].clusters|);
      HoldsFrame(heap, next, v.clusterSize, targets[k], |cat.objects[k].clusters|, p);
    }
  }

  lemma RootTarget(m: seq<Record>, cat: Catalogue, targets: seq<nat>)
    requires |cat.objects| > 2 && Describes(m, cat.objects, targets)
    ensures |m| > 2 && |targets| > 2 && m[2].target == targets[2]
  {
  }

  lemma FatIsMade(m: seq<Record>, v: Volume, cat: Catalogue, targets: seq<nat>)
    requires v.Valid() && GoodTargets(v.clusterCount, cat.objects, targets) && Describes(m, cat.objects, targets)
    ensures FinalFat(m, v.fat).Some?
  {
    hide FinalFat, GoodTargets, Describes;
    TargetFacts(v.clusterCount, cat.objects, targets, m);
    CountBound(v.clusterCount, cat.objects, targets);
    FinalFatLinks(m, v.fat, v.clusterCount);
  }

  lemma CountBound(clusterCount: nat, objects: seq<Obj>, targets: seq<nat>)
    requires GoodTargets(clusterCount, objects, targets)
    ensures clusterCount <= MAX_CLUSTERS
  {
  }

  lemma StageDone(v: Volume, file: StageFile, cat: Catalogue, targets: seq<nat>, m: seq<Record>)
    requires Understood(v, cat) && ReadCatalogue(v) == Ok(cat) && |cat.objects| == |targets| == |m| > 2
    requires (forall k | 0 <= k < |m| :: m[k].target < U32_LIMIT) && Describes(m, cat.objects, targets)
    requires GoodTargets(v.clusterCount, cat.objects, targets)
    requires file.Valid() && file.clusterSize == v.clusterSize && file.clusterCount == v.clusterCount
             && file.root == targets[2]
    requires FinalFat(m, v.fat) == Some(file.fat) && Staged(v, file.heap, cat, targets, m, |cat.objects|)
    ensures LaidAnew(v, file.Opens(), cat, targets, m)
  {
    hide Payload, ReadAll, Holds, FinalFat, TreeRead, SystemFound, StopsOnWalk, ReadCatalogue;
    TargetFacts(v.clusterCount, cat.objects, targets, m);
    FatLength(m, v);
    assert |cat.objects[2].clusters| > 0;
    forall i | 0 <= i < |cat.objects| ensures PlacedAt(v, file.Opens(), cat.objects, targets, m, i) {
      assert StagedAt(v, file.heap, cat, targets, m, i);
    }
  }

  lemma FatLength(m: seq<Record>, v: Volume)
    requires v.Valid() && (forall k | 0 <= k < |m| :: m[k].target + m[k].clusters < EOC) && FinalFat(m, v.fat).Some?
    ensures |FinalFat(m, v.fat).value| == |v.fat|
  {
  }
}
