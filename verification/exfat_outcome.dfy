/** What a finished relayout means: the volume scans again, passes final verification, and holds the same objects. */
module ExfatOutcome {
  import opened Bytes
  import opened ExfatVolume
  import opened ExfatScan
  import opened ExfatRoot
  import opened ExfatManifest
  import opened ExfatCanonical
  import opened ExfatMeaning
  import opened ExfatRelaid
  import opened ExfatPlan
  import opened ExfatFixpoint
  import opened ExfatBoot
  import opened ExfatDevice
  import opened ExfatProtocol
  import opened ExfatJob
  import opened ExfatRecovery
  import opened ExfatReplay
  import opened ExfatCourse
  import opened ExfatReopen
  import opened Wrappers

  /** A finished disk is the original volume relaid. */
  lemma FinishedIsRelaid(e: Job, cat: Catalogue, final: Image)
    requires Ready(e) && Built(e, cat) && Finished(e, final)
    ensures Sized(e.g, e.orig) && RelaidVolume(VolumeOf(e.g, e.orig), VolumeOf(e.g, final), cat, e.targets, e.m)
  {
    hide Ready, ReadCatalogue, ExactOwnership, SystemApart, TreeRead, ReadAll, PlacedAt, CanonicalPiece, CopyOk, Dirty,
         FinalFat, SystemFound, ClusterTotal, PayloadsOf, ListsOf;
    BuiltScan(e, cat);
    ReadyTargets(e);
    FinishedValid(e, cat, final);
    var v := VolumeOf(e.g, e.orig);
    var v2 := VolumeOf(e.g, final);
    DescribesPopulated(cat.objects, e.targets, e.workspace, e.g.clusterCount);
    JobParts(v, cat, e.targets, e.m);
    forall i | 0 <= i < |cat.objects| ensures PlacedAt(v, v2, cat.objects, e.targets, e.m, i) {
      FinishedAt(e, cat, final, i);
    }
    assert NewHeadAt(e, final, Main);
  }

  lemma FinishedValid(e: Job, cat: Catalogue, final: Image)
    requires Ready(e) && Built(e, cat) && Finished(e, final)
    ensures Sized(e.g, e.orig) && VolumeOf(e.g, e.orig).Valid() && VolumeOf(e.g, final).Valid()
  {
    hide Ready, ReadCatalogue, ExactOwnership, SystemApart, TreeRead, ReadAll, CanonicalPiece, CopyOk, Dirty,
         SystemFound, Built;
    BuiltScan(e, cat);
    ReadyTargets(e);
    assert NewHeadAt(e, final, Main);
    assert 2 <= e.targets[2] && |e.lists[2]| > 0;
  }

  lemma FinishedAt(e: Job, cat: Catalogue, final: Image, i: nat)
    requires Ready(e) && Built(e, cat) && Finished(e, final) && i < |cat.objects|
    ensures Sized(e.g, e.orig) && VolumeOf(e.g, e.orig).Valid() && VolumeOf(e.g, final).Valid()
            && InHeap(VolumeOf(e.g, e.orig), cat.objects[i])
    ensures |e.m| == |cat.objects| == |e.targets| && forall k | 0 <= k < |e.m| :: e.m[k].target < U32_LIMIT
    ensures PlacedAt(VolumeOf(e.g, e.orig), VolumeOf(e.g, final), cat.objects, e.targets, e.m, i)
  {
    hide Ready, Built, ReadAll, Payload, CopyOk, Dirty, Splits, Piece, Holds, Total, Places;
    FinishedValid(e, cat, final);
    ReadyTargets(e);
    BuiltShape(e, cat, i);
    PayloadSplits(e, i);
    var v2 := VolumeOf(e.g, final);
    var n := |e.lists[i]|;
    assert 2 <= e.targets[i];
    forall j: nat | j < n ensures v2.heap[e.targets[i] + j] == Piece(e.payloads[i], e.g.clusterSize, j) {
      assert CellOf(e, i, j);
      assert final[TargetCell(e, i, j)] == CanonicalPiece(e, i, j);
    }
    PiecesHold(v2.heap, e.g.clusterSize, e.targets[i], n, e.payloads[i]);
  }

  lemma BuiltShape(e: Job, cat: Catalogue, i: nat)
    requires Built(e, cat) && i < |cat.objects|
    ensures VolumeOf(e.g, e.orig).Valid() && |e.lists| == |e.payloads| == |e.m| == |cat.objects| == |e.targets|
    ensures PayloadAt(e, cat.objects, i) && e.lists[i] == cat.objects[i].clusters
  {
    hide Scans, SystemApart, Populate, Payload, FinalFat;
    BuiltScan(e, cat);
  }

  lemma PayloadSplits(e: Job, i: nat)
    requires Ready(e) && i < |e.lists|
    ensures |e.payloads| == |e.lists| && Splits(e.payloads[i], e.g.clusterSize, |e.lists[i]|)
  {
    hide BootReady, ListsReady, TargetsReady, StagedFits;
  }

  /** The cells a rollback restores are exactly the clusters the original bitmap allocates. */
  lemma RestoredIsAllocated(e: Job, cat: Catalogue, img: Image, c: nat)
    requires Ready(e) && Built(e, cat) && Restored(e, img) && 2 <= c < e.g.clusterCount + 2 && Allocated(cat.bitmap, c)
    ensures Cluster(c) in img && Cluster(c) in e.orig && img[Cluster(c)] == e.orig[Cluster(c)]
  {
    hide Ready, Allocated, ReadCatalogue, SystemApart, GoodTargets, Populate, FinalFat, PayloadsOf, CellContent;
    assert Owned(cat.objects, c);
    var i :| 0 <= i < |cat.objects| && Owns(cat.objects, i, c);
    var j :| 0 <= j < |cat.objects[i].clusters| && cat.objects[i].clusters[j] == c;
    assert CellOf(e, i, j) && OwnedCell(e, i, j) == Cluster(c);
    CellContentIs(e, i, j);
  }

  /** What final verification checks: the disk scans, planning it succeeds, and what is planned is already in place. */
  ghost predicate Verified(sort: seq<Key> -> seq<nat>, v: Volume, cat: Catalogue, percent: nat) {
    && Scans(v, cat) && Permutation(sort(Keys(cat.objects)), |cat.objects|)
    && exists plan :: PlannedInPlace(sort(Keys(cat.objects)), v, cat, percent, plan)
  }

  ghost predicate PlannedInPlace(order: seq<nat>, v: Volume, cat: Catalogue, percent: nat, plan: Plan)
    requires Permutation(order, |cat.objects|)
  {
    Planned(v.clusterCount, cat.objects, |cat.bitmap|, percent, order, plan) && Canonical(cat.objects, cat.bitmap, plan)
  }

  /** The plan a relayout follows: the program's sort, and a plan along its order. */
  ghost predicate PlannedBy(sort: seq<Key> -> seq<nat>, v: Volume, cat: Catalogue, percent: nat, plan: Plan) {
    && Permutation(sort(Keys(cat.objects)), |cat.objects|)
    && Planned(v.clusterCount, cat.objects, |cat.bitmap|, percent, sort(Keys(cat.objects)), plan)
  }

  predicate HasFile(objects: seq<Obj>) {
    exists i | 0 <= i < |objects| :: objects[i].kind == FileKind
  }

  /** A relaid volume passes final verification with the sort it was planned with, or with any other one when no two
      keys are equal. Its growth report is right. It holds the same objects, each in its target run, and the same bytes
      in every file and in the up-case table. */
  lemma RelaidIsVerified(v: Volume, v2: Volume, cat: Catalogue, m: seq<Record>, sort: seq<Key> -> seq<nat>,
      percent: nat, plan: Plan) returns (cat2: Catalogue)
    requires Scans(v, cat) && RelaidVolume(v, v2, cat, plan.targets, m) && PlannedBy(sort, v, cat, percent, plan)
    ensures Verified(sort, v2, cat2, percent)
    ensures forall fold, other: seq<Key> -> seq<nat> |
              SortedAgain(fold, cat.objects, sort(Keys(cat.objects)), cat2.objects, other(Keys(cat2.objects))) ::
              Verified(other, v2, cat2, percent)
    ensures percent == 10 ==> (GrowthSatisfied(v2.clusterCount, cat2.objects, cat2.bitmap) <==> HasFile(cat2.objects))
    ensures |plan.targets| == |cat.objects| && MovedAll(cat.objects, cat2.objects, plan.targets)
    ensures forall i | 0 <= i < |cat.objects|
              && (cat.objects[i].kind == FileKind || cat.objects[i].kind == UpcaseKind) ::
              SameBytes(v, cat.objects[i], v2, cat2.objects[i])
  {
    hide *;
    var order := sort(Keys(cat.objects));
    PlannedParts(sort, v, cat, percent, plan);
    PlacedFacts(v, v2, cat, plan.targets, m);
    cat2 := MeaningPreserved(v, v2, cat, plan.targets, m);
    BitmapLengths(v, v2, cat, plan.targets, m, cat2);
    PermutationIndices(order, |cat.objects|);
    MovedPlanned(v.clusterCount, cat.objects, cat2.objects, |cat.bitmap|, percent, order, plan);
    SameKeys(cat.objects, cat2.objects, plan.targets);
    forall fold, other: seq<Key> -> seq<nat> |
        SortedAgain(fold, cat.objects, order, cat2.objects, other(Keys(cat2.objects)))
      ensures Verified(other, v2, cat2, percent)
    {
      VerifiedAgain(v, v2, cat, cat2, m, percent, order, plan, fold, other);
    }
    SortsAgain(cat.objects, cat2.objects, sort);
    VerifiedAgain(v, v2, cat, cat2, m, percent, order, plan, path => path, sort);
    if percent == 10 {
      VerifiedGrowth(v, v2, cat, cat2, m, order, plan);
    }
  }

  lemma PlannedParts(sort: seq<Key> -> seq<nat>, v: Volume, cat: Catalogue, percent: nat, plan: Plan)
    requires PlannedBy(sort, v, cat, percent, plan)
    ensures Permutation(sort(Keys(cat.objects)), |cat.objects|) && Indices(sort(Keys(cat.objects)), |cat.objects|)
    ensures Planned(v.clusterCount, cat.objects, |cat.bitmap|, percent, sort(Keys(cat.objects)), plan)
  {
    hide Planned;
  }

  lemma SortsAgain(objects: seq<Obj>, moved: seq<Obj>, sort: seq<Key> -> seq<nat>)
    ensures SortedAgain(path => path, objects, sort(Keys(objects)), moved, sort(Keys(moved)))
  {
    hide DistinctKeys, Sorted;
  }

  lemma VerifiedAgain(v: Volume, v2: Volume, cat: Catalogue, cat2: Catalogue, m: seq<Record>, percent: nat,
      order: seq<nat>, plan: Plan, fold: seq<byte> -> seq<byte>, other: seq<Key> -> seq<nat>)
    requires Understood(v, cat) && Permutation(order, |cat.objects|) && v2.clusterCount == v.clusterCount
    requires |cat.bitmap| == cat.system.bitmapLength == |cat2.bitmap| && Scans(v2, cat2)
    requires Planned(v.clusterCount, cat.objects, |cat.bitmap|, percent, order, plan)
    requires |cat2.objects| == |cat.objects|
             && Planned(v.clusterCount, cat2.objects, |cat.bitmap|, percent, order, plan)
    requires |plan.targets| == |cat.objects| > 2 && Describes(m, cat.objects, plan.targets)
    requires MovedCatalogue(cat, cat2, plan.targets, m, v.clusterCount)
    requires SortedAgain(fold, cat.objects, order, cat2.objects, other(Keys(cat2.objects)))
    ensures Verified(other, v2, cat2, percent)
  {
    hide Understood, Planned, Describes, MovedCatalogue, SortedAgain, Scans, Canonical, Cursor, Permutation;
    var order2 := other(Keys(cat2.objects));
    PlannerFixpoint(fold, v, v2, cat, cat2, percent, order, plan, m, order2);
    MovedObjects(cat, cat2, plan.targets, m, v.clusterCount);
    SameOrder(fold, cat.objects, order, cat2.objects, order2, plan.targets);
    assert PlannedInPlace(order2, v2, cat2, percent, plan);
  }

  lemma MovedObjects(cat: Catalogue, cat2: Catalogue, targets: seq<nat>, m: seq<Record>, clusterCount: nat)
    requires |targets| == |cat.objects| > 2 && MovedCatalogue(cat, cat2, targets, m, clusterCount)
    ensures MovedAll(cat.objects, cat2.objects, targets)
  {
  }

  lemma VerifiedGrowth(v: Volume, v2: Volume, cat: Catalogue, cat2: Catalogue, m: seq<Record>, order: seq<nat>,
      plan: Plan)
    requires Understood(v, cat) && Scans(v, cat) && Permutation(order, |cat.objects|)
             && v2.clusterCount == v.clusterCount
    requires |cat.bitmap| == cat.system.bitmapLength
             && Planned(v.clusterCount, cat.objects, |cat.bitmap|, 10, order, plan)
    requires |plan.targets| == |cat.objects| > 2 && Describes(m, cat.objects, plan.targets)
    requires MovedCatalogue(cat, cat2, plan.targets, m, v.clusterCount)
    requires |cat2.objects| == |cat.objects| && Planned(v.clusterCount, cat2.objects, |cat.bitmap|, 10, order, plan)
    ensures GrowthSatisfied(v2.clusterCount, cat2.objects, cat2.bitmap) <==> HasFile(cat2.objects)
  {
    hide Understood, Planned, Describes, MovedCatalogue, SortedAgain, Scans, Cursor, Permutation, GrowthSatisfied;
    SortsAgain(cat.objects, cat2.objects, (keys: seq<Key>) => order);
    PlannerFixpoint(path => path, v, v2, cat, cat2, 10, order, plan, m, order);
    MovedObjects(cat, cat2, plan.targets, m, v.clusterCount);
    BitmapLongEnough(v, cat);
    NoneEmpty(v, cat);
    GrowthReported(v.clusterCount, cat.objects, cat2.objects, |cat.bitmap|, order, plan);
    FilesMoved(cat.objects, cat2.objects, plan.targets);
  }

  lemma NoneEmpty(v: Volume, cat: Catalogue)
    requires Scans(v, cat)
    ensures forall i | 0 <= i < |cat.objects| :: cat.objects[i].clusters != []
  {
    hide ReadCatalogue, ExactOwnership, ReadAll, TreeRead;
    ScanUnderstands(v, cat);
  }

  lemma FilesMoved(objects: seq<Obj>, moved: seq<Obj>, targets: seq<nat>)
    requires |targets| == |objects| && MovedAll(objects, moved, targets)
    ensures HasFile(moved) <==> exists i | 0 <= i < |objects| :: objects[i].kind == FileKind
  {
    forall i | 0 <= i < |objects| ensures moved[i].kind == objects[i].kind {
      assert moved[i] == Moved(objects[i], targets[i]);
    }
    if i :| 0 <= i < |objects| && objects[i].kind == FileKind {
      assert moved[i].kind == FileKind;
    }
  }

  lemma BitmapLengths(v: Volume, v2: Volume, cat: Catalogue, targets: seq<nat>, m: seq<Record>, cat2: Catalogue)
    requires Scans(v, cat) && |targets| == |cat.objects| > 2 && MovedCatalogue(cat, cat2, targets, m, v.clusterCount)
    ensures |cat.bitmap| == cat.system.bitmapLength == |cat2.bitmap| && MovedAll(cat.objects, cat2.objects, targets)
  {
    hide ExactOwnership, ReadAll, TreeRead, ExpectedBitmap, ParseDir, SystemEntries, Chain;
    ScanUnderstands(v, cat);
  }

  /** Crash recovery keeps the meaning: whatever any number of crashes left, when the repaired volume opens the
      recovered disk passes final verification with the original objects, paths, lengths and file bytes. */
  lemma RecoveryIsVerified(e: Job, cat: Catalogue, n: nat, img: Image, replayed: seq<nat>, sort: seq<Key> -> seq<nat>,
                           percent: nat, plan: Plan) returns (final: Image, cat2: Catalogue)
    requires Ready(e) && Built(e, cat) && Crashed(e, n, img) && Permutation(replayed, |e.m|) && Indexes(e, replayed)
    requires Sized(e.g, img) && Opens(e, Repaired(e.g, img))
    requires Sized(e.g, e.orig) && PlannedBy(sort, VolumeOf(e.g, e.orig), cat, percent, plan)
             && plan.targets == e.targets
    ensures Execute(Settled(img, Some(e.m)), RecoverOps(e, img, replayed)) == Settled(final, Some(e.m))
    ensures FinalVolume(e, cat, final, cat2, sort, percent)
  {
    hide *;
    AnyNumberOfCrashes(e, n, img);
    final := RecoveryCompletes(e, img, replayed);
    cat2 := FinishedIsVerified(e, cat, final, sort, percent, plan);
  }

  /** With a backup copy that fits, or a root directory that stays, every recovery ends so. */
  lemma RecoveryAlwaysVerified(e: Job, cat: Catalogue, n: nat, img: Image, replayed: seq<nat>,
      sort: seq<Key> -> seq<nat>, percent: nat, plan: Plan) returns (final: Image, cat2: Catalogue)
    requires Ready(e) && Built(e, cat) && Crashed(e, n, img) && Permutation(replayed, |e.m|) && Indexes(e, replayed)
    requires BackupFits(e) || Steady(e)
    requires Sized(e.g, e.orig) && PlannedBy(sort, VolumeOf(e.g, e.orig), cat, percent, plan)
             && plan.targets == e.targets
    ensures Sized(e.g, img)
    ensures Execute(Settled(img, Some(e.m)), RecoverOps(e, img, replayed)) == Settled(final, Some(e.m))
    ensures FinalVolume(e, cat, final, cat2, sort, percent)
  {
    hide *;
    AnyNumberOfCrashes(e, n, img);
    OpensWhenSound(e, img);
    final, cat2 := RecoveryIsVerified(e, cat, n, img, replayed, sort, percent, plan);
  }

  /** A volume at the end of a relayout: it passes verification, reports growth rightly, and holds every object of the
      original one in its target run with the bytes it had. */
  ghost predicate FinalVolume(e: Job, cat: Catalogue, final: Image, cat2: Catalogue, sort: seq<Key> -> seq<nat>,
      percent: nat) {
    && Sized(e.g, final) && Sized(e.g, e.orig) && VolumeOf(e.g, final).Valid() && VolumeOf(e.g, e.orig).Valid()
    && Verified(sort, VolumeOf(e.g, final), cat2, percent)
    && (percent == 10 ==> (GrowthSatisfied(e.g.clusterCount, cat2.objects, cat2.bitmap) <==> HasFile(cat2.objects)))
    && |e.targets| == |cat.objects| && MovedAll(cat.objects, cat2.objects, e.targets)
    && forall i | 0 <= i < |cat.objects| && (cat.objects[i].kind == FileKind || cat.objects[i].kind == UpcaseKind) ::
         SameBytes(VolumeOf(e.g, e.orig), cat.objects[i], VolumeOf(e.g, final), cat2.objects[i])
  }

  lemma FinishedIsVerified(e: Job, cat: Catalogue, final: Image, sort: seq<Key> -> seq<nat>, percent: nat, plan: Plan)
      returns (cat2: Catalogue)
    requires Ready(e) && Built(e, cat) && Finished(e, final) && Sized(e.g, e.orig)
    requires PlannedBy(sort, VolumeOf(e.g, e.orig), cat, percent, plan) && plan.targets == e.targets
    ensures FinalVolume(e, cat, final, cat2, sort, percent)
  {
    hide *;
    FinishedSized(e, final);
    FinishedIsRelaid(e, cat, final);
    BuiltScan(e, cat);
    cat2 := RelaidIsVerified(VolumeOf(e.g, e.orig), VolumeOf(e.g, final), cat, e.m, sort, percent, plan);
    FinishedValid(e, cat, final);
    BeFinal(e, cat, final, cat2, sort, percent);
  }

  lemma BeFinal(e: Job, cat: Catalogue, final: Image, cat2: Catalogue, sort: seq<Key> -> seq<nat>, percent: nat)
    requires Sized(e.g, final) && Sized(e.g, e.orig) && VolumeOf(e.g, final).Valid() && VolumeOf(e.g, e.orig).Valid()
    requires Verified(sort, VolumeOf(e.g, final), cat2, percent)
    requires percent == 10 ==>
               (GrowthSatisfied(VolumeOf(e.g, final).clusterCount, cat2.objects, cat2.bitmap) <==>
                     HasFile(cat2.objects))
    requires |e.targets| == |cat.objects| && MovedAll(cat.objects, cat2.objects, e.targets)
    requires forall i | 0 <= i < |cat.objects|
               && (cat.objects[i].kind == FileKind || cat.objects[i].kind == UpcaseKind) ::
               SameBytes(VolumeOf(e.g, e.orig), cat.objects[i], VolumeOf(e.g, final), cat2.objects[i])
    ensures FinalVolume(e, cat, final, cat2, sort, percent)
  {
    hide Verified, SameBytes, MovedAll, GrowthSatisfied;
  }

  lemma FinishedSized(e: Job, img: Image)
    requires Ready(e) && Finished(e, img)
    ensures Sized(e.g, img)
  {
  }

  /** So does the uninterrupted run. */
  lemma RunIsVerified(e: Job, cat: Catalogue, staged: Image, placed: seq<nat>, sort: seq<Key> -> seq<nat>, percent: nat,
                      plan: Plan) returns (final: Image, cat2: Catalogue)
    requires Ready(e) && Built(e, cat) && StagedImage(e, staged) && Permutation(placed, |e.m|) && Indexes(e, placed)
    requires Sized(e.g, e.orig) && PlannedBy(sort, VolumeOf(e.g, e.orig), cat, percent, plan)
             && plan.targets == e.targets
    ensures Execute(Settled(staged, Some(e.m)), CompleteOps(e, placed)) == Settled(final, Some(e.m))
    ensures FinalVolume(e, cat, final, cat2, sort, percent)
  {
    hide *;
    final := CompleteRun(e, staged, placed);
    cat2 := FinishedIsVerified(e, cat, final, sort, percent, plan);
  }
}
