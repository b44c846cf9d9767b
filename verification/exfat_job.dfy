/** From a scan, a plan and a workspace to the relayout job that the protocol runs. */
module ExfatJob {
  import opened Bytes
  import opened ExfatVolume
  import opened ExfatScan
  import opened ExfatManifest
  import opened ExfatCanonical
  import opened ExfatMeaning
  import opened ExfatRelaid
  import opened ExfatPlan
  import opened ExfatBuilder
  import opened ExfatDevice
  import opened ExfatProtocol
  import opened Wrappers

  /** The job is the one built from this catalogue: its manifest, canonical payloads and FAT are the catalogue's. */
  ghost predicate Built(e: Job, cat: Catalogue) {
    && Sized(e.g, e.orig) && Scans(VolumeOf(e.g, e.orig), cat) && SystemApart(VolumeOf(e.g, e.orig), cat)
    && GoodTargets(e.g.clusterCount, cat.objects, e.targets)
    && e.m == Populate(cat.objects, e.targets, e.workspace)
    && ListsOf(e, cat.objects) && PayloadsOf(e, cat.objects)
    && (forall k | 0 <= k < |e.m| :: e.m[k].target + e.m[k].clusters < EOC) && FinalFat(e.m, e.orig[Fat]) == Some(e.fat)
  }

  ghost predicate ListsOf(e: Job, objects: seq<Obj>) {
    |e.lists| == |objects| && forall i | 0 <= i < |objects| :: e.lists[i] == objects[i].clusters
  }

  /** Every payload is what placing the object's record makes of the object's bytes. */
  ghost predicate PayloadsOf(e: Job, objects: seq<Obj>)
    requires Sized(e.g, e.orig) && VolumeOf(e.g, e.orig).Valid()
  {
    && |e.payloads| == |objects| == |e.m|
    && forall i | 0 <= i < |objects| :: PayloadAt(e, objects, i)
  }

  ghost predicate PayloadAt(e: Job, objects: seq<Obj>, i: nat)
    requires Sized(e.g, e.orig) && VolumeOf(e.g, e.orig).Valid() && i < |objects| == |e.m| == |e.payloads|
  {
    && InHeap(VolumeOf(e.g, e.orig), objects[i]) && (forall k | 0 <= k < |e.m| :: e.m[k].target < U32_LIMIT)
    && Readable(VolumeOf(e.g, e.orig), objects[i])
    && Payload(e.m, e.g.clusterCount, i, ReadAll(VolumeOf(e.g, e.orig), objects[i].clusters)) == Some(e.payloads[i])
  }

  predicate Readable(v: Volume, o: Obj) {
    forall i | 0 <= i < |o.clusters| :: o.clusters[i] < |v.heap|
  }

  lemma {:induction false} TotalsAgree(objects: seq<Obj>, lists: seq<seq<nat>>, n: nat)
    requires |lists| == |objects| && n <= |objects| && forall i | 0 <= i < |objects| :: lists[i] == objects[i].clusters
    ensures ClusterTotal(objects, n) == Total(lists, n)
  {
    if n > 0 { TotalsAgree(objects, lists, n - 1); }
  }

  /** The manifest's record of object i. */
  lemma BuiltRecord(e: Job, cat: Catalogue, i: nat)
    requires Built(e, cat) && i < |e.lists|
    ensures |e.m| == |e.lists| == |e.targets| == |cat.objects|
    ensures e.m[i] == RecordOf(cat.objects[i], e.targets[i], e.workspace + Total(e.lists, i))
    ensures e.m[i].clusters == |e.lists[i]| && e.m[i].target == e.targets[i]
            && e.m[i].staged == e.workspace + Total(e.lists, i)
    ensures forall k | 0 <= k < |e.m| :: e.m[k].target < U32_LIMIT
  {
    hide Scans, SystemApart, Payload, FinalFat, ClusterTotal, Total;
    TotalsAgree(cat.objects, e.lists, i);
  }

  lemma BuiltScan(e: Job, cat: Catalogue)
    requires Built(e, cat)
    ensures Sized(e.g, e.orig)
    ensures var v := VolumeOf(e.g, e.orig); v.Valid() && Scans(v, cat) && SystemApart(v, cat) && Understood(v, cat)
  {
    hide ReadCatalogue, ExactOwnership, SystemApart, Understood, Populate, GoodTargets, PayloadsOf, ListsOf, FinalFat;
    ScanUnderstands(VolumeOf(e.g, e.orig), cat);
  }

  /** Payloads exist for every record, so a job can be built. */
  ghost function JobOf(g: Geometry, device: nat, orig: Image, cat: Catalogue, targets: seq<nat>, workspace: nat): Job
    requires Sized(g, orig) && Scans(VolumeOf(g, orig), cat) && SystemApart(VolumeOf(g, orig), cat)
    requires GoodTargets(g.clusterCount, cat.objects, targets)
  {
    var v := VolumeOf(g, orig);
    var m := Populate(cat.objects, targets, workspace);
    JobParts(v, cat, targets, m);
    Job(g, device, orig, seq(|cat.objects|, i requires 0 <= i < |cat.objects| => cat.objects[i].clusters), targets,
        seq(|cat.objects|, i requires 0 <= i < |cat.objects| => PayloadPart(v, cat, targets, m, i)),
        FinalFat(m, orig[Fat]).value, workspace, m)
  }

  lemma JobParts(v: Volume, cat: Catalogue, targets: seq<nat>, m: seq<Record>)
    requires Scans(v, cat) && SystemApart(v, cat) && GoodTargets(v.clusterCount, cat.objects, targets)
             && Describes(m, cat.objects, targets)
    ensures forall k | 0 <= k < |m| :: m[k].target + m[k].clusters < EOC && m[k].target < U32_LIMIT
    ensures FinalFat(m, v.fat).Some? && |FinalFat(m, v.fat).value| == |v.fat| >= 8
            && FinalFat(m, v.fat).value[..8] == v.fat[..8]
    ensures forall i | 0 <= i < |cat.objects| :: InHeap(v, cat.objects[i]) && cat.objects[i].clusters != []
  {
    hide ReadCatalogue, ExactOwnership, SystemApart, TreeRead, ReadAll, LinkFrom, TargetsInHeap, TargetsDisjoint;
    ScanUnderstands(v, cat);
    TargetFacts(v.clusterCount, cat.objects, targets, m);
    FinalFatLinks(m, v.fat, v.clusterCount);
  }

  ghost function PayloadPart(v: Volume, cat: Catalogue, targets: seq<nat>, m: seq<Record>, i: nat): (p: seq<byte>)
    requires Scans(v, cat) && SystemApart(v, cat) && GoodTargets(v.clusterCount, cat.objects, targets)
             && Describes(m, cat.objects, targets)
    requires i < |cat.objects|
    ensures (forall k | 0 <= k < |m| :: m[k].target < U32_LIMIT) && InHeap(v, cat.objects[i])
            && Readable(v, cat.objects[i])
    ensures Payload(m, v.clusterCount, i, ReadAll(v, cat.objects[i].clusters)) == Some(p)
    ensures Splits(p, v.clusterSize, |cat.objects[i].clusters|)
  {
    PayloadFacts(v, cat, targets, m, i);
    Payload(m, v.clusterCount, i, ReadAll(v, cat.objects[i].clusters)).value
  }

  lemma ObjectClusters(v: Volume, o: Obj)
    requires v.Valid() && InHeap(v, o)
    ensures forall i | 0 <= i < |o.clusters| :: o.clusters[i] < |v.heap| && |v.heap[o.clusters[i]]| == v.clusterSize
  {
    forall i | 0 <= i < |o.clusters| ensures o.clusters[i] < |v.heap| && |v.heap[o.clusters[i]]| == v.clusterSize {
      assert v.InHeap(o.clusters[i]);
    }
  }

  lemma PayloadFacts(v: Volume, cat: Catalogue, targets: seq<nat>, m: seq<Record>, i: nat)
    requires Scans(v, cat) && SystemApart(v, cat) && GoodTargets(v.clusterCount, cat.objects, targets)
             && Describes(m, cat.objects, targets)
    requires i < |cat.objects|
    ensures (forall k | 0 <= k < |m| :: m[k].target < U32_LIMIT) && InHeap(v, cat.objects[i])
            && Readable(v, cat.objects[i])
    ensures Payload(m, v.clusterCount, i, ReadAll(v, cat.objects[i].clusters)).Some?
    ensures Splits(Payload(m, v.clusterCount, i, ReadAll(v, cat.objects[i].clusters)).value, v.clusterSize,
            |cat.objects[i].clusters|)
  {
    hide ReadCatalogue, ExactOwnership, SystemApart, TreeRead, ReadAll, Payload, Understood, Splits;
    ScanUnderstands(v, cat);
    JobParts(v, cat, targets, m);
    PayloadExists(v, cat, targets, m, i);
    ObjectClusters(v, cat.objects[i]);
    ReadSplits(v, cat.objects[i].clusters);
    SplitsByLength(ReadAll(v, cat.objects[i].clusters),
        Payload(m, v.clusterCount, i, ReadAll(v, cat.objects[i].clusters)).value,
                   v.clusterSize, |cat.objects[i].clusters|);
  }

  lemma JobIsBuilt(g: Geometry, device: nat, orig: Image, cat: Catalogue, targets: seq<nat>, workspace: nat)
    requires Sized(g, orig) && Scans(VolumeOf(g, orig), cat) && SystemApart(VolumeOf(g, orig), cat)
    requires GoodTargets(g.clusterCount, cat.objects, targets)
    ensures Built(JobOf(g, device, orig, cat, targets, workspace), cat)
  {
    hide ReadCatalogue, ExactOwnership, SystemApart, ReadAll, Payload, FinalFat, ClusterTotal, GoodTargets;
    DescribesPopulated(cat.objects, targets, workspace, g.clusterCount);
    var v := VolumeOf(g, orig);
    var m := Populate(cat.objects, targets, workspace);
    var e := JobOf(g, device, orig, cat, targets, workspace);
    JobParts(v, cat, targets, m);
    forall i | 0 <= i < |cat.objects| ensures PayloadAt(e, cat.objects, i) {
      assert e.payloads[i] == PayloadPart(v, cat, targets, m, i);
    }
  }

  lemma DescribesPopulated(objects: seq<Obj>, targets: seq<nat>, workspace: nat, clusterCount: nat)
    requires GoodTargets(clusterCount, objects, targets)
    ensures |targets| == |objects| && Describes(Populate(objects, targets, workspace), objects, targets)
  {
    hide ClusterTotal;
  }

  /** A scan, a plan and a terminal workspace make a ready job, whatever order the sort left. */
  lemma PlannedIsReady(g: Geometry, device: nat, orig: Image, cat: Catalogue, percent: nat, order: seq<nat>, plan: Plan,
      workspace: nat)
      returns (e: Job)
    requires Sized(g, orig) && Scans(VolumeOf(g, orig), cat) && SystemApart(VolumeOf(g, orig), cat)
    requires Permutation(order, |cat.objects|)
             && Planned(g.clusterCount, cat.objects, |cat.bitmap|, percent, order, plan)
    requires TerminalRun(VolumeOf(g, orig), cat.bitmap, plan.finalCluster, ClusterTotal(cat.objects, |cat.objects|),
             workspace)
    requires Opened(g, device, orig)
    ensures Ready(e) && Built(e, cat) && e.g == g && e.orig == orig && e.device == device && e.targets == plan.targets
            && e.workspace == workspace
  {
    hide Scans, SystemApart, Planned, Permutation, Cursor, TerminalRun, JobOf, Opened, Built, BootReady, GoodTargets,
         Total, ClusterTotal;
    var v := VolumeOf(g, orig);
    BitmapLongEnough(v, cat);
    PlanGood(g.clusterCount, cat.objects, |cat.bitmap|, percent, order, plan);
    e := JobOf(g, device, orig, cat, plan.targets, workspace);
    JobIsBuilt(g, device, orig, cat, plan.targets, workspace);
    JobShape(g, device, orig, cat, plan.targets, workspace);
    BuiltIsReady(e, cat, plan.finalCluster);
  }

  lemma PlanGood(clusterCount: nat, objects: seq<Obj>, length: nat, percent: nat, order: seq<nat>, plan: Plan)
    requires Permutation(order, |objects|) && Planned(clusterCount, objects, length, percent, order, plan)
    requires clusterCount <= MAX_CLUSTERS && clusterCount <= 8 * length
    ensures GoodTargets(clusterCount, objects, plan.targets) && |plan.targets| == |objects|
    ensures EndsBelow(objects, plan.targets, plan.finalCluster)
  {
    hide Cursor, Planned, Permutation, ReserveClear, Allocated, GoodTargets;
    PlanSound(clusterCount, objects, length, percent, order, plan);
  }

  predicate EndsBelow(objects: seq<Obj>, targets: seq<nat>, finalCluster: nat) {
    |targets| == |objects| && forall i | 0 <= i < |objects| :: targets[i] + |objects[i].clusters| <= finalCluster + 1
  }

  lemma JobShape(g: Geometry, device: nat, orig: Image, cat: Catalogue, targets: seq<nat>, workspace: nat)
    requires Sized(g, orig) && Scans(VolumeOf(g, orig), cat) && SystemApart(VolumeOf(g, orig), cat)
    requires GoodTargets(g.clusterCount, cat.objects, targets)
    ensures var e := JobOf(g, device, orig, cat, targets, workspace);
            e.g == g && e.orig == orig && e.device == device && e.targets == targets && e.workspace == workspace
  {
    hide Scans, SystemApart, FinalFat, ClusterTotal;
  }

  lemma BitmapLongEnough(v: Volume, cat: Catalogue)
    requires Scans(v, cat)
    ensures v.clusterCount <= MAX_CLUSTERS && v.clusterCount <= 8 * |cat.bitmap| && |cat.objects| > 2
  {
    hide ExactOwnership, ReadAll;
    ScanUnderstands(v, cat);
  }

  /** A built job whose workspace lies free above all targets is ready. */
  lemma BuiltIsReady(e: Job, cat: Catalogue, finalCluster: nat)
    requires Built(e, cat) && Opened(e.g, e.device, e.orig)
    requires EndsBelow(cat.objects, e.targets, finalCluster)
    requires TerminalRun(VolumeOf(e.g, e.orig), cat.bitmap, finalCluster, ClusterTotal(cat.objects, |cat.objects|),
             e.workspace)
    ensures Ready(e)
  {
    hide Scans, SystemApart, Payload, FinalFat, ClusterTotal, Total, Opened, TerminalRun, ListsReady, TargetsReady,
         PayloadsReady, Understood;
    var v := VolumeOf(e.g, e.orig);
    BitmapLongEnough(v, cat);
    BuiltScan(e, cat);
    TotalsAgree(cat.objects, e.lists, |e.lists|);
    WorkspaceStarts(v, cat.bitmap, finalCluster, ClusterTotal(cat.objects, |cat.objects|), e.workspace);
    BuiltLists(e, cat, finalCluster);
    BuiltTargets(e, cat, finalCluster);
    BuiltPayloads(e, cat);
    assert |e.m| == |e.lists|;
  }

  lemma WorkspaceStarts(v: Volume, bitmap: seq<byte>, finalCluster: nat, n: nat, start: nat)
    requires v.Valid() && TerminalRun(v, bitmap, finalCluster, n, start)
    ensures start >= 2 && start + n == v.clusterCount + 2 && finalCluster < start
    ensures forall c: nat | start <= c < v.clusterCount + 2 :: !Allocated(bitmap, c)
  {
    hide Allocated;
    forall c: nat | start <= c < v.clusterCount + 2 ensures !Allocated(bitmap, c) {
      assert v.InHeap(c);
    }
  }

  /** Scanned objects own distinct, allocated clusters: none lies in the free workspace. */
  lemma BuiltLists(e: Job, cat: Catalogue, finalCluster: nat)
    requires Built(e, cat)
    requires TerminalRun(VolumeOf(e.g, e.orig), cat.bitmap, finalCluster, ClusterTotal(cat.objects, |cat.objects|),
             e.workspace)
    ensures ListsReady(e)
  {
    hide SystemApart, PayloadsOf, FinalFat, ClusterTotal, Total, ReadCatalogue, Allocated, TerminalRun, GoodTargets,
         Populate, Understood;
    var v := VolumeOf(e.g, e.orig);
    BuiltScan(e, cat);
    WorkspaceStarts(v, cat.bitmap, finalCluster, ClusterTotal(cat.objects, |cat.objects|), e.workspace);
    forall i, j | CellOf(e, i, j) ensures 2 <= e.lists[i][j] < e.workspace {
      OwnedAllocated(v, cat, i, j);
    }
    forall i, j, k, l | CellOf(e, i, j) && CellOf(e, k, l) && OwnedCell(e, i, j) == OwnedCell(e, k, l)
      ensures i == k && j == l {
      OwnedOnce(v, cat, i, j, k, l);
    }
  }

  lemma OwnedAllocated(v: Volume, cat: Catalogue, i: nat, j: nat)
    requires Scans(v, cat) && i < |cat.objects| && j < |cat.objects[i].clusters|
    ensures v.InHeap(cat.objects[i].clusters[j]) && Allocated(cat.bitmap, cat.objects[i].clusters[j])
  {
    hide Allocated, ReadCatalogue, TreeRead, ReadAll;
    ScanUnderstands(v, cat);
    assert Owns(cat.objects, i, cat.objects[i].clusters[j]);
    assert InHeap(v, cat.objects[i]);
  }

  lemma OwnedOnce(v: Volume, cat: Catalogue, i: nat, j: nat, k: nat, l: nat)
    requires Scans(v, cat) && i < |cat.objects| && j < |cat.objects[i].clusters| && k < |cat.objects|
             && l < |cat.objects[k].clusters|
    requires cat.objects[i].clusters[j] == cat.objects[k].clusters[l]
    ensures i == k && j == l
  {
    hide Allocated, ReadCatalogue;
    assert Owns(cat.objects, i, cat.objects[i].clusters[j]) && Owns(cat.objects, k, cat.objects[k].clusters[l]);
  }

  lemma BuiltTargets(e: Job, cat: Catalogue, finalCluster: nat)
    requires Built(e, cat) && EndsBelow(cat.objects, e.targets, finalCluster) && finalCluster < e.workspace
    ensures TargetsReady(e)
  {
    hide SystemApart, PayloadsOf, FinalFat, ClusterTotal, Total, ReadCatalogue, ExactOwnership, TreeRead, ReadAll;
    BuiltScan(e, cat);
  }

  lemma BuiltPayloads(e: Job, cat: Catalogue)
    requires Built(e, cat)
    ensures PayloadsReady(e)
  {
    hide ExactOwnership, ReadCatalogue, SystemApart, ReadAll, Payload, FinalFat, ClusterTotal, Total, Splits,
         GoodTargets;
    var v := VolumeOf(e.g, e.orig);
    DescribesPopulated(cat.objects, e.targets, e.workspace, e.g.clusterCount);
    JobParts(v, cat, e.targets, e.m);
    forall i | 0 <= i < |e.payloads| ensures Splits(e.payloads[i], e.g.clusterSize, |e.lists[i]|) {
      PayloadFacts(v, cat, e.targets, e.m, i);
      assert PayloadAt(e, cat.objects, i);
    }
  }
}
