/** The two commands as a whole: relayout from the first scan to the final verification, and recovery. */
module ExfatProgram {
  import opened Bytes
  import opened ExfatVolume
  import opened ExfatScan
  import opened ExfatScanner
  import opened ExfatManifest
  import opened ExfatPlan
  import opened ExfatFixpoint
  import opened ExfatRelaid
  import opened ExfatBuilder
  import opened ExfatBoot
  import opened ExfatOpen
  import opened ExfatDevice
  import opened ExfatProtocol
  import opened ExfatJob
  import opened ExfatRecovery
  import opened ExfatReplay
  import opened ExfatCourse
  import opened ExfatOutcome
  import opened ExfatEngine
  import opened ExfatRunner
  import opened Wrappers

  // ---- opening and scanning ---------------------------------------------------------------------

  /** An opened volume whose cluster count is within the limit of the format is one that can be scanned. */
  lemma OpenedIsValid(g: Geometry, device: nat, img: Image)
    requires Sized(g, img) && Opened(g, device, img) && g.clusterCount <= MAX_CLUSTERS
    ensures VolumeOf(g, img).Valid()
  {
    hide ValidCopy, MediaFailure, Dirty;
    var head := img[Head(Main)];
    RootsInside(head);
    OpenedSizes(head, device);
  }

  lemma OpenedSizes(head: seq<byte>, device: nat)
    requires |head| >= MIN_SECTOR && OpenSector(head, device, false).Ok?
    ensures var p := ParametersOf(head);
            && p.clusterSize >= 512 && p.clusterSize % 32 == 0 && p.clusterCount == U32(head, COUNT_FIELD)
            && (p.clusterCount + 2) % U32_LIMIT * 4 <= p.fatLength && RootInside(head)
  {
    hide Times, Two, MediaFailure, Dirty, U64, RootInside;
    var shift: nat := head[SECTOR_SHIFT] as int;
    var cluster: nat := head[CLUSTER_SHIFT] as int;
    SectorSizes(shift);
    TwoPositive(cluster);
    WholeSectors(Two(cluster), Two(shift));
  }

  lemma SectorSizes(shift: nat)
    requires 9 <= shift <= 12
    ensures Two(shift) >= 512 && Two(shift) % 32 == 0
  {
    assert Two(9) == 512 && Two(10) == 1024 && Two(11) == 2048 && Two(12) == 4096;
  }

  lemma WholeSectors(n: nat, size: nat)
    requires n > 0 && size >= 512 && size % 32 == 0
    ensures Times(n, size) >= 512 && Times(n, size) % 32 == 0
  {
    var q := size / 32;
    assert n * size == n * (32 * q) == 32 * (n * q);
    AtLeast(n, size);
  }

  /** Opening a clean volume. */
  method OpenClean(disk: Disk, device: nat) returns (ok: bool)
    requires disk.Valid()
    ensures Sized(disk.g, disk.now) && (ok <==> Opened(disk.g, device, disk.now))
  {
    hide Execute, ValidCopy, OpenSector, Sized;
    SizedBoot(disk.g, disk.now);
    var main, backup := CopyAt(disk.now, Main), CopyAt(disk.now, Backup);
    var found := OpenSector(main.head, device, false);
    var mainValid := RegionValid(main.head, main.mid, main.sum);
    var backupValid := RegionValid(backup.head, backup.mid, backup.sum);
    ok := found.Ok? && mainValid && backupValid && Describe(disk.g, ParametersOf(main.head));
  }

  /** A sort as the program gets it from its library: some permutation, decided by the keys. */
  ghost predicate Sorts(sort: seq<Key> -> seq<nat>) {
    forall keys :: Permutation(sort(keys), |keys|)
  }

  /** Final verification would succeed on this disk. */
  ghost predicate InPlace(g: Geometry, device: nat, img: Image, sort: seq<Key> -> seq<nat>, percent: nat)
    requires Sized(g, img)
  {
    Opened(g, device, img) && exists cat :: Verified(sort, VolumeOf(g, img), cat, percent)
  }

  lemma {:induction false} OnePlan(clusterCount: nat, objects: seq<Obj>, length: nat, percent: nat, order: seq<nat>,
      a: Plan, b: Plan)
    requires Permutation(order, |objects|)
    requires Planned(clusterCount, objects, length, percent, order, a)
             && Planned(clusterCount, objects, length, percent, order, b)
    ensures a == b
  {
    hide Cursor, Allocated;
    forall i | 0 <= i < |objects| ensures a.targets[i] == b.targets[i] && a.reserves[i] == b.reserves[i] {
      var k := PositionOf(order, |objects|, i);
      assert AssignedAt(objects, order, percent, a.targets, a.reserves, k);
      assert AssignedAt(objects, order, percent, b.targets, b.reserves, k);
    }
    BitmapsEqual(a.bitmap, b.bitmap);
  }

  /** What planning a scanned volume finds: nothing fits, or the one plan, and whether it is already in place. */
  method PlanVolume(v: Volume, cat: Catalogue, percent: nat,
      sort: seq<Key> -> seq<nat>) returns (r: Result<(Plan, bool)>)
    requires Scans(v, cat) && Sorts(sort) && percent <= MAX_PERCENT
    ensures r.Ok? ==> PlannedBy(sort, v, cat, percent, r.value.0)
    ensures r.Err? ==> forall plan :: !PlannedBy(sort, v, cat, percent, plan)
    ensures (r.Ok? && r.value.1) <==> exists cat2 :: Verified(sort, v, cat2, percent)
  {
    hide Scans, Planned, Canonical, Cursor, Allocated, Permutation;
    var order := sort(Keys(cat.objects));
    BitmapLongEnough(v, cat);
    assert Permutation(order, |Keys(cat.objects)|);
    PermutationIndices(order, |cat.objects|);
    var plan := BuildPlan(v.clusterCount, cat.objects, |cat.bitmap|, percent, order);
    if plan.Err? {
      NotPlanned(v, cat, percent, sort);
      NoPlan(v, cat, percent, sort);
      return Err(plan.reason);
    }
    PlanLengths(v, cat, percent, order, plan.value);
    var canonical := CanonicalLayout(cat.objects, cat.bitmap, plan.value);
    PlanDecides(v, cat, percent, sort, plan.value);
    r := Ok((plan.value, canonical));
  }

  lemma PlanLengths(v: Volume, cat: Catalogue, percent: nat, order: seq<nat>, plan: Plan)
    requires Permutation(order, |cat.objects|)
             && Planned(v.clusterCount, cat.objects, |cat.bitmap|, percent, order, plan)
    ensures |plan.targets| == |plan.reserves| == |cat.objects| && plan.percent == percent
  {
    hide Cursor, Allocated;
  }

  /** There is one catalogue. */
  lemma OneCatalogue(v: Volume, a: Catalogue, b: Catalogue)
    requires Scans(v, a) && Scans(v, b)
    ensures a == b
  {
    hide ReadCatalogue, ExactOwnership;
  }

  lemma NotPlanned(v: Volume, cat: Catalogue, percent: nat, sort: seq<Key> -> seq<nat>)
    requires Scans(v, cat) && Permutation(sort(Keys(cat.objects)), |cat.objects|)
    requires Cursor(cat.objects, sort(Keys(cat.objects)), percent, |sort(Keys(cat.objects))|) > v.clusterCount + 2
    ensures forall cat2 :: !Verified(sort, v, cat2, percent)
  {
    hide Scans, Cursor, Verified, Permutation;
    forall cat2 ensures !Verified(sort, v, cat2, percent) {
      if Verified(sort, v, cat2, percent) {
        VerifiedFits(v, cat, cat2, percent, sort);
      }
    }
  }

  lemma NoPlan(v: Volume, cat: Catalogue, percent: nat, sort: seq<Key> -> seq<nat>)
    requires Permutation(sort(Keys(cat.objects)), |cat.objects|)
    requires Cursor(cat.objects, sort(Keys(cat.objects)), percent, |sort(Keys(cat.objects))|) > v.clusterCount + 2
    ensures forall plan :: !PlannedBy(sort, v, cat, percent, plan)
  {
    hide Cursor, Allocated, Permutation;
  }

  lemma VerifiedFits(v: Volume, cat: Catalogue, cat2: Catalogue, percent: nat, sort: seq<Key> -> seq<nat>)
    requires Scans(v, cat) && Verified(sort, v, cat2, percent)
    ensures Permutation(sort(Keys(cat.objects)), |cat.objects|)
    ensures Cursor(cat.objects, sort(Keys(cat.objects)), percent, |sort(Keys(cat.objects))|) <= v.clusterCount + 2
  {
    hide Scans, Cursor, Canonical, Allocated, Permutation;
    OneCatalogue(v, cat, cat2);
    var plan :| PlannedInPlace(sort(Keys(cat2.objects)), v, cat2, percent, plan);
  }

  lemma PlanDecides(v: Volume, cat: Catalogue, percent: nat, sort: seq<Key> -> seq<nat>, plan: Plan)
    requires Scans(v, cat) && PlannedBy(sort, v, cat, percent, plan)
    ensures Canonical(cat.objects, cat.bitmap, plan) <==> exists cat2 :: Verified(sort, v, cat2, percent)
  {
    hide Scans, Cursor, Canonical, Allocated, Planned, Permutation;
    if Canonical(cat.objects, cat.bitmap, plan) {
      assert PlannedInPlace(sort(Keys(cat.objects)), v, cat, percent, plan);
      assert Verified(sort, v, cat, percent);
    }
    if cat2 :| Verified(sort, v, cat2, percent) {
      OneCatalogue(v, cat, cat2);
      var other :| PlannedInPlace(sort(Keys(cat2.objects)), v, cat2, percent, other);
      OnePlan(v.clusterCount, cat.objects, |cat.bitmap|, percent, sort(Keys(cat.objects)), plan, other);
    }
  }

  /** The final verification: open, scan, plan, compare. */
  method VerifyFinalLayout(disk: Disk, device: nat, percent: nat, sort: seq<Key> -> seq<nat>) returns (ok: bool)
    requires disk.Valid() && Sorts(sort) && percent <= MAX_PERCENT && disk.g.clusterCount <= MAX_CLUSTERS
    ensures Sized(disk.g, disk.now) && (ok <==> InPlace(disk.g, device, disk.now, sort, percent))
  {
    hide Execute, Scans, Verified, Sorts, Sized, GrowthSatisfied;
    DiskSized(disk);
    var opens := OpenClean(disk, device);
    if !opens {
      return false;
    }
    OpenedIsValid(disk.g, device, disk.now);
    var v := VolumeOf(disk.g, disk.now);
    var scanned := Scan(v);
    if scanned.Err? {
      VerifiedScans(v, sort, percent);
      return false;
    }
    var planned := PlanVolume(v, scanned.value.0, percent, sort);
    ok := planned.Ok? && planned.value.1;
  }

  lemma VerifiedScans(v: Volume, sort: seq<Key> -> seq<nat>, percent: nat)
    requires forall cat :: !Scans(v, cat)
    ensures forall cat :: !Verified(sort, v, cat, percent)
  {
    hide Scans;
  }

  // ---- relayout ---------------------------------------------------------------------------------

  method HasBadClusters(v: Volume) returns (bad: bool)
    requires v.Valid()
    ensures bad <==> exists c: nat | 2 <= c < v.clusterCount + 2 :: U32(v.fat, 4 * c) == BAD_CLUSTER
  {
    for c := 2 to v.clusterCount + 2
      invariant forall k: nat | 2 <= k < c :: U32(v.fat, 4 * k) != BAD_CLUSTER
    {
      if U32(v.fat, 4 * c) == BAD_CLUSTER {
        return true;
      }
    }
    return false;
  }

  /** Directories and the bitmap are placed from memory. */
  method FitsInMemory(objects: seq<Obj>, clusterSize: nat, ram: nat) returns (fits: bool)
    ensures fits <==> forall i | 0 <= i < |objects| && (objects[i].Directory() || objects[i].kind == BitmapKind) ::
                        |objects[i].clusters| * clusterSize <= ram
  {
    for i := 0 to |objects|
      invariant forall k | 0 <= k < i && (objects[k].Directory() || objects[k].kind == BitmapKind) ::
                  |objects[k].clusters| * clusterSize <= ram
    {
      if (objects[i].Directory() || objects[i].kind == BitmapKind) && |objects[i].clusters| * clusterSize > ram {
        return false;
      }
    }
    return true;
  }

  /** The FAT marks a cluster of the heap as bad. */
  ghost predicate MarkedBad(v: Volume)
    requires v.Valid()
  {
    exists c: nat :: v.InHeap(c) && v.FatGet(c) == 0xFFFF_FFF7
  }

  /** A directory or the bitmap is larger than the memory for it. */
  predicate TooLarge(objects: seq<Obj>, clusterSize: nat, ram: nat) {
    exists i | 0 <= i < |objects| ::
      objects[i].kind != FileKind && objects[i].kind != UpcaseKind && |objects[i].clusters| * clusterSize > ram
  }

  /** No clusters at the end of the heap, above all that is planned, can take all objects. */
  ghost predicate NoRoom(v: Volume, bitmap: seq<byte>, finalCluster: nat, total: nat)
    requires v.Valid()
  {
    forall start: nat :: !TerminalRun(v, bitmap, finalCluster, total, start)
  }

  /** The volume can be planned for at all: an allowed percentage, a volume that opens clean and scans, and runs and
      reserves that fit. */
  ghost predicate Plannable(g: Geometry, device: nat, img: Image, sort: seq<Key> -> seq<nat>, percent: nat,
                            cat: Catalogue, plan: Plan)
    requires Sized(g, img)
  {
    && percent <= 25 && Opened(g, device, img)
    && Scans(VolumeOf(g, img), cat) && PlannedBy(sort, VolumeOf(g, img), cat, percent, plan)
  }

  /** A relayout in place is not possible. */
  ghost predicate MustFallBack(g: Geometry, img: Image, ram: nat, cat: Catalogue, plan: Plan)
    requires Sized(g, img) && VolumeOf(g, img).Valid()
  {
    var v := VolumeOf(g, img);
    || MarkedBad(v) || TooLarge(cat.objects, v.clusterSize, ram)
    || NoRoom(v, cat.bitmap, plan.finalCluster, ClusterTotal(cat.objects, |cat.objects|))
  }

  datatype Ending = Failed | NotNeeded | Fallback | Unverified | Ended(outcome: Outcome)

  /** What a relayout has carried out: a job built from the disk's own scan and plan, in some order of placement, up to
      where it was stopped. */
  datatype Work = Work(e: Job, cat: Catalogue, plan: Plan, order: seq<nat>, stop: nat)

  ghost predicate JobOfDisk(g: Geometry, before: Image, device: nat, percent: nat, sort: seq<Key> -> seq<nat>,
      w: Work) {
    && Ready(w.e) && Built(w.e, w.cat) && w.e.g == g && w.e.device == device && w.e.orig == before && Sized(g, before)
    && PlannedBy(sort, VolumeOf(g, before), w.cat, percent, w.plan) && w.plan.targets == w.e.targets
    && Permutation(w.order, |w.e.m|) && Indexes(w.e, w.order)
  }

  ghost predicate WorkDone(w: Work, outcome: Outcome, log: seq<Op>, now: Image, journal: Option<seq<Record>>,
                           sort: seq<Key> -> seq<nat>, percent: nat)
    requires Ready(w.e) && Indexes(w.e, w.order)
  {
    if outcome == Completed then
      && log == PublishOps(w.e) + CompleteOps(w.e, w.order) + [Remove] && journal == None
      && exists cat2 :: FinalVolume(w.e, w.cat, now, cat2, sort, percent)
    else RunSteps(w.e, w.order, outcome, w.stop, log)
  }

  /** The whole relayout. It writes nothing unless a plan and a workspace exist and the layout is not already in
      place; a completed run passes its own verification, and ends with the journal removed. */
  method RelayoutInPlace(disk: Disk, device: nat, percent: nat, buffer: nat, ram: nat, sort: seq<Key> -> seq<nat>,
      place: seq<Record> -> seq<nat>) returns (ending: Ending, ghost work: Option<Work>)
    requires disk.Valid() && disk.log == [] && disk.start == Settled(disk.now, None) && buffer > 0
    requires Sorts(sort) && (forall m :: Permutation(place(m), |m|))
    requires disk.g.clusterCount <= MAX_CLUSTERS && Sized(disk.g, disk.now)
    requires forall c | Scans(VolumeOf(disk.g, disk.now), c) :: SystemApart(VolumeOf(disk.g, disk.now), c)
    modifies disk
    ensures disk.Valid() && ending != Unverified
    ensures ending == Failed <==>
              forall cat, plan :: !Plannable(disk.g, device, old(disk.now), sort, percent, cat, plan)
    ensures ending == NotNeeded <==> percent <= 25 && InPlace(disk.g, device, old(disk.now), sort, percent)
    ensures forall cat, plan | Plannable(disk.g, device, old(disk.now), sort, percent, cat, plan) ::
              && VolumeOf(disk.g, old(disk.now)).Valid()
              && (ending == Fallback <==>
                   && !InPlace(disk.g, device, old(disk.now), sort, percent)
                   && MustFallBack(disk.g, old(disk.now), ram, cat, plan))
    ensures !ending.Ended? ==> disk.now == old(disk.now) && disk.log == []
    ensures ending.Ended? ==>
              && work.Some? && JobOfDisk(disk.g, old(disk.now), device, percent, sort, work.value)
              && WorkDone(work.value, ending.outcome, disk.log, disk.now, disk.journal, sort, percent)
  {
    hide Execute, Scans, Verified, Sorts, Sized, GrowthSatisfied, Ready, Built, Planned, Permutation, SystemApart,
         Opened, TerminalRun, Populate, RunSteps, Indexes, FinalVolume, InPlace, PublishOps, CompleteOps, Plannable,
         MustFallBack, PlannedBy;
    ghost var before := disk.now;
    work := None;
    if percent > MAX_PERCENT {
      NotPlannable(disk.g, device, before, sort, percent);
      return Failed, work;
    }
    var opens := OpenClean(disk, device);
    if !opens {
      NotInPlace(disk.g, device, before, sort, percent);
      NotPlannable(disk.g, device, before, sort, percent);
      return Failed, work;
    }
    OpenedIsValid(disk.g, device, before);
    var v := VolumeOf(disk.g, disk.now);
    var scanned := Scan(v);
    if scanned.Err? {
      VerifiedScans(v, sort, percent);
      NotVerified(disk.g, device, before, sort, percent);
      NotPlannable(disk.g, device, before, sort, percent);
      return Failed, work;
    }
    var cat := scanned.value.0;
    var planned := PlanVolume(v, cat, percent, sort);
    PlaceVerified(disk.g, device, before, sort, percent);
    if planned.Err? {
      UnplannedScan(disk.g, device, before, sort, percent, cat);
      return Failed, work;
    }
    OnePlannable(disk.g, device, before, sort, percent, cat, planned.value.0);
    if planned.value.1 {
      return NotNeeded, work;
    }
    var bad := HasBadClusters(v);
    var fits := FitsInMemory(cat.objects, v.clusterSize, ram);
    var plan := planned.value.0;
    PlannedParts(sort, v, cat, percent, plan);
    PlanLengths(v, cat, percent, sort(Keys(cat.objects)), plan);
    var workspace := TerminalWorkspace(v, cat.bitmap, plan.finalCluster, ClusterTotal(cat.objects, |cat.objects|));
    FallsBack(disk.g, before, ram, cat, plan, bad, fits, workspace);
    if bad || !fits || workspace.None? {
      return Fallback, work;
    }
    ghost var e := PlannedIsReady(disk.g, device, before, cat, percent, sort(Keys(cat.objects)), plan, workspace.value);
    BuiltManifest(e, cat);
    var m := PopulateManifest(cat.objects, plan.targets, workspace.value);
    var order := place(m);
    PlacingIndexes(e, m, order);
    var outcome, stop := Relayout(disk, e, cat, cat.objects, m, order, buffer);
    ghost var w := Work(e, cat, plan, order, stop);
    work := Some(w);
    if outcome != Completed {
      return Ended(outcome), work;
    }
    ghost var cat2 := CompletedIsVerified(disk, e, cat, order, stop, sort, percent, plan);
    var verified := VerifyFinalLayout(disk, device, percent, sort);
    if !verified {
      return Unverified, work;
    }
    CompletedLog(e, order, stop, disk.log);
    disk.RemoveManifest();
    ending := Ended(Completed);
  }

  lemma NotPlannable(g: Geometry, device: nat, img: Image, sort: seq<Key> -> seq<nat>, percent: nat)
    requires Sized(g, img)
    requires percent > 25 || !Opened(g, device, img) || forall cat :: !Scans(VolumeOf(g, img), cat)
    ensures forall cat, plan :: !Plannable(g, device, img, sort, percent, cat, plan)
  {
    hide Scans, Opened, PlannedBy;
  }

  lemma UnplannedScan(g: Geometry, device: nat, img: Image, sort: seq<Key> -> seq<nat>, percent: nat, cat: Catalogue)
    requires Sized(g, img) && Scans(VolumeOf(g, img), cat)
    requires forall plan :: !PlannedBy(sort, VolumeOf(g, img), cat, percent, plan)
    ensures forall other, plan :: !Plannable(g, device, img, sort, percent, other, plan)
  {
    hide Scans, Opened, PlannedBy;
    forall other, plan ensures !Plannable(g, device, img, sort, percent, other, plan) {
      if Plannable(g, device, img, sort, percent, other, plan) {
        OneCatalogue(VolumeOf(g, img), cat, other);
      }
    }
  }

  /** There is one catalogue and one plan. */
  lemma OnePlannable(g: Geometry, device: nat, img: Image, sort: seq<Key> -> seq<nat>, percent: nat, cat: Catalogue,
      plan: Plan)
    requires Sized(g, img) && percent <= 25 && Opened(g, device, img)
    requires Scans(VolumeOf(g, img), cat) && PlannedBy(sort, VolumeOf(g, img), cat, percent, plan)
    ensures Plannable(g, device, img, sort, percent, cat, plan)
    ensures forall a, b | Plannable(g, device, img, sort, percent, a, b) :: a == cat && b == plan
  {
    hide Scans, Opened, PlannedBy;
    var v := VolumeOf(g, img);
    forall a, b | Plannable(g, device, img, sort, percent, a, b) ensures a == cat && b == plan {
      OneCatalogue(v, cat, a);
      SamePlan(sort, v, cat, percent, plan, b);
    }
  }

  lemma SamePlan(sort: seq<Key> -> seq<nat>, v: Volume, cat: Catalogue, percent: nat, a: Plan, b: Plan)
    requires PlannedBy(sort, v, cat, percent, a) && PlannedBy(sort, v, cat, percent, b)
    ensures a == b
  {
    hide Cursor, Allocated, Planned, Permutation;
    OnePlan(v.clusterCount, cat.objects, |cat.bitmap|, percent, sort(Keys(cat.objects)), a, b);
  }

  lemma FallsBack(g: Geometry, img: Image, ram: nat, cat: Catalogue, plan: Plan, bad: bool, fits: bool,
      workspace: Option<nat>)
    requires Sized(g, img) && VolumeOf(g, img).Valid()
    requires var v := VolumeOf(g, img);
             && (bad <==> exists c: nat | 2 <= c < v.clusterCount + 2 :: U32(v.fat, 4 * c) == BAD_CLUSTER)
             && (fits <==> forall i | 0 <= i < |cat.objects|
                             && (cat.objects[i].Directory() || cat.objects[i].kind == BitmapKind) ::
                  |cat.objects[i].clusters| * v.clusterSize <= ram)
             && (workspace.None? <==>
                  NoRoom(v, cat.bitmap, plan.finalCluster, ClusterTotal(cat.objects, |cat.objects|)))
    ensures MustFallBack(g, img, ram, cat, plan) <==> bad || !fits || workspace.None?
  {
    hide ClusterTotal, Unusable;
    var v := VolumeOf(g, img);
    assert MarkedBad(v) <==> bad by { BadIsMarked(v); }
    assert TooLarge(cat.objects, v.clusterSize, ram) <==> !fits by { LargeIsTooLarge(cat.objects, v.clusterSize, ram); }
  }

  lemma LargeIsTooLarge(objects: seq<Obj>, clusterSize: nat, ram: nat)
    ensures !TooLarge(objects, clusterSize, ram) <==>
              forall i | 0 <= i < |objects| && (objects[i].Directory() || objects[i].kind == BitmapKind) ::
                |objects[i].clusters| * clusterSize <= ram
  {
  }

  lemma BadIsMarked(v: Volume)
    requires v.Valid()
    ensures MarkedBad(v) <==> exists c: nat | 2 <= c < v.clusterCount + 2 :: U32(v.fat, 4 * c) == BAD_CLUSTER
  {
    if c: nat :| 2 <= c < v.clusterCount + 2 && U32(v.fat, 4 * c) == BAD_CLUSTER {
      assert v.InHeap(c) && v.FatGet(c) == 0xFFFF_FFF7;
    }
    if c: nat :| v.InHeap(c) && v.FatGet(c) == 0xFFFF_FFF7 {
      assert U32(v.fat, 4 * c) == BAD_CLUSTER;
    }
  }

  lemma CompletedLog(e: Job, order: seq<nat>, stop: nat, log: seq<Op>)
    requires Ready(e) && Indexes(e, order) && RunSteps(e, order, Completed, stop, log)
    ensures log == PublishOps(e) + CompleteOps(e, order)
  {
  }

  lemma DiskSized(disk: Disk)
    requires disk.Valid()
    ensures Sized(disk.g, disk.now)
  {
  }

  lemma NotInPlace(g: Geometry, device: nat, img: Image, sort: seq<Key> -> seq<nat>, percent: nat)
    requires Sized(g, img) && !Opened(g, device, img)
    ensures !InPlace(g, device, img, sort, percent)
  {
    hide Verified;
  }

  lemma NotVerified(g: Geometry, device: nat, img: Image, sort: seq<Key> -> seq<nat>, percent: nat)
    requires Sized(g, img) && forall cat :: !Verified(sort, VolumeOf(g, img), cat, percent)
    ensures !InPlace(g, device, img, sort, percent)
  {
    hide Verified, Opened;
  }

  lemma PlaceVerified(g: Geometry, device: nat, img: Image, sort: seq<Key> -> seq<nat>, percent: nat)
    requires Sized(g, img) && Opened(g, device, img)
    ensures InPlace(g, device, img, sort, percent) <==> exists cat :: Verified(sort, VolumeOf(g, img), cat, percent)
  {
    hide Verified, Opened;
  }

  lemma BuiltManifest(e: Job, cat: Catalogue)
    requires Built(e, cat)
    ensures |e.targets| == |cat.objects| && e.m == Populate(cat.objects, e.targets, e.workspace)
  {
    hide Scans, SystemApart, Populate, PayloadsOf, ListsOf;
  }

  lemma PlacingIndexes(e: Job, m: seq<Record>, order: seq<nat>)
    requires m == e.m && Permutation(order, |m|)
    ensures Permutation(order, |e.m|) && Indexes(e, order)
  {
  }

  /** A run that has completed ends in a volume its verification accepts. */
  lemma CompletedIsVerified(disk: Disk, e: Job, cat: Catalogue, order: seq<nat>, stop: nat, sort: seq<Key> -> seq<nat>,
                            percent: nat, plan: Plan) returns (cat2: Catalogue)
    requires disk.Valid() && Ready(e) && Built(e, cat) && disk.g == e.g && Permutation(order, |e.m|)
             && Indexes(e, order)
    requires disk.start == Settled(e.orig, None) && RunSteps(e, order, Completed, stop, disk.log)
    requires Sized(e.g, e.orig) && PlannedBy(sort, VolumeOf(e.g, e.orig), cat, percent, plan)
             && plan.targets == e.targets
    ensures FinalVolume(e, cat, disk.now, cat2, sort, percent)
    ensures Sized(disk.g, disk.now) && InPlace(disk.g, e.device, disk.now, sort, percent)
  {
    hide Execute, Verified, Sized, GrowthSatisfied, Ready, Built, Planned, Permutation, Opened, Indexes, FinalVolume,
         InPlace, PublishOps, CompleteOps, PlannedBy, Finished, StagedImage, RecoverableImage, Always;
    var staged := Published(e);
    RunConcat(Settled(e.orig, None), PublishOps(e), CompleteOps(e, order));
    var final := CompleteRun(e, staged, order);
    cat2 := FinishedIsVerified(e, cat, final, sort, percent, plan);
    FinishedInPlace(e, cat, final, cat2, sort, percent);
  }

  lemma FinishedInPlace(e: Job, cat: Catalogue, final: Image, cat2: Catalogue, sort: seq<Key> -> seq<nat>, percent: nat)
    requires Ready(e) && Finished(e, final) && FinalVolume(e, cat, final, cat2, sort, percent)
    ensures Sized(e.g, final) && InPlace(e.g, e.device, final, sort, percent)
  {
    hide Ready, Verified, Finished, SameBytes, GrowthSatisfied;
    FinishedSized(e, final);
    FinishedOpens(e, final);
  }

  /** A finished disk opens as a clean volume. */
  lemma FinishedOpens(e: Job, final: Image)
    requires Ready(e) && Finished(e, final)
    ensures Sized(e.g, final) && Opened(e.g, e.device, final)
  {
    hide Ready, OpenSector, Fits, Dirty, Finished, RootKnown, CopyOk, Describe, ParametersOf;
    FinishedSized(e, final);
    ReadySizes(e);
    FinishedMain(e, final);
    FinishedHead(e, final[Head(Main)]);
    DescribedStart(e);
  }

  lemma FinishedMain(e: Job, final: Image)
    requires Ready(e) && Finished(e, final)
    ensures CopyOk(final, Main) && CopyOk(final, Backup) && Fits(e, final[Head(Main)])
            && RootKnown(e, final[Head(Main)])
    ensures !Dirty(final[Head(Main)]) && final[Head(Main)][3..11] == SIGNATURE
  {
    hide Ready, HeadSum, Filled, CanonicalPiece, Percent, Fits, Dirty, Sized;
    assert NewHeadAt(e, final, Main) && CopyOk(final, Main) && CopyOk(final, Backup);
  }

  lemma DescribedStart(e: Job)
    requires Ready(e)
    ensures Sized(e.g, e.orig) && Describe(e.g, ParametersOf(e.orig[Head(Main)]))
  {
    hide OpenSector, ValidCopy;
    ReadyTargets(e);
  }

  lemma FinishedHead(e: Job, head: seq<byte>)
    requires Ready(e) && Sized(e.g, e.orig) && Fits(e, head) && RootKnown(e, head) && !Dirty(head)
             && head[3..11] == SIGNATURE
    ensures OpenSector(head, e.device, false) == Ok(ParametersOf(e.orig[Head(Main)]))
    ensures ParametersOf(head) == ParametersOf(e.orig[Head(Main)])
  {
    hide Ready, OpenSector, ParametersOf, SameVolume, MediaFailure;
    SameParameters(e.orig[Head(Main)], head);
    OpenedMain(e);
    OpensAlike(e.orig[Head(Main)], head, e.device, false);
    RootInHeap(e, head);
    CleanOpensAlike(head, e.device);
  }

  /** A clean volume opens whether dirty ones may be opened or not. */
  lemma CleanOpensAlike(head: seq<byte>, device: nat)
    requires |head| >= MIN_SECTOR && !Dirty(head)
    ensures OpenSector(head, device, false) == OpenSector(head, device, true)
  {
    hide ParametersOf, MediaFailure, RootInside, Bounded;
  }

  // ---- recovery ---------------------------------------------------------------------------------

  /** The whole recovery. On whatever crashes have left it fails exactly when the repaired volume does not open as the
      journaled one; otherwise it passes its own verification, and ends with the journal removed. */
  method RecoverInPlace(disk: Disk, ghost e: Job, ghost cat: Catalogue, ghost plan: Plan, device: nat,
      params: Parameters, m: seq<Record>, percent: nat, buffer: nat, sort: seq<Key> -> seq<nat>,
      place: seq<Record> -> seq<nat>) returns (ok: bool, ghost order: seq<nat>)
    requires disk.Valid() && disk.log == [] && disk.start == Settled(disk.now, Some(e.m)) && buffer > 0
    requires Ready(e) && Built(e, cat) && disk.g == e.g && m == e.m && device == e.device && Journaled(e, params)
    requires Sized(e.g, e.orig) && PlannedBy(sort, VolumeOf(e.g, e.orig), cat, percent, plan)
             && plan.targets == e.targets
    requires Sorts(sort) && (forall m :: Permutation(place(m), |m|)) && percent <= MAX_PERCENT
    requires disk.g.clusterCount <= MAX_CLUSTERS && RecoverableImage(e, disk.now)
    modifies disk
    ensures disk.Valid() && Sized(e.g, old(disk.now)) && Permutation(order, |e.m|) && Indexes(e, order)
    ensures ok <==> Opens(e, Repaired(e.g, old(disk.now)))
    ensures !ok ==> disk.log == RecoverOps(e, old(disk.now), order)
    ensures ok ==> disk.log == RecoverOps(e, old(disk.now), order) + [Remove] && disk.journal == None
                   && exists cat2 :: FinalVolume(e, cat, disk.now, cat2, sort, percent)
  {
    hide Execute, Verified, Sorts, GrowthSatisfied, Ready, Built, Planned, Permutation, Opened, Indexes, FinalVolume,
         InPlace, PlannedBy, Finished, RecoverableImage, Opens, Repaired, RecoverOps, Sized, Journaled;
    var placing := place(m);
    order := placing;
    PlacingIndexes(e, m, placing);
    ok := Recover(disk, e, cat, device, params, m, placing, buffer);
    if !ok {
      return;
    }
    ghost var cat2 := FinishedIsVerified(e, cat, disk.now, sort, percent, plan);
    FinishedInPlace(e, cat, disk.now, cat2, sort, percent);
    ok := VerifyFinalLayout(disk, device, percent, sort);
    disk.RemoveManifest();
  }
}
