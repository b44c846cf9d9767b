/** Recovery from any recoverable image: repair, replay and commit stay recoverable at every step and end canonical. */
module ExfatReplay {
  import opened Bytes
  import opened ExfatPlan
  import opened ExfatBoot
  import opened ExfatOpen
  import opened ExfatDevice
  import opened ExfatProtocol
  import opened ExfatRecovery
  import opened Wrappers

  predicate Indexes(e: Job, order: seq<nat>) {
    forall k | 0 <= k < |order| :: order[k] < |e.m|
  }

  /** Placing every record in some order, then waiting for it. */
  function ReplayOps(e: Job, order: seq<nat>): seq<Op>
    requires Ready(e) && Indexes(e, order)
  {
    PlaceOps(e, order, |order|) + [Sync]
  }

  /** A recovery up to the removal of the journal: once the boot copies are repaired the volume is opened, and refused
      if it does not open as the journaled one. */
  function RecoverOps(e: Job, img: Image, order: seq<nat>): seq<Op>
    requires Ready(e) && Indexes(e, order) && Sized(e.g, img)
  {
    RepairedSized(e.g, img);
    if Opens(e, Repaired(e.g, img)) then
      RepairOps(e.g, img) + ReplayOps(e, order) + CommitOps(e, Repaired(e.g, img))
    else RepairOps(e.g, img)
  }

  lemma RepairedSized(g: Geometry, img: Image)
    requires Sized(g, img)
    ensures Sized(g, Repaired(g, img))
  {
    hide ValidCopy, CopyOk;
  }

  /** Everything a finished relayout has put on the disk. */
  ghost predicate Finished(e: Job, img: Image)
    requires Ready(e)
  {
    && Sized(e.g, img) && ReadyTargetsHold(e)
    && (forall i, j | CellOf(e, i, j) ::
         TargetCell(e, i, j) in img && img[TargetCell(e, i, j)] == CanonicalPiece(e, i, j))
    && img[Fat] == e.fat
    && (forall side :: CopyOk(img, side) && NewHeadAt(e, img, side)) && Fits(e, img[Head(Main)])
  }

  ghost predicate ReadyTargetsHold(e: Job) {
    |e.m| == |e.lists| == |e.targets| > 2
  }

  /** A boot copy points to the new root, reports the canonical use and is clean. */
  predicate NewHeadAt(e: Job, img: Image, side: Side)
    requires |e.targets| > 2
  {
    && Head(side) in img && |img[Head(side)]| >= MIN_SECTOR
    && RootOf(img[Head(side)]) == e.targets[2] && img[Head(side)][PERCENT_FIELD] == Percent(e)
       && !Dirty(img[Head(side)])
  }

  // ---- opening ----------------------------------------------------------------------------------

  /** A repaired image opens exactly when its main copy describes the journaled volume and reports no media failure. */
  lemma OpensExactly(e: Job, img: Image)
    requires Ready(e) && RecoverableImage(e, img) && CopyOk(img, Main) && CopyOk(img, Backup)
    ensures Opens(e, img) <==> Fits(e, img[Head(Main)])
  {
    hide Ready, ValidCopy, OpenSector, ParametersOf, SameVolume, MediaFailure, BackupFits, Steady, NewRoot;
    ReadySizes(e);
    KeepsSize(e, Head(Main), img[Head(Main)]);
    OpenedMain(e);
    OpensAlike(e.orig[Head(Main)], img[Head(Main)], e.device, false);
    RootInHeap(e, img[Head(Main)]);
  }

  lemma RootInHeap(e: Job, head: seq<byte>)
    requires Ready(e) && |head| >= MIN_SECTOR && RootKnown(e, head) && Sized(e.g, e.orig)
    ensures 2 <= RootOf(head) < U32(e.orig[Head(Main)], COUNT_FIELD) + 2
  {
    hide Ready, MediaFailure, Dirty, Bounded;
    OpenedMain(e);
    ReadyTargets(e);
    CountIs(e);
    RootsInside(e.orig[Head(Main)]);
    assert |e.lists[2]| > 0;
  }

  lemma CountIs(e: Job)
    requires Ready(e)
    ensures Sized(e.g, e.orig) && U32(e.orig[Head(Main)], COUNT_FIELD) == e.g.clusterCount
  {
    hide OpenSector, Two, Times;
    ReadyTargets(e);
  }

  // ---- repair -----------------------------------------------------------------------------------

  /** Survivor repair always yields two valid copies, and every crash during it can be repaired again. */
  lemma RepairAlways(e: Job, img: Image)
    requires Ready(e) && RecoverableImage(e, img)
    ensures Always(e, Settled(img, Some(e.m)), RepairOps(e.g, img))
    ensures Execute(Settled(img, Some(e.m)), RepairOps(e.g, img)) == Settled(Repaired(e.g, img), Some(e.m))
    ensures RecoverableImage(e, Repaired(e.g, img))
    ensures CopyOk(Repaired(e.g, img), Main) && CopyOk(Repaired(e.g, img), Backup)
  {
    hide Ready, Keeps, ValidCopy, Sure, Kept, Execute, NewRoot, UpdateOps;
    var d := Settled(img, Some(e.m));
    SettledRecoverable(e, img);
    SidesPresent(e, img);
    if CopyOk(img, Main) && CopyOk(img, Backup) {
      NoSteps(e, d);
    } else if CopyOk(img, Main) {
      RepairOne(e, img, Backup);
    } else {
      RepairOne(e, img, Main);
    }
  }

  lemma SidesPresent(e: Job, img: Image)
    requires Sized(e.g, img)
    ensures Head(Main) in img && Mid(Main) in img && Sum(Main) in img
    ensures Head(Backup) in img && Mid(Backup) in img && Sum(Backup) in img
  {
  }

  lemma NoSteps(e: Job, d: Device)
    requires Ready(e) && Recoverable(e, d)
    ensures Always(e, d, []) && Execute(d, []) == d
  {
    hide Ready, Recoverable;
    var none: seq<Op> := [];
    assert none[..0] == none;
  }

  lemma RepairOne(e: Job, img: Image, side: Side)
    requires Ready(e) && RecoverableImage(e, img) && !CopyOk(img, side)
    ensures Head(Other(side)) in img && Mid(Other(side)) in img && Sum(Other(side)) in img
    ensures var c := CopyAt(img, Other(side));
            var fixed := WithCopy(img, side, c);
            var ops := UpdateOps(side, c);
            && Always(e, Settled(img, Some(e.m)), ops)
            && Execute(Settled(img, Some(e.m)), ops) == Settled(fixed, Some(e.m))
            && RecoverableImage(e, fixed) && CopyOk(fixed, Main) && CopyOk(fixed, Backup)
  {
    hide Ready, Keeps, ValidCopy, Sure, Kept, Execute, NewRoot, UpdateOps, Recoverable;
    SettledRecoverable(e, img);
    SidesPresent(e, img);
    assert side == Main || side == Backup;
    var c := CopyAt(img, Other(side));
    Survivor(e, img, side);
    UpdateAlways(e, Settled(img, Some(e.m)), side, c);
    var fixed := WithCopy(img, side, c);
    SyncedSurvives(fixed, Some(e.m), fixed);
    CrashRecoverable(e, Settled(fixed, Some(e.m)), fixed);
    WithCopyReads(img, side, c);
  }

  lemma WithCopyReads(img: Image, side: Side, c: Copy)
    requires Head(Other(side)) in img && Mid(Other(side)) in img && Sum(Other(side)) in img
    ensures CopyOk(WithCopy(img, side, c), side) <==> ValidCopy(c.head, c.mid, c.sum)
    ensures CopyOk(WithCopy(img, side, c), Other(side)) <==> CopyOk(img, Other(side))
  {
    hide ValidCopy;
    assert side == Main || side == Backup;
  }

  /** What is left of two copies can be recovered from, and may replace the other copy: the backup replaces the main
      copy only when it has the new root, and never a steady one. */
  lemma Survivor(e: Job, img: Image, side: Side)
    requires Ready(e) && RecoverableImage(e, img) && !CopyOk(img, side)
    requires Head(Other(side)) in img && Mid(Other(side)) in img && Sum(Other(side)) in img
    ensures CopyOk(img, Other(side)) && Held(e, Settled(img, Some(e.m)), Other(side))
    ensures CopyKept(e, side, CopyAt(img, Other(side)))
  {
    hide Ready, ValidCopy, Sure, Kept, Fits, Steady, BackupFits;
    ReadySizes(e);
    SettledRecoverable(e, img);
    var d := Settled(img, Some(e.m));
    if side == Main {
      if Steady(e) { SteadySure(e, d); }
      assert NewRoots(e, d);
      var c := CopyAt(img, Backup);
      KeepsSize(e, Head(Backup), c.head);
      KeepsSize(e, Mid(Backup), c.mid);
      KeepsSize(e, Sum(Backup), c.sum);
    } else {
      var c := CopyAt(img, Main);
      KeepsSize(e, Head(Main), c.head);
      KeepsSize(e, Mid(Main), c.mid);
      KeepsSize(e, Sum(Main), c.sum);
    }
  }

  // ---- replay -----------------------------------------------------------------------------------

  /** Replaying the placement keeps the device recoverable and puts every canonical piece in its target. */
  lemma ReplayAlways(e: Job, d: Device, order: seq<nat>)
    requires Ready(e) && Permutation(order, |e.m|) && Indexes(e, order)
    requires Recoverable(e, d) && Sure(d, Main) && Sure(d, Backup)
    ensures Always(e, d, ReplayOps(e, order))
    ensures var r := Execute(d, ReplayOps(e, order));
            && Recoverable(e, r) && Sure(r, Main) && Sure(r, Backup)
            && r == Settled(r.now, Some(e.m)) && PlacedAll(e, r.now) && SameBoot(d.now, r.now)
  {
    hide Ready, Keeps, ValidCopy, Sure, Kept, Execute, PlaceOps, Permutation, Always, PlacedAll;
    var ops := PlaceOps(e, order, |order|);
    PlaceKept(e, order, |order|);
    AlwaysData(e, d, ops);
    AlwaysEnd(e, d, ops);
    var mid := Execute(d, ops);
    SyncStep(e, mid);
    AlwaysConcat(e, d, ops, [Sync]);
    AllPlaced(e, d, order);
    BootUntouched(e, d, ops);
  }

  lemma SyncStep(e: Job, d: Device)
    requires Ready(e) && Recoverable(e, d)
    ensures Always(e, d, [Sync]) && Execute(d, [Sync]) == Settled(d.now, d.journal)
            && Recoverable(e, Execute(d, [Sync]))
    ensures forall side | Sure(d, side) :: Sure(Execute(d, [Sync]), side)
  {
    hide Ready, Keeps, Sure, Kept, NewRoots;
    RunOne(d, Sync);
    if Held(e, d, Main) { OneSync(e, d, Main); } else { OneSync(e, d, Backup); }
    JournalOf(e, d);
    forall side | Sure(d, side) ensures Sure(Execute(d, [Sync]), side) {
      SureSettled(d, side);
    }
    NoSteps(e, d);
    forall k | 0 <= k <= 1 ensures Recoverable(e, Execute(d, [Sync][..k])) {
      assert [Sync][..k] == if k == 0 then [] else [Sync];
    }
  }

  /** Every target cell holds its canonical piece. */
  ghost predicate PlacedAll(e: Job, img: Image)
    requires Ready(e)
  {
    ReadyTargetsHold(e)
    && forall i, j | CellOf(e, i, j) ::
         TargetCell(e, i, j) in img && img[TargetCell(e, i, j)] == CanonicalPiece(e, i, j)
  }

  ghost predicate SameBoot(a: Image, b: Image) {
    forall p: Place | Boot(p) :: p in a && p in b && a[p] == b[p]
  }

  lemma BootUntouched(e: Job, d: Device, ops: seq<Op>)
    requires Ready(e) && Kept(e, d) && DataOnly(ops)
    ensures SameBoot(d.now, Execute(d, ops).now)
  {
    hide Ready, Keeps;
    forall p: Place | Boot(p) ensures p in d.now && p in Execute(d, ops).now && d.now[p] == Execute(d, ops).now[p] {
      DataKeepsBoot(e, d, ops, p);
    }
  }

  lemma AllPlaced(e: Job, d: Device, order: seq<nat>)
    requires Ready(e) && Permutation(order, |e.m|) && Indexes(e, order) && Kept(e, d)
    ensures PlacedAll(e, Execute(d, PlaceOps(e, order, |order|)).now)
  {
    hide Ready, Keeps, Execute, PlaceOps, Permutation, CanonicalPiece;
    ReadyTargets(e);
    var ops := PlaceOps(e, order, |order|);
    forall i, j | CellOf(e, i, j)
      ensures TargetCell(e, i, j) in Execute(d, ops).now
              && Execute(d, ops).now[TargetCell(e, i, j)] == CanonicalPiece(e, i, j)
    {
      OnePlaced(e, d, order, i, j);
    }
  }

  lemma OnePlaced(e: Job, d: Device, order: seq<nat>, i: nat, j: nat)
    requires Ready(e) && Permutation(order, |e.m|) && Indexes(e, order) && Kept(e, d) && CellOf(e, i, j)
    requires ReadyTargetsHold(e)
    ensures TargetCell(e, i, j) in Execute(d, PlaceOps(e, order, |order|)).now
    ensures Execute(d, PlaceOps(e, order, |order|)).now[TargetCell(e, i, j)] == CanonicalPiece(e, i, j)
  {
    hide Ready, Keeps, Execute, PlaceOps, CanonicalPiece, Permutation;
    ReadyTargets(e);
    var ops := PlaceOps(e, order, |order|);
    var p := TargetCell(e, i, j);
    TargetInside(e, i, j);
    var k := PositionOf(order, |e.m|, i);
    PlaceCovers(e, order, |order|, k, j);
    forall y | Writes(ops, p, y) ensures y == CanonicalPiece(e, i, j) {
      var k2, j2 := PlaceWrites(e, order, |order|, p, y);
      TargetInjective(e, i, j, order[k2], j2);
    }
    WrittenReads(d, ops, p, CanonicalPiece(e, i, j));
  }

  // ---- commit -----------------------------------------------------------------------------------

  lemma KinTrans(a: seq<byte>, b: seq<byte>, c: seq<byte>)
    requires Kin(a, b) && Kin(b, c)
    ensures Kin(a, c)
  {
  }

  /** The boot copy the commit writes is valid, and is one recovery can meet. */
  lemma NewCopyKept(e: Job, side: Side, c: Copy)
    requires Ready(e) && CopyKept(e, side, c)
    ensures |c.head| >= MIN_SECTOR
    ensures var n := NewCopy(e, c);
            && CopyKept(e, side, n) && ValidCopy(n.head, n.mid, n.sum)
            && NewRoot(e, n.head) && n.head[PERCENT_FIELD] == Percent(e) && !Dirty(n.head)
  {
    hide Ready, BootHead, HeadSum, SumSector, Dirty, Kin, Fits, Steady, BackupFits, Filled, StagedRight;
    ReadySizes(e);
    ReadyTargets(e);
    KeepsSize(e, Head(side), c.head);
    var n := NewCopy(e, c);
    BootHeadFields(c.head, e.targets[2], false, Percent(e));
    KinSignature(c.head, n.head);
    BootStateValid(c.head, c.mid, e.targets[2], false, Percent(e), e.g.sectorSize);
    if Fits(e, c.head) {
      NewHeadFits(e, c.head);
    }
    NewCopySizes(e, side, c);
    if Steady(e) && side == Main {
      NewCopySteady(e, c);
    }
  }

  lemma NewCopyParts(e: Job, c: Copy)
    requires Ready(e) && |c.head| >= MIN_SECTOR
    ensures NewCopy(e, c).head == NewHead(e, c.head) && NewCopy(e, c).mid == c.mid
  {
  }

  lemma NewCopySizes(e: Job, side: Side, c: Copy)
    requires Ready(e) && CopyKept(e, side, c) && |c.head| >= MIN_SECTOR
    ensures var n := NewCopy(e, c);
            |n.head| == SizeOf(e.g, Head(side)) && |n.mid| == SizeOf(e.g, Mid(side))
                && |n.sum| == SizeOf(e.g, Sum(side))
  {
    hide Ready, HeadKept, RootKnown, Steady, StagedRight;
  }

  lemma NewHeadFits(e: Job, head: seq<byte>)
    requires Ready(e) && Fits(e, head)
    ensures Fits(e, NewHead(e, head))
  {
    hide Ready, BootHead, SameVolume, MediaFailure, Kin;
    ReadySizes(e);
    ReadyTargets(e);
    BootHeadFields(head, e.targets[2], false, Percent(e));
    BootHeadMedia(head, e.targets[2], false, Percent(e));
    KinSameVolume(head, NewHead(e, head));
    SameVolumeTrans(e.orig[Head(Main)], head, NewHead(e, head));
  }

  lemma NewCopySteady(e: Job, c: Copy)
    requires Ready(e) && CopyKept(e, Main, c) && Steady(e) && |c.head| >= MIN_SECTOR
    ensures var n := NewCopy(e, c);
            SteadyAt(e, Head(Main), n.head) && SteadyAt(e, Mid(Main), n.mid) && SteadyAt(e, Sum(Main), n.sum)
  {
    hide Ready, BootHead, HeadSum, SumSector, Kin, Fits, Steady, Filled;
    ReadySizes(e);
    ReadyTargets(e);
    KeepsSize(e, Head(Main), c.head);
    KeepsSize(e, Mid(Main), c.mid);
    var n := NewCopy(e, c);
    BootHeadFields(c.head, e.targets[2], false, Percent(e));
    KinTrans(e.orig[Head(Main)], c.head, n.head);
    NewHeadFits(e, c.head);
    SteadySum(e, n.head);
    SumSectorFilled(e.g.sectorSize, HeadSum(n.head, n.mid));
  }

  lemma FatKept(e: Job)
    requires Ready(e)
    ensures Fat in Places(e.g) && Keeps(e, Fat, e.fat)
  {
    hide Ready;
    ReadyTargets(e);
    ReadySizes(e);
  }

  /** The boot copies of an image are ones recovery can meet. */
  ghost predicate CopiesKept(e: Job, boots: Image)
    requires Ready(e)
  {
    Sized(e.g, boots) && CopyKept(e, Main, CopyAt(boots, Main)) && CopyKept(e, Backup, CopyAt(boots, Backup))
  }

  /** Committing FAT and boot copies keeps the device recoverable; all three end up canonical. */
  lemma CommitAlways(e: Job, d: Device, boots: Image)
    requires Ready(e) && Recoverable(e, d) && Sure(d, Main) && CopiesKept(e, boots)
    ensures Always(e, d, CommitOps(e, boots))
    ensures var r := Execute(d, CommitOps(e, boots));
            Recoverable(e, r) && r == Settled(Committed(e, boots, d.now), Some(e.m))
  {
    hide Ready, Keeps, ValidCopy, Sure, Kept, Execute, NewCopy, Always, NewRoot, UpdateOps, Recoverable, CopyKept;
    var fat := [Write(Fat, e.fat), Sync];
    var b, m := NewCopy(e, CopyAt(boots, Backup)), NewCopy(e, CopyAt(boots, Main));
    FatStep(e, d);
    AlwaysEnd(e, d, fat);
    var d1 := Execute(d, fat);
    NewCopyKept(e, Backup, CopyAt(boots, Backup));
    UpdateAlways(e, d1, Backup, b);
    AlwaysConcat(e, d, fat, UpdateOps(Backup, b));
    var d2 := Execute(d1, UpdateOps(Backup, b));
    BackupHeld(e, d2, b);
    NewCopyKept(e, Main, CopyAt(boots, Main));
    UpdateAlways(e, d2, Main, m);
    AlwaysConcat(e, d, fat + UpdateOps(Backup, b), UpdateOps(Main, m));
    JournalOf(e, d);
  }

  lemma JournalOf(e: Job, d: Device)
    requires Ready(e) && Recoverable(e, d)
    ensures d.journal == Some(e.m) && Kept(e, d) && d.Valid() && d.now.Keys == Places(e.g)
  {
  }

  /** A backup written with the new root can be recovered from. */
  lemma BackupHeld(e: Job, d: Device, b: Copy)
    requires Ready(e) && Sure(d, Backup) && NewRoot(e, b.head) && d == Settled(d.now, d.journal)
    requires Head(Backup) in d.now && d.now[Head(Backup)] == b.head
    ensures Held(e, d, Backup)
  {
    hide Ready, Sure, NewRoot;
    assert d.maybe[Head(Backup)] == {b.head};
  }

  function Committed(e: Job, boots: Image, img: Image): Image
    requires Ready(e) && Sized(e.g, boots)
  {
    WithCopy(WithCopy(img[Fat := e.fat], Backup, NewCopy(e, CopyAt(boots, Backup))), Main,
        NewCopy(e, CopyAt(boots, Main)))
  }

  lemma FatStep(e: Job, d: Device)
    requires Ready(e) && Recoverable(e, d)
    ensures var ops := [Write(Fat, e.fat), Sync];
            && Always(e, d, ops) && Recoverable(e, Execute(d, ops))
               && Execute(d, ops) == Settled(d.now[Fat := e.fat], d.journal)
    ensures forall side | Sure(d, side) :: Sure(Execute(d, [Write(Fat, e.fat), Sync]), side)
  {
    hide Ready, Keeps, ValidCopy, Sure, Kept, Recoverable;
    FatKept(e);
    var ops := [Write(Fat, e.fat), Sync];
    JournalOf(e, d);
    TwoSteps(d, Write(Fat, e.fat), Sync);
    forall p, x | Writes(ops, p, x) ensures p in Places(e.g) && Keeps(e, p, x) {
    }
    AlwaysData(e, d, ops);
    AlwaysEnd(e, d, ops);
  }

  // ---- the whole recovery -----------------------------------------------------------------------

  /** From any recoverable image, recovery is recoverable before and after every step. When the repaired volume opens
      it completes, and the disk holds the canonical layout, whatever the crash had left of targets, FAT and boot
      copies; when it does not open, the disk is as repair has left it. */
  lemma RecoveryCompletes(e: Job, img: Image, order: seq<nat>) returns (final: Image)
    requires Ready(e) && RecoverableImage(e, img) && Permutation(order, |e.m|) && Indexes(e, order)
    ensures Always(e, Settled(img, Some(e.m)), RecoverOps(e, img, order))
    ensures Execute(Settled(img, Some(e.m)), RecoverOps(e, img, order)) == Settled(final, Some(e.m))
    ensures RecoverableImage(e, final)
    ensures if Opens(e, Repaired(e.g, img)) then Finished(e, final) else final == Repaired(e.g, img)
  {
    hide Ready, Keeps, ValidCopy, Sure, Kept, Execute, ReplayOps, CommitOps, RepairOps, Always, Finished, Repaired,
         PlacedAll, Permutation, Indexes, Opens, CopyOk, Recoverable, Committed;
    var d := Settled(img, Some(e.m));
    RepairedSized(e.g, img);
    RepairAlways(e, img);
    var fixed := Repaired(e.g, img);
    if Opens(e, fixed) {
      SettledRecoverable(e, fixed);
      var d1 := Settled(fixed, Some(e.m));
      ReplayAlways(e, d1, order);
      var d2 := Execute(d1, ReplayOps(e, order));
      BootsKept(e, fixed);
      OpensExactly(e, fixed);
      CommitAlways(e, d2, fixed);
      AlwaysConcat(e, d, RepairOps(e.g, img), ReplayOps(e, order));
      AlwaysConcat(e, d, RepairOps(e.g, img) + ReplayOps(e, order), CommitOps(e, fixed));
      final := Committed(e, fixed, d2.now);
      SyncedSurvives(final, Some(e.m), final);
      CrashRecoverable(e, Settled(final, Some(e.m)), final);
      CommittedFinishes(e, fixed, d2.now);
    } else {
      final := fixed;
    }
  }

  lemma BootsKept(e: Job, img: Image)
    requires Ready(e) && RecoverableImage(e, img)
    ensures CopiesKept(e, img)
  {
    hide Ready, Keeps, CopyOk, NewRoot;
  }

  lemma CommittedFinishes(e: Job, boots: Image, img: Image)
    requires Ready(e) && CopiesKept(e, boots) && PlacedAll(e, img) && Fits(e, boots[Head(Main)])
    requires RecoverableImage(e, Committed(e, boots, img))
    ensures Finished(e, Committed(e, boots, img))
  {
    hide Ready, Keeps, ValidCopy, NewCopy, CanonicalPiece, Percent, Dirty, RootOf;
    var final := Committed(e, boots, img);
    ReadyTargets(e);
    NewCopyKept(e, Main, CopyAt(boots, Main));
    NewCopyKept(e, Backup, CopyAt(boots, Backup));
    NewHeadFits(e, boots[Head(Main)]);
    NewCopyParts(e, CopyAt(boots, Main));
    forall side ensures CopyOk(final, side) && NewHeadAt(e, final, side) {
      assert side == Main || side == Backup;
    }
  }
}
