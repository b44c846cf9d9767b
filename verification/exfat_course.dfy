/** The courses a relayout can take, rollback, and the crash-recovery theorem over any number of crashes. */
module ExfatCourse {
  import opened Bytes
  import opened ExfatPlan
  import opened ExfatBoot
  import opened ExfatOpen
  import opened ExfatDevice
  import opened ExfatProtocol
  import opened ExfatRecovery
  import opened ExfatReplay
  import opened Wrappers

  predicate InWorkspace(e: Job, p: Place) {
    p.Cluster? && p.number >= e.workspace
  }

  /** Nothing outside the free workspace has changed. */
  ghost predicate SourceIntact(e: Job, img: Image) {
    img.Keys == e.orig.Keys && forall p | p in e.orig && !InWorkspace(e, p) :: img[p] == e.orig[p]
  }

  /** The whole object set is staged, and nothing else has changed. */
  ghost predicate StagedImage(e: Job, img: Image)
    requires Ready(e)
  {
    && SourceIntact(e, img) && Sized(e.g, img)
    && forall i, j | CellOf(e, i, j) :: StagedCell(e, i, j) in img && img[StagedCell(e, i, j)] == CellContent(e, i, j)
  }

  function PublishOps(e: Job): seq<Op>
    requires Ready(e)
  {
    StageOps(e, |e.lists|) + [Sync, Publish(e.m)]
  }

  // ---- before the manifest ----------------------------------------------------------------------

  lemma StageTouches(e: Job, n: nat, p: Place, x: seq<byte>)
    requires Ready(e) && n <= |e.lists| && Writes(StageOps(e, n), p, x)
    ensures InWorkspace(e, p) && p in Places(e.g) && |x| == e.g.clusterSize
  {
    hide Ready, StageOps, CellContent;
    var i, j := StageWrites(e, n, p, x);
    ReadyTargets(e);
    StagedInside(e, i, j);
  }

  /** A crash at any point of staging leaves the source as it was. */
  lemma StagingIsSafe(e: Job, k: nat, img: Image)
    requires Ready(e) && k <= |StageOps(e, |e.lists|)|
    requires AfterCrash(Execute(Settled(e.orig, None), StageOps(e, |e.lists|)[..k]), img)
    ensures SourceIntact(e, img)
  {
    hide Ready, StageOps, Execute, Mixed;
    var ops := StageOps(e, |e.lists|);
    var d := Settled(e.orig, None);
    RunValid(d, ops[..k]);
    var r := Execute(d, ops[..k]);
    forall p | p in e.orig && !InWorkspace(e, p) ensures p in img && img[p] == e.orig[p] {
      forall x ensures !Writes(ops[..k], p, x) {
        if Writes(ops, p, x) { StageTouches(e, |e.lists|, p, x); }
        assert Writes(ops[..k], p, x) ==> Writes(ops, p, x);
      }
      UntouchedKept(d, ops[..k], p);
      assert r.maybe[p] == {e.orig[p]} by { assert r.now[p] in r.maybe[p]; }
      CertainSurvives(r, img, p, e.orig[p]);
    }
  }

  /** After staging, the sync and the publication of the manifest, the staged image is certain. */
  lemma Published(e: Job) returns (img: Image)
    requires Ready(e)
    ensures Execute(Settled(e.orig, None), PublishOps(e)) == Settled(img, Some(e.m))
    ensures StagedImage(e, img) && RecoverableImage(e, img) && CopyOk(img, Main) && CopyOk(img, Backup)
  {
    hide Ready, StageOps, Execute, StagedImage, RecoverableImage, CopyOk;
    var ops := StageOps(e, |e.lists|);
    var d := Settled(e.orig, None);
    RunConcat(d, ops, [Sync, Publish(e.m)]);
    TwoSteps(Execute(d, ops), Sync, Publish(e.m));
    img := Execute(d, ops).now;
    QuietStage(e, d);
    StagedAll(e);
    StagedRecoverable(e, img);
  }

  lemma QuietStage(e: Job, d: Device)
    requires Ready(e)
    ensures Execute(d, StageOps(e, |e.lists|)).journal == d.journal
  {
    hide Ready, StageOps, Execute;
    StageIsData(e, |e.lists|);
    QuietJournal(d, StageOps(e, |e.lists|));
  }

  lemma StagedAll(e: Job)
    requires Ready(e)
    ensures StagedImage(e, Execute(Settled(e.orig, None), StageOps(e, |e.lists|)).now)
  {
    hide Ready, StageOps, Execute, CellContent;
    var ops := StageOps(e, |e.lists|);
    var d := Settled(e.orig, None);
    RunValid(d, ops);
    ReadySizes(e);
    var img := Execute(d, ops).now;
    forall p | p in e.orig ensures |img[p]| == SizeOf(e.g, p) && (!InWorkspace(e, p) ==> img[p] == e.orig[p]) {
      forall x | Writes(ops, p, x) ensures InWorkspace(e, p) && |x| == e.g.clusterSize && p.Cluster? {
        StageTouches(e, |e.lists|, p, x);
      }
      if Untouched(ops, p) {
        UntouchedKept(d, ops, p);
      } else {
        WrittenSize(e, d, ops, p);
      }
    }
    forall i, j | CellOf(e, i, j)
      ensures StagedCell(e, i, j) in img && img[StagedCell(e, i, j)] == CellContent(e, i, j)
    {
      StagedOne(e, i, j);
    }
  }

  lemma WrittenSize(e: Job, d: Device, ops: seq<Op>, p: Place)
    requires d.Valid() && p in d.now && |d.now[p]| == e.g.clusterSize
             && (forall x | x in d.maybe[p] :: |x| == e.g.clusterSize)
    requires forall x | Writes(ops, p, x) :: |x| == e.g.clusterSize
    ensures p in Execute(d, ops).now && |Execute(d, ops).now[p]| == e.g.clusterSize
  {
    RunValid(d, ops);
    PossibleAfter(d, ops, p, Execute(d, ops).now[p]);
  }

  lemma StagedOne(e: Job, i: nat, j: nat)
    requires Ready(e) && CellOf(e, i, j)
    ensures var img := Execute(Settled(e.orig, None), StageOps(e, |e.lists|)).now;
            StagedCell(e, i, j) in img && img[StagedCell(e, i, j)] == CellContent(e, i, j)
  {
    hide Ready, StageOps, Execute, CellContent;
    var ops := StageOps(e, |e.lists|);
    var p := StagedCell(e, i, j);
    ReadySizes(e);
    ReadyTargets(e);
    StagedInside(e, i, j);
    StageCovers(e, |e.lists|, i, j);
    forall y | Writes(ops, p, y) ensures y == CellContent(e, i, j) {
      var i2, j2 := StageWrites(e, |e.lists|, p, y);
      StagedInjective(e, i, j, i2, j2);
    }
    WrittenReads(Settled(e.orig, None), ops, p, CellContent(e, i, j));
  }

  lemma StagedRecoverable(e: Job, img: Image)
    requires Ready(e) && StagedImage(e, img)
    ensures RecoverableImage(e, img) && CopyOk(img, Main) && CopyOk(img, Backup)
  {
    hide Ready, CellContent, HeadKept, ValidCopy, NewRoot, Kin, Fits, HeadSum, Filled, Steady, RootKnown;
    ReadySizes(e);
    ReadyTargets(e);
    OrigKept(e, Main);
    OrigKept(e, Backup);
    forall p | p in img ensures Keeps(e, p, img[p]) {
      if Boot(p) {
        assert p.side == Main || p.side == Backup;
        assert img[p] == e.orig[p];
      }
    }
  }

  /** The original boot copies are ones recovery can meet. */
  lemma OrigKept(e: Job, side: Side)
    requires Ready(e)
    ensures Sized(e.g, e.orig) && Head(side) in e.orig && Mid(side) in e.orig && Sum(side) in e.orig
            && CopyOk(e.orig, side)
    ensures CopyKept(e, side, CopyAt(e.orig, side))
  {
    hide Ready, Kin, Fits, HeadSum, Steady, Filled;
    ReadySizes(e);
    ReadyTargets(e);
    assert side == Main || side == Backup;
    OpenedMain(e);
  }

  // ---- the dirty flag ---------------------------------------------------------------------------

  function DirtyFlags(e: Job): (f: nat)
    requires Ready(e)
    ensures f < U16_LIMIT && Bit(f, 1)
  {
    ReadySizes(e);
    WithDirtyReads(U16(e.orig[Head(Main)], FLAGS_FIELD), true, 1);
    WithDirty(U16(e.orig[Head(Main)], FLAGS_FIELD), true)
  }

  function DirtyHead(e: Job, side: Side): (h: seq<byte>)
    requires Ready(e)
  {
    ReadySizes(e);
    assert side == Main || side == Backup;
    FlaggedHead(e.orig[Head(side)], DirtyFlags(e))
  }

  lemma DirtyHeadKept(e: Job, side: Side)
    requires Ready(e)
    ensures Head(side) in e.orig && Mid(side) in e.orig && Sum(side) in e.orig
    ensures Keeps(e, Head(side), DirtyHead(e, side)) && Dirty(DirtyHead(e, side))
    ensures ValidCopy(DirtyHead(e, side), e.orig[Mid(side)], e.orig[Sum(side)])
  {
    hide Ready, Kin, HeadSum, FlaggedHead, Dirty, ValidCopy, MediaFailure, SameVolume, Steady;
    ReadySizes(e);
    ReadyTargets(e);
    OrigKept(e, side);
    assert side == Main || side == Backup;
    var head := e.orig[Head(side)];
    FlaggedFields(head, DirtyFlags(e));
    FlagKeepsValid(head, e.orig[Mid(side)], e.orig[Sum(side)], DirtyFlags(e));
    KeepsSize(e, Head(side), head);
    KinSignature(head, DirtyHead(e, side));
    if Fits(e, head) {
      DirtyHeadFits(e, side);
    }
    if side == Main {
      DirtyHeadFits(e, Main);
    }
  }

  /** The published flags report no media failure: they are the main copy's. */
  lemma DirtyHeadFits(e: Job, side: Side)
    requires Ready(e) && Sized(e.g, e.orig) && Head(side) in e.orig && (side == Backup ==> Fits(e, e.orig[Head(side)]))
    ensures Fits(e, DirtyHead(e, side))
  {
    hide Ready, FlaggedHead, SameVolume, Kin, Dirty;
    ReadySizes(e);
    OpenedMain(e);
    var head := e.orig[Head(side)];
    assert side == Main || side == Backup;
    WithDirtyReads(U16(e.orig[Head(Main)], FLAGS_FIELD), true, 2);
    FlaggedFields(head, DirtyFlags(e));
    FlaggedMedia(head, DirtyFlags(e));
    KinSameVolume(head, DirtyHead(e, side));
    SameVolumeTrans(e.orig[Head(Main)], head, DirtyHead(e, side));
  }

  function MarkedDirty(e: Job, img: Image): Image
    requires Ready(e)
  {
    img[Head(Backup) := DirtyHead(e, Backup)][Head(Main) := DirtyHead(e, Main)]
  }

  /** Publishing the dirty flag keeps both copies valid throughout, and makes both dirty. */
  lemma DirtyAlways(e: Job, img: Image)
    requires Ready(e) && StagedImage(e, img)
    ensures e.orig.Keys == Places(e.g) && DirtyOps(e.orig)
         == [Write(Head(Backup), DirtyHead(e, Backup)), Sync, Write(Head(Main), DirtyHead(e, Main)), Sync]
    ensures Always(e, Settled(img, Some(e.m)), DirtyOps(e.orig))
    ensures Execute(Settled(img, Some(e.m)), DirtyOps(e.orig)) == Settled(MarkedDirty(e, img), Some(e.m))
    ensures RecoverableImage(e, MarkedDirty(e, img))
    ensures CopyOk(MarkedDirty(e, img), Main) && CopyOk(MarkedDirty(e, img), Backup)
  {
    hide Ready, Keeps, ValidCopy, Sure, Kept, Execute, DirtyHead, RecoverableImage, Always;
    ReadySizes(e);
    StagedRecoverable(e, img);
    SettledRecoverable(e, img);
    StagedBoot(e, img);
    var a := [Write(Head(Backup), DirtyHead(e, Backup)), Sync];
    var b := [Write(Head(Main), DirtyHead(e, Main)), Sync];
    DirtyOpsAre(e);
    var d := Settled(img, Some(e.m));
    DirtyStep(e, img, Backup);
    var img1 := img[Head(Backup) := DirtyHead(e, Backup)];
    DirtyStep(e, img1, Main);
    AlwaysConcat(e, d, a, b);
    assert DirtyOps(e.orig) == a + b;
  }

  lemma DirtyOpsAre(e: Job)
    requires Ready(e)
    ensures e.orig.Keys == Places(e.g) && DirtyOps(e.orig)
         == [Write(Head(Backup), DirtyHead(e, Backup)), Sync, Write(Head(Main), DirtyHead(e, Main)), Sync]
  {
    hide Ready, FlaggedHead;
    ReadySizes(e);
  }

  lemma StagedBoot(e: Job, img: Image)
    requires Ready(e) && StagedImage(e, img)
    ensures forall p: Place | Boot(p) :: p in img && p in e.orig && img[p] == e.orig[p]
    ensures Fat in img && img[Fat] == e.orig[Fat]
  {
    hide Ready;
    ReadySizes(e);
    AllSides(e, e.orig);
  }

  lemma DirtyStep(e: Job, img: Image, side: Side)
    requires Ready(e) && RecoverableImage(e, img) && CopyOk(img, Main) && CopyOk(img, Backup)
    requires AtSideOrig(e, img, side)
    ensures var ops := [Write(Head(side), DirtyHead(e, side)), Sync];
            var marked := img[Head(side) := DirtyHead(e, side)];
            && Always(e, Settled(img, Some(e.m)), ops)
            && Execute(Settled(img, Some(e.m)), ops) == Settled(marked, Some(e.m))
            && RecoverableImage(e, marked) && CopyOk(marked, Main) && CopyOk(marked, Backup)
  {
    hide Ready, Keeps, ValidCopy, Sure, Kept, DirtyHead, RecoverableImage, Recoverable;
    var d := Settled(img, Some(e.m));
    SettledRecoverable(e, img);
    DirtyHeadKept(e, side);
    DirtyTwoSteps(e, img, side);
    var ops := [Write(Head(side), DirtyHead(e, side)), Sync];
    var marked := img[Head(side) := DirtyHead(e, side)];
    SyncedSurvives(marked, Some(e.m), marked);
    CrashRecoverable(e, Settled(marked, Some(e.m)), marked);
    assert side == Main || side == Backup;
  }

  /** Only the flags of this copy may differ from the original. */
  predicate AtSideOrig(e: Job, img: Image, side: Side) {
    && Head(side) in img && Head(side) in e.orig && img[Head(side)] == e.orig[Head(side)]
    && Mid(side) in img && Mid(side) in e.orig && img[Mid(side)] == e.orig[Mid(side)]
    && Sum(side) in img && Sum(side) in e.orig && img[Sum(side)] == e.orig[Sum(side)]
  }

  lemma DirtyTwoSteps(e: Job, img: Image, side: Side)
    requires Ready(e) && RecoverableImage(e, img) && CopyOk(img, Main) && AtSideOrig(e, img, side)
    ensures var d := Settled(img, Some(e.m));
            var ops := [Write(Head(side), DirtyHead(e, side)), Sync];
            && Always(e, d, ops) && Execute(d, ops) == Settled(img[Head(side) := DirtyHead(e, side)], Some(e.m))
            && Recoverable(e, Execute(d, ops))
  {
    hide Ready, Keeps, ValidCopy, Sure, Kept, DirtyHead, Always, NewRoots, RecoverableImage;
    var d := Settled(img, Some(e.m));
    SettledRecoverable(e, img);
    DirtyHeadKept(e, side);
    SidePlaces(e, side);
    var op := Write(Head(side), DirtyHead(e, side));
    ImageSized(e, img);
    DirtyKeepsMain(e, img, side);
    assert Held(e, d, Main);
    if side == Backup {
      OneWrite(e, d, Head(side), DirtyHead(e, side), Main);
    } else {
      MainWrite(e, d, Head(side), DirtyHead(e, side));
    }
    OneSync(e, Apply(d, op), Main);
    TwoSteps(d, op, Sync);
    AlwaysTwo(e, d, [op, Sync]);
  }

  lemma DirtyKeepsMain(e: Job, img: Image, side: Side)
    requires Ready(e) && Sized(e.g, img) && CopyOk(img, Main) && AtSideOrig(e, img, side)
    ensures Sure(Apply(Settled(img, Some(e.m)), Write(Head(side), DirtyHead(e, side))), Main)
  {
    hide Ready, ValidCopy, DirtyHead, Mixed;
    DirtyHeadKept(e, side);
    SidesPresent(e, img);
    forall r ensures Mixed({img[Mid(Main)]}, r) <==> r == img[Mid(Main)] {
      MixedOne(img[Mid(Main)], r);
    }
  }

  lemma AlwaysTwo(e: Job, d: Device, ops: seq<Op>)
    requires Ready(e) && |ops| == 2
    requires Recoverable(e, Execute(d, ops[..0])) && Recoverable(e, Execute(d, ops[..1]))
             && Recoverable(e, Execute(d, ops[..2]))
    ensures Always(e, d, ops)
  {
    hide Ready, Recoverable, Execute;
    forall k | 0 <= k <= |ops| ensures Recoverable(e, Execute(d, ops[..k])) {
      assert k == 0 || k == 1 || k == 2;
    }
  }

  // ---- courses after the manifest ---------------------------------------------------------------

  /** Dirty flag, placement, commit. */
  function CompleteOps(e: Job, order: seq<nat>): seq<Op>
    requires Ready(e) && Indexes(e, order)
  {
    ReadySizes(e);
    DirtyOps(e.orig) + ReplayOps(e, order) + CommitOps(e, e.orig)
  }

  /** Dirty flag, placement up to a stop, rollback. */
  function StoppedOps(e: Job, order: seq<nat>, stop: nat): seq<Op>
    requires Ready(e) && Indexes(e, order) && stop <= |PlaceOps(e, order, |order|)|
  {
    ReadySizes(e);
    DirtyOps(e.orig) + PlaceOps(e, order, |order|)[..stop] + (BackOps(e, |e.lists|) + [Sync]) + RestoreOps(e)
  }

  lemma OrigBootKept(e: Job)
    requires Ready(e)
    ensures CopiesKept(e, e.orig) && CopyOk(e.orig, Main) && CopyOk(e.orig, Backup)
  {
    hide Ready, Keeps, ValidCopy;
    OrigKept(e, Main);
    OrigKept(e, Backup);
  }

  /** An uninterrupted run is recoverable throughout and ends canonical. */
  lemma CompleteRun(e: Job, img: Image, order: seq<nat>) returns (final: Image)
    requires Ready(e) && StagedImage(e, img) && Permutation(order, |e.m|) && Indexes(e, order)
    ensures Always(e, Settled(img, Some(e.m)), CompleteOps(e, order))
    ensures Execute(Settled(img, Some(e.m)), CompleteOps(e, order)) == Settled(final, Some(e.m))
    ensures Finished(e, final)
  {
    hide Ready, Keeps, ValidCopy, Sure, Kept, Execute, ReplayOps, CommitOps, DirtyOps, Always, Finished, PlacedAll,
         Permutation, Indexes, StagedImage, RecoverableImage, MarkedDirty;
    var d := Settled(img, Some(e.m));
    DirtyAlways(e, img);
    var dirty := MarkedDirty(e, img);
    SettledRecoverable(e, dirty);
    var d1 := Settled(dirty, Some(e.m));
    ReplayAlways(e, d1, order);
    var d2 := Execute(d1, ReplayOps(e, order));
    OrigBootKept(e);
    CommitAlways(e, d2, e.orig);
    AlwaysConcat(e, d, DirtyOps(e.orig), ReplayOps(e, order));
    AlwaysConcat(e, d, DirtyOps(e.orig) + ReplayOps(e, order), CommitOps(e, e.orig));
    final := Committed(e, e.orig, d2.now);
    SyncedSurvives(final, Some(e.m), final);
    CrashRecoverable(e, Settled(final, Some(e.m)), final);
    OrigRecoverable(e, img);
    OpenedMain(e);
    CommittedFinishes(e, e.orig, d2.now);
  }

  lemma OrigRecoverable(e: Job, img: Image)
    requires Ready(e) && StagedImage(e, img)
    ensures RecoverableImage(e, img)
  {
    StagedRecoverable(e, img);
  }

  /** The original layout is back: every allocated cluster, the FAT and both boot copies. */
  ghost predicate Restored(e: Job, img: Image)
    requires Ready(e)
  {
    && Fat in img && Fat in e.orig && img[Fat] == e.orig[Fat]
    && (forall p: Place | Boot(p) :: p in img && p in e.orig && img[p] == e.orig[p])
    && (forall i, j | CellOf(e, i, j) :: OwnedCell(e, i, j) in img && img[OwnedCell(e, i, j)] == CellContent(e, i, j))
  }

  lemma CellContentIs(e: Job, i: nat, j: nat)
    requires Ready(e) && CellOf(e, i, j)
    ensures OwnedCell(e, i, j) in e.orig && CellContent(e, i, j) == e.orig[OwnedCell(e, i, j)]
  {
    hide Ready;
    ReadySizes(e);
    OwnedInside(e, i, j);
  }

  /** Placement up to a stop, copying back, and the sync. */
  lemma BackAlways(e: Job, d: Device, order: seq<nat>, stop: nat)
    requires Ready(e) && Indexes(e, order) && stop <= |PlaceOps(e, order, |order|)|
    requires Recoverable(e, d) && Sure(d, Main) && Sure(d, Backup)
    ensures var ops := PlaceOps(e, order, |order|)[..stop] + (BackOps(e, |e.lists|) + [Sync]);
            var r := Execute(d, ops);
            && Always(e, d, ops) && Recoverable(e, r) && Sure(r, Main) && Sure(r, Backup)
            && r == Settled(r.now, d.journal)
            && (forall i, j | CellOf(e, i, j) ::
                 OwnedCell(e, i, j) in r.now && r.now[OwnedCell(e, i, j)] == CellContent(e, i, j))
            && Fat in d.now && Fat in r.now && r.now[Fat] == d.now[Fat] && SameBoot(d.now, r.now)
  {
    hide Ready, Keeps, ValidCopy, Sure, Kept, Execute, PlaceOps, BackOps, Always, CellContent, NewRoots, Recoverable;
    var a := PlaceOps(e, order, |order|);
    var b := BackOps(e, |e.lists|);
    PlaceKept(e, order, |order|);
    PrefixKept(e, a, stop);
    AlwaysData(e, d, a[..stop]);
    AlwaysEnd(e, d, a[..stop]);
    var d1 := Execute(d, a[..stop]);
    BackKept(e, |e.lists|);
    AlwaysData(e, d1, b);
    AlwaysEnd(e, d1, b);
    var d2 := Execute(d1, b);
    SyncStep(e, d2);
    AlwaysConcat(e, d1, b, [Sync]);
    AlwaysConcat(e, d, a[..stop], b + [Sync]);
    forall i, j | CellOf(e, i, j)
      ensures OwnedCell(e, i, j) in d2.now && d2.now[OwnedCell(e, i, j)] == CellContent(e, i, j)
    {
      OneBack(e, d1, i, j);
    }
    JournalOf(e, d);
    JournalOf(e, d1);
    NoFat(e, d, order, stop);
    NoFatBack(e, d1);
    QuietStopped(e, d, order, stop);
    BootUntouched(e, d, a[..stop]);
    BootUntouched(e, d1, b);
  }

  lemma QuietStopped(e: Job, d: Device, order: seq<nat>, stop: nat)
    requires Ready(e) && Indexes(e, order) && stop <= |PlaceOps(e, order, |order|)|
    ensures Execute(Execute(d, PlaceOps(e, order, |order|)[..stop]), BackOps(e, |e.lists|)).journal == d.journal
  {
    hide Ready, Execute, PlaceOps, BackOps;
    PlaceIsData(e, order, |order|);
    BackIsData(e, |e.lists|);
    QuietJournal(d, PlaceOps(e, order, |order|)[..stop]);
    QuietJournal(Execute(d, PlaceOps(e, order, |order|)[..stop]), BackOps(e, |e.lists|));
  }

  lemma NoFat(e: Job, d: Device, order: seq<nat>, stop: nat)
    requires Ready(e) && Indexes(e, order) && stop <= |PlaceOps(e, order, |order|)| && Kept(e, d)
    ensures Fat in d.now && Fat in Execute(d, PlaceOps(e, order, |order|)[..stop]).now
    ensures Execute(d, PlaceOps(e, order, |order|)[..stop]).now[Fat] == d.now[Fat]
  {
    hide Ready, Execute, PlaceOps, Keeps;
    PlaceIsData(e, order, |order|);
    var ops := PlaceOps(e, order, |order|)[..stop];
    forall x ensures !Writes(ops, Fat, x) {
      assert Write(Fat, x) !in PlaceOps(e, order, |order|);
    }
    UntouchedKept(d, ops, Fat);
  }

  lemma NoFatBack(e: Job, d: Device)
    requires Ready(e) && Kept(e, d)
    ensures Fat in d.now && Fat in Execute(d, BackOps(e, |e.lists|)).now
    ensures Execute(d, BackOps(e, |e.lists|)).now[Fat] == d.now[Fat]
  {
    hide Ready, Execute, BackOps, Keeps;
    BackIsData(e, |e.lists|);
    var ops := BackOps(e, |e.lists|);
    forall x ensures !Writes(ops, Fat, x) {
      assert Write(Fat, x) !in ops;
    }
    UntouchedKept(d, ops, Fat);
  }

  lemma OneBack(e: Job, d: Device, i: nat, j: nat)
    requires Ready(e) && Kept(e, d) && CellOf(e, i, j)
    ensures OwnedCell(e, i, j) in Execute(d, BackOps(e, |e.lists|)).now
    ensures Execute(d, BackOps(e, |e.lists|)).now[OwnedCell(e, i, j)] == CellContent(e, i, j)
  {
    hide Ready, Execute, BackOps, Keeps, CellContent;
    var ops := BackOps(e, |e.lists|);
    var p := OwnedCell(e, i, j);
    OwnedInside(e, i, j);
    BackCovers(e, |e.lists|, i, j);
    forall y | Writes(ops, p, y) ensures y == CellContent(e, i, j) {
      var i2, j2 := BackWrites(e, |e.lists|, p, y);
      OwnedInjective(e, i, j, i2, j2);
    }
    WrittenReads(d, ops, p, CellContent(e, i, j));
  }

  /** Rollback ends with the boot copies: the backup, then the main copy, which stays valid as its
      sums do not change. */
  lemma RestoreAlways(e: Job, d: Device)
    requires Ready(e) && Recoverable(e, d) && Sure(d, Main) && d == Settled(d.now, Some(e.m)) && MarkedMain(e, d.now)
    ensures Always(e, d, RestoreOps(e))
    ensures Sized(e.g, e.orig)
    ensures Execute(d, RestoreOps(e))
         == Settled(WithCopy(WithCopy(d.now, Backup, CopyAt(e.orig, Backup)), Main, CopyAt(e.orig, Main)), Some(e.m))
  {
    hide Ready, Keeps, ValidCopy, Sure, Kept, Execute, Always, UpdateOps, Recoverable, DirtyHead, NewRoots;
    OrigKept(e, Main);
    OrigKept(e, Backup);
    var b, m := CopyAt(e.orig, Backup), CopyAt(e.orig, Main);
    UpdateAlways(e, d, Backup, b);
    var d1 := Execute(d, UpdateOps(Backup, b));
    RestoreMain(e, d1);
    AlwaysConcat(e, d, UpdateOps(Backup, b), UpdateOps(Main, m));
  }

  /** The main copy is the original one with the dirty flag set. */
  predicate MarkedMain(e: Job, img: Image)
    requires Ready(e)
  {
    ReadySizes(e);
    && Head(Main) in img && img[Head(Main)] == DirtyHead(e, Main) && Mid(Main) in img
       && img[Mid(Main)] == e.orig[Mid(Main)]
    && Sum(Main) in img && img[Sum(Main)] == e.orig[Sum(Main)]
  }

  lemma RestoreMain(e: Job, d: Device)
    requires Ready(e) && Recoverable(e, d) && Sure(d, Main) && d == Settled(d.now, Some(e.m)) && MarkedMain(e, d.now)
    ensures Sized(e.g, e.orig)
    ensures var ops := UpdateOps(Main, CopyAt(e.orig, Main));
            Always(e, d, ops) && Execute(d, ops) == Settled(WithCopy(d.now, Main, CopyAt(e.orig, Main)), Some(e.m))
  {
    hide Ready, Keeps, ValidCopy, Sure, Kept, Apply, DirtyHead, Recoverable, NewRoots;
    OrigKept(e, Main);
    SidePlaces(e, Main);
    var c := CopyAt(e.orig, Main);
    var d1 := Apply(d, Write(Head(Main), c.head));
    var d2 := Apply(d1, Write(Mid(Main), c.mid));
    var d3 := Apply(d2, Write(Sum(Main), c.sum));
    JournalOf(e, d);
    RestoringMain(e, d);
    MainWrite(e, d, Head(Main), c.head);
    MainWrite(e, d1, Mid(Main), c.mid);
    MainWrite(e, d2, Sum(Main), c.sum);
    SureHeld(e, d3);
    OneSync(e, d3, Main);
    UpdateSteps(d, Main, c);
    forall k | 0 <= k <= 4 ensures Recoverable(e, Execute(d, UpdateOps(Main, c)[..k])) {
    }
  }

  lemma SureHeld(e: Job, d: Device)
    requires Ready(e) && Sure(d, Main)
    ensures Held(e, d, Main)
  {
  }

  /** Original sectors over original or flagged ones: valid whatever a crash leaves. */
  lemma RestoringMain(e: Job, d: Device)
    requires Ready(e) && d.Valid() && d.now.Keys == Places(e.g) && d == Settled(d.now, Some(e.m))
             && MarkedMain(e, d.now)
    ensures Sized(e.g, e.orig)
    ensures var c := CopyAt(e.orig, Main);
            var d1 := Apply(d, Write(Head(Main), c.head));
            var d2 := Apply(d1, Write(Mid(Main), c.mid));
            Sure(d1, Main) && Sure(d2, Main) && Sure(Apply(d2, Write(Sum(Main), c.sum)), Main)
  {
    hide Ready, ValidCopy, DirtyHead, Mixed, Places;
    ReadySizes(e);
    OrigKept(e, Main);
    DirtyHeadKept(e, Main);
    var mid := e.orig[Mid(Main)];
    assert {mid} + {mid} == {mid};
    forall r ensures Mixed({mid}, r) <==> r == mid {
      MixedOne(mid, r);
    }
  }

  /** A stop during placement rolls back: recoverable throughout, and the original layout is restored, synced. */
  lemma StoppedRun(e: Job, img: Image, order: seq<nat>, stop: nat) returns (final: Image)
    requires Ready(e) && StagedImage(e, img) && Indexes(e, order) && stop <= |PlaceOps(e, order, |order|)|
    ensures Always(e, Settled(img, Some(e.m)), StoppedOps(e, order, stop))
    ensures Execute(Settled(img, Some(e.m)), StoppedOps(e, order, stop)) == Settled(final, Some(e.m))
    ensures Restored(e, final)
  {
    hide Ready, Keeps, ValidCopy, Sure, Kept, Execute, PlaceOps, BackOps, DirtyOps, RestoreOps, Always, StagedImage,
         RecoverableImage, CellContent;
    var d := Settled(img, Some(e.m));
    ReadySizes(e);
    DirtyAlways(e, img);
    StagedBoot(e, img);
    var dirty := MarkedDirty(e, img);
    SettledRecoverable(e, dirty);
    var d1 := Settled(dirty, Some(e.m));
    BackAlways(e, d1, order, stop);
    var ops := PlaceOps(e, order, |order|)[..stop] + (BackOps(e, |e.lists|) + [Sync]);
    var d2 := Execute(d1, ops);
    MarkedStays(e, img, d2.now);
    RestoreAlways(e, d2);
    AlwaysConcat(e, d, DirtyOps(e.orig), ops);
    AlwaysConcat(e, d, DirtyOps(e.orig) + ops, RestoreOps(e));
    assert DirtyOps(e.orig) + ops + RestoreOps(e) == StoppedOps(e, order, stop);
    final := Execute(d2, RestoreOps(e)).now;
    RestoredFrom(e, d2.now, final);
  }

  lemma MarkedStays(e: Job, img: Image, now: Image)
    requires Ready(e) && StagedImage(e, img) && SameBoot(MarkedDirty(e, img), now)
    ensures MarkedMain(e, now)
  {
    hide Ready, StagedImage, DirtyHead;
    StagedBoot(e, img);
    assert Boot(Head(Main)) && Boot(Mid(Main)) && Boot(Sum(Main));
  }

  lemma RestoredFrom(e: Job, img: Image, final: Image)
    requires Ready(e) && Sized(e.g, e.orig)
    requires Fat in img && img[Fat] == e.orig[Fat]
    requires forall i, j | CellOf(e, i, j) ::
               OwnedCell(e, i, j) in img && img[OwnedCell(e, i, j)] == CellContent(e, i, j)
    requires final == WithCopy(WithCopy(img, Backup, CopyAt(e.orig, Backup)), Main, CopyAt(e.orig, Main))
    ensures Restored(e, final)
  {
    hide Ready, CellContent;
    AllSides(e, e.orig);
    forall p: Place | Boot(p) ensures p in final && final[p] == e.orig[p] {
      assert p.side == Main || p.side == Backup;
    }
  }

  /** The records in their own order: one of the orders a recovery may place them in. */
  function InOrder(n: nat): (order: seq<nat>)
    ensures |order| == n && forall i | 0 <= i < n :: order[i] == i
  {
    seq(n, i requires 0 <= i => i)
  }

  lemma InOrderPermutes(n: nat)
    ensures Permutation(InOrder(n), n) && forall i | 0 <= i < n :: InOrder(n)[i] < n
  {
    forall x: nat | x < n ensures x in InOrder(n) {
      assert InOrder(n)[x] == x;
    }
  }

  // ---- any number of crashes --------------------------------------------------------------------

  /** img is what a crash left at some point of a first run after publication, completed or stopped and rolled back. */
  ghost predicate CrashedInRun(e: Job, img: Image)
    requires Ready(e)
  {
    exists staged, order, ops, k: nat :: FirstRunTo(e, staged, order, ops, k, img)
  }

  ghost predicate FirstRunTo(e: Job, staged: Image, order: seq<nat>, ops: seq<Op>, k: nat, img: Image)
    requires Ready(e)
  {
    && StagedImage(e, staged) && Permutation(order, |e.m|) && Indexes(e, order) && FirstCourse(e, order, ops)
    && k <= |ops| && AfterCrash(Execute(Settled(staged, Some(e.m)), ops[..k]), img)
  }

  ghost predicate FirstCourse(e: Job, order: seq<nat>, ops: seq<Op>)
    requires Ready(e) && Indexes(e, order)
  {
    || ops == CompleteOps(e, order)
    || exists stop: nat :: stop <= |PlaceOps(e, order, |order|)| && ops == StoppedOps(e, order, stop)
  }

  /** img is what a crash left at some point of a recovery started on before. */
  ghost predicate RecoveryTo(e: Job, before: Image, order: seq<nat>, k: nat, img: Image)
    requires Ready(e)
  {
    && Sized(e.g, before) && Permutation(order, |e.m|) && Indexes(e, order)
    && k <= |RecoverOps(e, before, order)|
    && AfterCrash(Execute(Settled(before, Some(e.m)), RecoverOps(e, before, order)[..k]), img)
  }

  /** img is what is left after a crash of the first run and n crashes of recoveries. */
  ghost predicate Crashed(e: Job, n: nat, img: Image)
    requires Ready(e)
  {
    if n == 0 then CrashedInRun(e, img)
    else exists before, order, k: nat :: Crashed(e, n - 1, before) && RecoveryTo(e, before, order, k, img)
  }

  lemma FirstCrash(e: Job, staged: Image, order: seq<nat>, ops: seq<Op>, k: nat, img: Image)
    requires Ready(e) && FirstRunTo(e, staged, order, ops, k, img)
    ensures RecoverableImage(e, img)
  {
    hide Ready, Recoverable, RecoverableImage, Execute, Permutation, StagedImage, CompleteOps, StoppedOps, PlaceOps,
         AfterCrash;
    if ops == CompleteOps(e, order) {
      var final := CompleteRun(e, staged, order);
    } else {
      var stop: nat :| stop <= |PlaceOps(e, order, |order|)| && ops == StoppedOps(e, order, stop);
      var final := StoppedRun(e, staged, order, stop);
    }
    CrashRecoverable(e, Execute(Settled(staged, Some(e.m)), ops[..k]), img);
  }

  lemma NextCrash(e: Job, before: Image, order: seq<nat>, k: nat, img: Image)
    requires Ready(e) && RecoverableImage(e, before) && RecoveryTo(e, before, order, k, img)
    ensures RecoverableImage(e, img)
  {
    hide Ready, Recoverable, RecoverableImage, Execute, Permutation, Indexes, RecoverOps, AfterCrash, Finished;
    var final := RecoveryCompletes(e, before, order);
    CrashRecoverable(e, Execute(Settled(before, Some(e.m)), RecoverOps(e, before, order)[..k]), img);
  }

  /** After any number of crashes, in the run, in its rollback or in recoveries, the image is recoverable. */
  lemma {:induction false} AnyNumberOfCrashes(e: Job, n: nat, img: Image)
    requires Ready(e) && Crashed(e, n, img)
    ensures RecoverableImage(e, img)
  {
    hide Ready, RecoverableImage, FirstRunTo, RecoveryTo;
    if n == 0 {
      var staged, order, ops, k: nat :| FirstRunTo(e, staged, order, ops, k, img);
      FirstCrash(e, staged, order, ops, k, img);
    } else {
      var before, order, k: nat :| Crashed(e, n - 1, before) && RecoveryTo(e, before, order, k, img);
      AnyNumberOfCrashes(e, n - 1, before);
      NextCrash(e, before, order, k, img);
    }
  }

  /** Crash recovery by replay. From whatever any number of crashes left, recovery either is refused at the open check,
      with nothing but a repaired boot copy written, or reaches the same canonical clusters, FAT and root as the
      uninterrupted run. */
  lemma RecoveryReachesTheSame(e: Job, staged: Image, n: nat, img: Image, order: seq<nat>, replayed: seq<nat>)
    requires Ready(e) && StagedImage(e, staged) && Crashed(e, n, img)
    requires Permutation(order, |e.m|) && Indexes(e, order) && Permutation(replayed, |e.m|) && Indexes(e, replayed)
    ensures Sized(e.g, img)
    ensures var run := Execute(Settled(staged, Some(e.m)), CompleteOps(e, order));
            var recovered := Execute(Settled(img, Some(e.m)), RecoverOps(e, img, replayed));
            && Finished(e, run.now)
            && run == Settled(run.now, Some(e.m)) && recovered == Settled(recovered.now, Some(e.m))
            && (Opens(e, Repaired(e.g, img)) ==> Finished(e, recovered.now) && SameLayout(e, run.now, recovered.now))
            && (!Opens(e, Repaired(e.g, img)) ==> recovered.now == Repaired(e.g, img))
  {
    hide Ready, Recoverable, Execute, Permutation, Indexes, StagedImage, CompleteOps, RecoverOps, Crashed,
         CanonicalPiece, CopyOk, Keeps, Opens, Repaired, Finished, SameLayout;
    AnyNumberOfCrashes(e, n, img);
    var final := CompleteRun(e, staged, order);
    var final2 := RecoveryCompletes(e, img, replayed);
    if Opens(e, Repaired(e.g, img)) {
      FinishedAgree(e, final, final2);
    }
  }

  /** Two disks agree on the FAT, on every target cluster, and on the root and the boot fields relayout commits. */
  ghost predicate SameLayout(e: Job, a: Image, b: Image) {
    && Fat in a && Fat in b && a[Fat] == b[Fat] && ReadyTargetsHold(e)
    && (forall i, j | CellOf(e, i, j) ::
         TargetCell(e, i, j) in a && TargetCell(e, i, j) in b && a[TargetCell(e, i, j)] == b[TargetCell(e, i, j)])
    && (forall side :: NewHeadAt(e, a, side) && NewHeadAt(e, b, side))
  }

  /** All finished disks do. */
  lemma FinishedAgree(e: Job, a: Image, b: Image)
    requires Ready(e) && Finished(e, a) && Finished(e, b)
    ensures SameLayout(e, a, b)
  {
    hide Ready, CanonicalPiece, ValidCopy;
  }
}
