/** Clean-flag safety: when the main boot copy on disk is valid and clean, the volume is entirely the original
    layout or entirely the canonical one. */
module ExfatCleanFlag {
  import opened Bytes
  import opened ExfatManifest
  import opened ExfatPlan
  import opened ExfatBoot
  import opened ExfatDevice
  import opened ExfatProtocol
  import opened ExfatRecovery
  import opened ExfatReplay
  import opened ExfatCourse
  import opened Wrappers

  /** The FAT and every allocated cluster read as before the relayout. */
  ghost predicate OriginalData(e: Job, img: Image)
    requires Ready(e)
  {
    && Fat in img && Fat in e.orig && img[Fat] == e.orig[Fat]
    && forall i, j | CellOf(e, i, j) :: OwnedCell(e, i, j) in img && img[OwnedCell(e, i, j)] == CellContent(e, i, j)
  }

  /** The FAT and every target cluster read as after it. */
  ghost predicate CanonicalData(e: Job, img: Image)
    requires Ready(e)
  {
    PlacedAll(e, img) && Fat in img && img[Fat] == e.fat
  }

  ghost predicate OldRoot(e: Job, head: seq<byte>)
    requires Ready(e)
  {
    ReadySizes(e);
    |head| >= MIN_SECTOR && RootOf(head) == RootOf(e.orig[Head(Main)])
  }

  /** A valid and clean main boot copy promises one whole layout, with its root. */
  ghost predicate SafeImage(e: Job, img: Image)
    requires Ready(e)
  {
    CopyOk(img, Main) && !Dirty(img[Head(Main)]) ==>
      || (OriginalData(e, img) && OldRoot(e, img[Head(Main)]))
      || (CanonicalData(e, img) && NewRoot(e, img[Head(Main)]))
  }

  // ---- what a device is certain of --------------------------------------------------------------

  ghost predicate Certain(d: Device, p: Place, x: seq<byte>) {
    p in d.maybe && d.maybe[p] == {x}
  }

  ghost predicate SureOriginal(e: Job, d: Device)
    requires Ready(e)
  {
    ReadySizes(e);
    && Certain(d, Fat, e.orig[Fat])
    && forall i, j | CellOf(e, i, j) :: Certain(d, OwnedCell(e, i, j), CellContent(e, i, j))
  }

  ghost predicate SureCanonical(e: Job, d: Device)
    requires Ready(e)
  {
    && Certain(d, Fat, e.fat) && ReadyTargetsHold(e)
    && forall i, j | CellOf(e, i, j) :: Certain(d, TargetCell(e, i, j), CanonicalPiece(e, i, j))
  }

  ghost predicate MainDirty(d: Device) {
    Head(Main) in d.maybe && forall h | h in d.maybe[Head(Main)] :: Dirty(h)
  }

  ghost predicate HeadsOld(e: Job, d: Device)
    requires Ready(e)
  {
    Head(Main) in d.maybe && forall h | h in d.maybe[Head(Main)] :: OldRoot(e, h)
  }

  ghost predicate HeadsNew(e: Job, d: Device, side: Side)
    requires Ready(e)
  {
    Head(side) in d.maybe && forall h | h in d.maybe[Head(side)] :: Dirty(h) || NewRoot(e, h)
  }

  /** Untouched so far, or rolled back: the original layout is certain. */
  ghost predicate Before(e: Job, d: Device)
    requires Ready(e)
  {
    SureOriginal(e, d) && HeadsOld(e, d) && Sure(d, Main)
  }

  /** In progress: the main copy is certainly valid and dirty. */
  ghost predicate During(d: Device) {
    MainDirty(d) && Sure(d, Main)
  }

  /** Committing: all data is certainly canonical, and any boot copy that could be used is dirty or has the new root. */
  ghost predicate After(e: Job, d: Device)
    requires Ready(e)
  {
    SureCanonical(e, d) && HeadsNew(e, d, Main) && (Sure(d, Main) || HeadsNew(e, d, Backup))
  }

  ghost predicate Guarded(e: Job, d: Device)
    requires Ready(e)
  {
    During(d) || After(e, d)
  }

  /** The same conditions on an image. */
  ghost predicate GuardedImage(e: Job, img: Image)
    requires Ready(e) && Sized(e.g, img)
  {
    if CopyOk(img, Main) then
      Dirty(img[Head(Main)]) || (CanonicalData(e, img) && NewRoot(e, img[Head(Main)]))
    else
      && CanonicalData(e, img)
      && (Dirty(img[Head(Main)]) || NewRoot(e, img[Head(Main)]))
      && (Dirty(img[Head(Backup)]) || NewRoot(e, img[Head(Backup)]))
  }

  ghost predicate OriginalImage(e: Job, img: Image)
    requires Ready(e) && Sized(e.g, img)
  {
    CopyOk(img, Main) && OriginalData(e, img) && OldRoot(e, img[Head(Main)])
  }

  lemma CertainData(e: Job, d: Device, img: Image)
    requires Ready(e) && Kept(e, d) && AfterCrash(d, img)
    ensures SureOriginal(e, d) ==> OriginalData(e, img)
    ensures SureCanonical(e, d) ==> CanonicalData(e, img)
  {
    hide Ready, Keeps, CanonicalPiece, CellContent, Survives;
    ReadySizes(e);
    forall p, x | Certain(d, p, x) ensures p in img && img[p] == x {
      CertainSurvives(d, img, p, x);
    }
    if SureOriginal(e, d) {
      forall i, j | CellOf(e, i, j)
        ensures OwnedCell(e, i, j) in img && img[OwnedCell(e, i, j)] == CellContent(e, i, j)
      {
        assert Certain(d, OwnedCell(e, i, j), CellContent(e, i, j));
      }
    }
    if SureCanonical(e, d) {
      forall i, j | CellOf(e, i, j)
        ensures TargetCell(e, i, j) in img && img[TargetCell(e, i, j)] == CanonicalPiece(e, i, j)
      {
        assert Certain(d, TargetCell(e, i, j), CanonicalPiece(e, i, j));
      }
    }
  }

  /** Every crash of a guarded device leaves a guarded image. */
  lemma CrashGuarded(e: Job, d: Device, img: Image)
    requires Ready(e) && Recoverable(e, d) && AfterCrash(d, img) && Guarded(e, d)
    ensures Sized(e.g, img) && GuardedImage(e, img)
  {
    hide Ready, Keeps, ValidCopy, SureCanonical, CanonicalData, NewRoot, Dirty, Mixed;
    CrashRecoverable(e, d, img);
    CertainData(e, d, img);
    SidesPresent(e, img);
    BootOptions(e, d, img, Main);
    BootOptions(e, d, img, Backup);
  }

  lemma BootOptions(e: Job, d: Device, img: Image, side: Side)
    requires Ready(e) && Recoverable(e, d) && AfterCrash(d, img) && Sized(e.g, img)
    ensures Head(side) in img && Head(side) in d.maybe && img[Head(side)] in d.maybe[Head(side)]
    ensures Sure(d, side) ==> CopyOk(img, side)
  {
    hide Ready, Keeps, ValidCopy, Mixed, NewRoots;
    AllSides(e, img);
    JournalOf(e, d);
    AllSides(e, d.now);
    assert Survives(Head(side), d.maybe[Head(side)], img[Head(side)]);
    if Sure(d, side) {
      CrashCopy(d, img, side);
    }
  }

  lemma CrashOriginal(e: Job, d: Device, img: Image)
    requires Ready(e) && Recoverable(e, d) && AfterCrash(d, img) && Before(e, d)
    ensures Sized(e.g, img) && OriginalImage(e, img)
  {
    hide Ready, Keeps, ValidCopy, SureOriginal, OriginalData, OldRoot, Mixed;
    CrashRecoverable(e, d, img);
    CertainData(e, d, img);
    BootOptions(e, d, img, Main);
  }

  /** Guarded and original images are safe. */
  lemma GuardedIsSafe(e: Job, img: Image)
    requires Ready(e) && Sized(e.g, img) && (GuardedImage(e, img) || OriginalImage(e, img))
    ensures SafeImage(e, img)
  {
    hide Ready, ValidCopy, CanonicalData, OriginalData, OldRoot, NewRoot, Dirty;
  }

  // ---- what runs keep ---------------------------------------------------------------------------

  ghost predicate AlwaysGuarded(e: Job, d: Device, ops: seq<Op>)
    requires Ready(e)
  {
    forall k | 0 <= k <= |ops| :: Guarded(e, Execute(d, ops[..k]))
  }

  lemma GuardedConcat(e: Job, d: Device, a: seq<Op>, b: seq<Op>)
    requires Ready(e) && AlwaysGuarded(e, d, a) && AlwaysGuarded(e, Execute(d, a), b)
    ensures AlwaysGuarded(e, d, a + b)
  {
    hide Ready, Guarded;
    forall k | 0 <= k <= |a + b| ensures Guarded(e, Execute(d, (a + b)[..k])) {
      if k <= |a| {
        assert (a + b)[..k] == a[..k];
      } else {
        assert (a + b)[..k] == a + b[..k - |a|];
        RunConcat(d, a, b[..k - |a|]);
      }
    }
  }

  lemma GuardedEnd(e: Job, d: Device, ops: seq<Op>)
    requires Ready(e) && AlwaysGuarded(e, d, ops)
    ensures Guarded(e, Execute(d, ops))
  {
    assert ops[..|ops|] == ops;
  }

  /** Data writes keep the main copy as dirty as it was. */
  lemma DataDuring(e: Job, d: Device, ops: seq<Op>)
    requires Ready(e) && Kept(e, d) && During(d) && DataOnly(ops)
    ensures During(Execute(d, ops))
    ensures forall k | 0 <= k <= |ops| :: During(Execute(d, ops[..k]))
  {
    hide Ready, Keeps, During;
    DataDuringOnce(e, d, ops);
    forall k | 0 <= k <= |ops| ensures During(Execute(d, ops[..k])) {
      DataDuringOnce(e, d, ops[..k]);
    }
  }

  lemma DataDuringOnce(e: Job, d: Device, ops: seq<Op>)
    requires Ready(e) && Kept(e, d) && During(d) && DataOnly(ops)
    ensures During(Execute(d, ops))
  {
    hide Ready, Keeps, Dirty, Sure;
    DataKeepsSure(e, d, ops, Main);
  }

  lemma DataKeepsSure(e: Job, d: Device, ops: seq<Op>, side: Side)
    requires Ready(e) && Kept(e, d) && Sure(d, side) && DataOnly(ops)
    ensures Sure(Execute(d, ops), side)
    ensures Head(side) in d.maybe && Head(side) in Execute(d, ops).maybe
    ensures Execute(d, ops).maybe[Head(side)] <= d.maybe[Head(side)]
  {
    hide Ready, Keeps, ValidCopy, Mixed;
    DataKeepsBoot(e, d, ops, Head(side));
    DataKeepsBoot(e, d, ops, Mid(side));
    DataKeepsBoot(e, d, ops, Sum(side));
    SureLess(d, Execute(d, ops), side);
  }

  /** Rewriting the backup copy keeps the main copy as dirty as it was. */
  lemma BackupDuring(e: Job, d: Device, c: Copy)
    requires Ready(e) && Recoverable(e, d) && During(d)
    ensures forall k | 0 <= k <= |UpdateOps(Backup, c)| :: During(Execute(d, UpdateOps(Backup, c)[..k]))
  {
    hide Ready, Keeps, During, Apply, UpdateOps;
    UpdateSteps(d, Backup, c);
    JournalOf(e, d);
    var d1 := Apply(d, Write(Head(Backup), c.head));
    var d2 := Apply(d1, Write(Mid(Backup), c.mid));
    var d3 := Apply(d2, Write(Sum(Backup), c.sum));
    ElsewhereDuring(d, Head(Backup), c.head);
    ElsewhereDuring(d1, Mid(Backup), c.mid);
    ElsewhereDuring(d2, Sum(Backup), c.sum);
    SyncDuring(d3);
    forall k | 0 <= k <= |UpdateOps(Backup, c)| ensures During(Execute(d, UpdateOps(Backup, c)[..k])) {
      assert k == 0 || k == 1 || k == 2 || k == 3 || k == 4;
    }
  }

  lemma ElsewhereDuring(d: Device, p: Place, x: seq<byte>)
    requires d.Valid() && During(d) && !AtSide(p, Main)
    ensures During(Apply(d, Write(p, x))) && Apply(d, Write(p, x)).Valid()
  {
    hide ValidCopy, Dirty, Mixed;
  }

  lemma SyncDuring(d: Device)
    requires d.Valid() && During(d)
    ensures During(Apply(d, Sync))
  {
    hide ValidCopy, Dirty, Mixed, Sure;
    SureSettled(d, Main);
  }

  /** A device that holds canonical data for certain, and heads dirty or new, stays so while a new head is written. */
  lemma UpdateAfter(e: Job, d: Device, side: Side, c: Copy)
    requires Ready(e) && Recoverable(e, d) && SureCanonical(e, d) && HeadsNew(e, d, Main)
    requires Dirty(c.head) || NewRoot(e, c.head)
    requires if side == Backup then Sure(d, Main) else HeadsNew(e, d, Backup)
    ensures forall k | 0 <= k <= |UpdateOps(side, c)| :: After(e, Execute(d, UpdateOps(side, c)[..k]))
  {
    hide Ready, Keeps, Dirty, NewRoot, SureCanonical, HeadsNew, Sure, Apply, Recoverable, UpdateOps;
    KeysOf(e, d);
    UpdateSteps(d, side, c);
    var d1 := Apply(d, Write(Head(side), c.head));
    var d2 := Apply(d1, Write(Mid(side), c.mid));
    var d3 := Apply(d2, Write(Sum(side), c.sum));
    BootWrite(e, d, Head(side), c.head);
    BootWrite(e, d1, Mid(side), c.mid);
    BootWrite(e, d2, Sum(side), c.sum);
    SyncKeeps(e, d3);
    assert side == Main || side == Backup;
    assert After(e, d1) && After(e, d2) && After(e, d3) && After(e, Apply(d3, Sync));
    forall k | 0 <= k <= |UpdateOps(side, c)| ensures After(e, Execute(d, UpdateOps(side, c)[..k])) {
      assert k == 0 || k == 1 || k == 2 || k == 3 || k == 4;
    }
  }

  lemma BootWrite(e: Job, d: Device, p: Place, x: seq<byte>)
    requires Ready(e) && d.Valid() && d.now.Keys == Places(e.g) && SureCanonical(e, d) && Boot(p)
    requires p.Head? ==> Dirty(x) || NewRoot(e, x)
    ensures var r := Apply(d, Write(p, x));
            && SureCanonical(e, r) && r.Valid() && r.now.Keys == Places(e.g)
            && (HeadsNew(e, d, Main) ==> HeadsNew(e, r, Main)) && (HeadsNew(e, d, Backup) ==> HeadsNew(e, r, Backup))
            && (p.side == Backup && Sure(d, Main) ==> Sure(r, Main))
  {
    hide Ready, ValidCopy, Dirty, NewRoot, CanonicalPiece, Mixed;
    SidePlaces(e, p.side);
    var r := Apply(d, Write(p, x));
    forall q, y | Certain(d, q, y) && !Boot(q) ensures Certain(r, q, y) { }
  }

  /** A sync only makes things more certain. */
  lemma SyncKeeps(e: Job, d: Device)
    requires Ready(e) && d.Valid()
    ensures var r := Apply(d, Sync);
            && (SureCanonical(e, d) ==> SureCanonical(e, r)) && (SureOriginal(e, d) ==> SureOriginal(e, r))
            && (HeadsNew(e, d, Main) ==> HeadsNew(e, r, Main)) && (HeadsNew(e, d, Backup) ==> HeadsNew(e, r, Backup))
            && (HeadsOld(e, d) ==> HeadsOld(e, r)) && (Sure(d, Main) ==> Sure(r, Main))
  {
    hide Ready, ValidCopy, Dirty, NewRoot, OldRoot, CanonicalPiece, CellContent, Sure;
    var r := Apply(d, Sync);
    forall p, x | Certain(d, p, x) ensures Certain(r, p, x) { }
    if Sure(d, Main) {
      SureSettled(d, Main);
    }
  }

  /** Settled images with whole layouts are certain of them. */
  lemma SettledData(e: Job, img: Image, journal: Option<seq<Record>>)
    requires Ready(e)
    ensures CanonicalData(e, img) ==> SureCanonical(e, Settled(img, journal))
    ensures OriginalData(e, img) ==> SureOriginal(e, Settled(img, journal))
  {
    hide Ready, CanonicalPiece, CellContent;
    ReadySizes(e);
    var d := Settled(img, journal);
    forall p | p in img ensures Certain(d, p, img[p]) { }
  }

  // ---- the first run ----------------------------------------------------------------------------

  /** Committing from a dirty, fully placed device. */
  lemma CommitGuarded(e: Job, d: Device, boots: Image)
    requires Ready(e) && Recoverable(e, d) && During(d)
    requires d == Settled(d.now, Some(e.m)) && PlacedAll(e, d.now) && CopiesKept(e, boots)
    ensures AlwaysGuarded(e, d, CommitOps(e, boots))
  {
    hide Ready, Keeps, ValidCopy, Sure, Kept, Execute, NewCopy, CanonicalPiece, Dirty, NewRoot, Recoverable, After,
         PlacedAll, SureCanonical, CopyKept, UpdateOps;
    var fat := [Write(Fat, e.fat), Sync];
    var b, m := NewCopy(e, CopyAt(boots, Backup)), NewCopy(e, CopyAt(boots, Main));
    FatStep(e, d);
    var d1 := Execute(d, fat);
    FatDuring(e, d);
    NewCopyKept(e, Backup, CopyAt(boots, Backup));
    UpdateAlways(e, d1, Backup, b);
    BackupDuring(e, d1, b);
    GuardedFromDuring(e, d, fat);
    GuardedFromDuring(e, d1, UpdateOps(Backup, b));
    GuardedConcat(e, d, fat, UpdateOps(Backup, b));
    RunConcat(d, fat, UpdateOps(Backup, b));
    var d2 := Execute(d1, UpdateOps(Backup, b));
    LastDuring(d1, UpdateOps(Backup, b));
    CommittedData(e, d.now, b);
    NewCopyKept(e, Main, CopyAt(boots, Main));
    FinalUpdate(e, d2, b.head, m);
    GuardedFromAfter(e, d2, UpdateOps(Main, m));
    GuardedConcat(e, d, fat + UpdateOps(Backup, b), UpdateOps(Main, m));
  }

  lemma LastDuring(d: Device, ops: seq<Op>)
    requires forall k | 0 <= k <= |ops| :: During(Execute(d, ops[..k]))
    ensures During(Execute(d, ops))
  {
    assert ops[..|ops|] == ops;
  }

  lemma FatDuring(e: Job, d: Device)
    requires Ready(e) && Recoverable(e, d) && During(d)
    ensures var ops := [Write(Fat, e.fat), Sync];
            During(Execute(d, ops)) && forall k | 0 <= k <= |ops| :: During(Execute(d, ops[..k]))
  {
    hide Ready, Keeps, ValidCopy, Execute;
    DataDuring(e, d, [Write(Fat, e.fat), Sync]);
  }

  lemma GuardedFromDuring(e: Job, d: Device, ops: seq<Op>)
    requires Ready(e) && forall k | 0 <= k <= |ops| :: During(Execute(d, ops[..k]))
    ensures AlwaysGuarded(e, d, ops)
  {
    hide Ready, During, After;
  }

  lemma GuardedFromAfter(e: Job, d: Device, ops: seq<Op>)
    requires Ready(e) && forall k | 0 <= k <= |ops| :: After(e, Execute(d, ops[..k]))
    ensures AlwaysGuarded(e, d, ops)
  {
    hide Ready, During, After;
  }

  lemma CommittedData(e: Job, img: Image, c: Copy)
    requires Ready(e) && PlacedAll(e, img)
    ensures CanonicalData(e, WithCopy(img[Fat := e.fat], Backup, c))
  {
    hide Ready, CanonicalPiece;
  }

  /** Writing the main copy last, once everything else is canonical and synced. */
  lemma FinalUpdate(e: Job, d: Device, backup: seq<byte>, c: Copy)
    requires Ready(e) && Recoverable(e, d) && d == Settled(d.now, d.journal) && CanonicalData(e, d.now)
    requires During(d) || (Sure(d, Main) && HeadsNew(e, d, Main))
    requires Head(Backup) in d.now && d.now[Head(Backup)] == backup && NewRoot(e, backup) && NewRoot(e, c.head)
    ensures forall k | 0 <= k <= |UpdateOps(Main, c)| :: After(e, Execute(d, UpdateOps(Main, c)[..k]))
  {
    hide Ready, Keeps, ValidCopy, Execute, CanonicalData, SureCanonical, Dirty, After, NewRoot, Sure, UpdateOps;
    SettledData(e, d.now, d.journal);
    assert HeadsNew(e, d, Main);
    assert HeadsNew(e, d, Backup) by { assert d.maybe[Head(Backup)] == {backup}; }
    UpdateAfter(e, d, Main, c);
  }

  /** Publishing the dirty flag happens on original data, and leaves the main copy certainly dirty. */
  lemma DirtyBefore(e: Job, img: Image)
    requires Ready(e) && StagedImage(e, img)
    ensures Sized(e.g, e.orig)
    ensures forall k | 0 <= k <= |DirtyOps(e.orig)| ::
              Before(e, Execute(Settled(img, Some(e.m)), DirtyOps(e.orig)[..k]))
    ensures During(Execute(Settled(img, Some(e.m)), DirtyOps(e.orig)))
  {
    hide Ready, Execute, DirtyHead, StagedImage, Before, During, Apply, DirtyOps, Places;
    ReadySizes(e);
    DirtyOpsAre(e);
    StagedBefore(e, img);
    var d := Settled(img, Some(e.m));
    var d1 := Apply(d, Write(Head(Backup), DirtyHead(e, Backup)));
    var d2 := Apply(d1, Sync);
    var d3 := Apply(d2, Write(Head(Main), DirtyHead(e, Main)));
    FourSteps(d, Write(Head(Backup), DirtyHead(e, Backup)), Sync, Write(Head(Main), DirtyHead(e, Main)), Sync);
    StagedRecoverable(e, img);
    ImageSized(e, img);
    BackupHeadBefore(e, d);
    SyncBefore(e, d1);
    BackupMarked(e, img);
    MainHeadBefore(e, d2);
    SyncBefore(e, d3);
    MainSynced(e, d3);
    BeforeThroughout(e, d, DirtyOps(e.orig));
  }

  lemma BackupMarked(e: Job, img: Image)
    requires Ready(e) && Sized(e.g, img) && CopyOk(img, Main) && AtSideOrig(e, img, Main)
    ensures var r := img[Head(Backup) := DirtyHead(e, Backup)];
            Sized(e.g, r) && CopyOk(r, Main) && AtSideOrig(e, r, Main)
  {
    hide Ready, ValidCopy;
    DirtyHeadKept(e, Backup);
    SidesPresent(e, img);
  }

  lemma BeforeThroughout(e: Job, d: Device, ops: seq<Op>)
    requires Ready(e) && |ops| == 4
    requires Before(e, Execute(d, ops[..0])) && Before(e, Execute(d, ops[..1])) && Before(e, Execute(d, ops[..2]))
    requires Before(e, Execute(d, ops[..3])) && Before(e, Execute(d, ops[..4]))
    ensures forall k | 0 <= k <= |ops| :: Before(e, Execute(d, ops[..k]))
  {
    hide Ready, Before, Execute;
    forall k | 0 <= k <= |ops| ensures Before(e, Execute(d, ops[..k])) {
      assert k == 0 || k == 1 || k == 2 || k == 3 || k == 4;
    }
  }

  lemma StagedBefore(e: Job, img: Image)
    requires Ready(e) && StagedImage(e, img)
    ensures var d := Settled(img, Some(e.m));
            Before(e, d) && d.Valid() && d.now.Keys == Places(e.g) && AtSideOrig(e, d.now, Main)
  {
    hide Ready, Keeps, ValidCopy, DirtyHead, StagedImage, OriginalData, SureOriginal, OldRoot, Dirty, Sure;
    ReadySizes(e);
    StagedRecoverable(e, img);
    ImageSized(e, img);
    SettledRecoverable(e, img);
    StagedBoot(e, img);
    StagedOriginal(e, img);
    SettledData(e, img, Some(e.m));
    DirtyHeadOld(e);
    assert Boot(Head(Main)) && Boot(Mid(Main)) && Boot(Sum(Main));
  }

  lemma DirtyHeadOld(e: Job)
    requires Ready(e)
    ensures Head(Main) in e.orig && Sum(Main) in e.orig && Mid(Main) in e.orig
    ensures OldRoot(e, e.orig[Head(Main)]) && OldRoot(e, DirtyHead(e, Main)) && Dirty(DirtyHead(e, Main))
    ensures ValidCopy(e.orig[Head(Main)], e.orig[Mid(Main)], e.orig[Sum(Main)])
    ensures ValidCopy(DirtyHead(e, Main), e.orig[Mid(Main)], e.orig[Sum(Main)])
  {
    hide Ready, FlaggedHead, Dirty, ValidCopy, Keeps;
    ReadySizes(e);
    OrigKept(e, Main);
    DirtyHeadKept(e, Main);
    FlaggedFields(e.orig[Head(Main)], DirtyFlags(e));
  }

  lemma StagedOriginal(e: Job, img: Image)
    requires Ready(e) && StagedImage(e, img)
    ensures OriginalData(e, img)
  {
    hide Ready;
    ReadySizes(e);
    StagedBoot(e, img);
    forall i, j | CellOf(e, i, j) ensures OwnedCell(e, i, j) in img && img[OwnedCell(e, i, j)] == CellContent(e, i, j) {
      OwnedInside(e, i, j);
    }
  }

  lemma CertainElsewhere(e: Job, d: Device, p: Place, x: seq<byte>)
    requires Ready(e) && d.Valid() && Boot(p) && SureOriginal(e, d)
    ensures SureOriginal(e, Apply(d, Write(p, x)))
  {
    hide Ready, CellContent;
    ReadySizes(e);
    var r := Apply(d, Write(p, x));
    forall q, y | Certain(d, q, y) && !Boot(q) ensures Certain(r, q, y) { }
  }

  lemma BackupHeadBefore(e: Job, d: Device)
    requires Ready(e) && d.Valid() && d.now.Keys == Places(e.g) && Before(e, d)
    ensures var r := Apply(d, Write(Head(Backup), DirtyHead(e, Backup)));
            Before(e, r) && r.Valid() && r.now == d.now[Head(Backup) := DirtyHead(e, Backup)] && r.journal == d.journal
  {
    hide Ready, ValidCopy, OldRoot, SureOriginal, Mixed;
    CertainElsewhere(e, d, Head(Backup), DirtyHead(e, Backup));
  }

  lemma SyncBefore(e: Job, d: Device)
    requires Ready(e) && d.Valid() && Before(e, d)
    ensures var r := Apply(d, Sync); Before(e, r) && r.Valid() && r == Settled(d.now, d.journal)
  {
    hide Ready, SureOriginal, HeadsOld, Sure;
    SyncKeeps(e, d);
  }

  lemma MainHeadBefore(e: Job, d: Device)
    requires Ready(e) && d.Valid() && d.now.Keys == Places(e.g) && Before(e, d) && d == Settled(d.now, Some(e.m))
    requires Sized(e.g, d.now) && CopyOk(d.now, Main) && AtSideOrig(e, d.now, Main)
    ensures var r := Apply(d, Write(Head(Main), DirtyHead(e, Main)));
            Before(e, r) && r.Valid() && r.now == d.now[Head(Main) := DirtyHead(e, Main)]
  {
    hide Ready, ValidCopy, OldRoot, SureOriginal, Sure, DirtyHead;
    DirtyHeadOld(e);
    DirtyKeepsMain(e, d.now, Main);
    CertainElsewhere(e, d, Head(Main), DirtyHead(e, Main));
  }

  lemma MainSynced(e: Job, d: Device)
    requires Ready(e) && d.Valid() && Head(Main) in d.now && d.now[Head(Main)] == DirtyHead(e, Main)
    requires Before(e, Apply(d, Sync))
    ensures During(Apply(d, Sync))
  {
    hide Ready, Sure, SureOriginal;
    DirtyHeadOld(e);
  }

  /** The uninterrupted run: original until the dirty flag is synced, guarded from then on. */
  lemma CompleteIsGuarded(e: Job, img: Image, order: seq<nat>)
    requires Ready(e) && StagedImage(e, img) && Permutation(order, |e.m|) && Indexes(e, order)
    ensures Sized(e.g, e.orig)
    ensures AlwaysGuarded(e, Execute(Settled(img, Some(e.m)), DirtyOps(e.orig)),
            ReplayOps(e, order) + CommitOps(e, e.orig))
  {
    hide Ready, Keeps, ValidCopy, Sure, Kept, Execute, ReplayOps, CommitOps, DirtyOps, PlacedAll, Permutation,
         StagedImage, RecoverableImage, MarkedDirty, During, Recoverable, Before;
    ReadySizes(e);
    DirtyAlways(e, img);
    DirtyBefore(e, img);
    var dirty := MarkedDirty(e, img);
    SettledRecoverable(e, dirty);
    var d1 := Settled(dirty, Some(e.m));
    ReplayAlways(e, d1, order);
    ReplayDuring(e, d1, order);
    GuardedFromDuring(e, d1, ReplayOps(e, order));
    var d2 := Execute(d1, ReplayOps(e, order));
    LastDuring(d1, ReplayOps(e, order));
    OrigBootKept(e);
    CommitGuarded(e, d2, e.orig);
    GuardedConcat(e, d1, ReplayOps(e, order), CommitOps(e, e.orig));
  }

  lemma ReplayDuring(e: Job, d: Device, order: seq<nat>)
    requires Ready(e) && Recoverable(e, d) && During(d) && Indexes(e, order)
    ensures forall k | 0 <= k <= |ReplayOps(e, order)| :: During(Execute(d, ReplayOps(e, order)[..k]))
  {
    hide Ready, Keeps, ValidCopy, Execute, PlaceOps, During;
    PlaceIsData(e, order, |order|);
    DataDuring(e, d, ReplayOps(e, order));
  }

  /** Rollback: guarded until everything but the main copy is original and synced, original from then on. */
  lemma StoppedIsSafe(e: Job, img: Image, order: seq<nat>, stop: nat, k: nat)
    requires Ready(e) && StagedImage(e, img) && Indexes(e, order) && stop <= |PlaceOps(e, order, |order|)|
    requires k <= |StoppedOps(e, order, stop)|
    ensures var d := Execute(Settled(img, Some(e.m)), StoppedOps(e, order, stop)[..k]); Guarded(e, d) || Before(e, d)
  {
    hide Ready, Keeps, ValidCopy, Sure, Kept, Execute, PlaceOps, BackOps, DirtyOps, UpdateOps, StagedImage,
         RecoverableImage, CellContent, During, After, Before, Recoverable, MarkedDirty, DirtyHead, MarkedMain,
         SameBoot;
    ReadySizes(e);
    OrigBootKept(e);
    DirtyAlways(e, img);
    DirtyBefore(e, img);
    var d := Settled(img, Some(e.m));
    var dirty := MarkedDirty(e, img);
    SettledRecoverable(e, dirty);
    var d1 := Settled(dirty, Some(e.m));
    var back := PlaceOps(e, order, |order|)[..stop] + (BackOps(e, |e.lists|) + [Sync]);
    BackAlways(e, d1, order, stop);
    BackDuring(e, d1, order, stop);
    var d2 := Execute(d1, back);
    MarkedStays(e, img, d2.now);
    FatOfMarked(e, img);
    var b := UpdateOps(Backup, CopyAt(e.orig, Backup));
    var m := UpdateOps(Main, CopyAt(e.orig, Main));
    BackupThen(e, d2);
    MainBack(e, d2);
    var a := DirtyOps(e.orig);
    assert StoppedOps(e, order, stop) == a + back + b + m;
    Prefixes(d, a, back, b, m, k);
  }

  lemma FatOfMarked(e: Job, img: Image)
    requires Ready(e) && StagedImage(e, img)
    ensures Fat in MarkedDirty(e, img) && Fat in e.orig && MarkedDirty(e, img)[Fat] == e.orig[Fat]
  {
    hide Ready, DirtyHead;
    ReadySizes(e);
    StagedBoot(e, img);
  }

  /** A prefix of four concatenated runs ends inside one of them. */
  lemma Prefixes(d: Device, a: seq<Op>, b: seq<Op>, c: seq<Op>, f: seq<Op>, k: nat)
    requires k <= |a + b + c + f|
    ensures var ops := a + b + c + f;
            if k <= |a| then ops[..k] == a[..k]
            else if k <= |a + b| then Execute(d, ops[..k]) == Execute(Execute(d, a), b[..k - |a|])
            else if k <= |a + b + c| then Execute(d, ops[..k]) == Execute(Execute(Execute(d, a), b), c[..k - |a + b|])
            else Execute(d, ops[..k]) == Execute(Execute(Execute(Execute(d, a), b), c), f[..k - |a + b + c|])
  {
    hide Execute;
    var ops := a + b + c + f;
    RunConcat(d, a, b);
    RunConcat(d, a + b, c);
    if k <= |a| {
    } else if k <= |a + b| {
      assert ops[..k] == a + b[..k - |a|];
      RunConcat(d, a, b[..k - |a|]);
    } else if k <= |a + b + c| {
      assert ops[..k] == a + b + c[..k - |a + b|];
      RunConcat(d, a + b, c[..k - |a + b|]);
    } else {
      assert ops[..k] == a + b + c + f[..k - |a + b + c|];
      RunConcat(d, a + b + c, f[..k - |a + b + c|]);
    }
  }

  lemma BackDuring(e: Job, d: Device, order: seq<nat>, stop: nat)
    requires Ready(e) && Recoverable(e, d) && During(d) && Indexes(e, order) && stop <= |PlaceOps(e, order, |order|)|
    ensures var ops := PlaceOps(e, order, |order|)[..stop] + (BackOps(e, |e.lists|) + [Sync]);
            During(Execute(d, ops)) && (forall k | 0 <= k <= |ops| :: During(Execute(d, ops[..k])))
  {
    hide Ready, Keeps, ValidCopy, Execute, PlaceOps, BackOps, During;
    PlaceIsData(e, order, |order|);
    BackIsData(e, |e.lists|);
    var ops := PlaceOps(e, order, |order|)[..stop] + (BackOps(e, |e.lists|) + [Sync]);
    assert DataOnly(ops);
    DataDuring(e, d, ops);
  }

  lemma BackupThen(e: Job, d: Device)
    requires Ready(e) && Recoverable(e, d) && Sure(d, Main) && During(d)
    ensures Sized(e.g, e.orig)
    ensures var b := UpdateOps(Backup, CopyAt(e.orig, Backup));
            && (forall k | 0 <= k <= |b| :: During(Execute(d, b[..k])))
            && Execute(d, b) == Settled(WithCopy(d.now, Backup, CopyAt(e.orig, Backup)), d.journal)
            && Recoverable(e, Execute(d, b))
  {
    hide Ready, Keeps, ValidCopy, Sure, Kept, Execute, During, Recoverable, UpdateOps, NewRoots;
    OrigKept(e, Backup);
    SureHeld(e, d);
    UpdateAlways(e, d, Backup, CopyAt(e.orig, Backup));
    BackupDuring(e, d, CopyAt(e.orig, Backup));
  }

  /** Restoring the main copy: from the dirty original head to the clean one, over original data. */
  lemma MainBack(e: Job, d: Device)
    requires Ready(e) && Recoverable(e, d) && MarkedMain(e, d.now) && Sized(e.g, e.orig)
    requires Fat in d.now && d.now[Fat] == e.orig[Fat]
    requires forall i, j | CellOf(e, i, j) ::
               OwnedCell(e, i, j) in d.now && d.now[OwnedCell(e, i, j)] == CellContent(e, i, j)
    ensures var d3 := Settled(WithCopy(d.now, Backup, CopyAt(e.orig, Backup)), Some(e.m));
            var m := UpdateOps(Main, CopyAt(e.orig, Main));
            forall k | 0 <= k <= |m| :: Before(e, Execute(d3, m[..k]))
  {
    hide Ready, Keeps, ValidCopy, Kept, Execute, CellContent, DirtyHead, OldRoot, Dirty, SureOriginal, Sure, UpdateOps,
         Recoverable;
    ReadySizes(e);
    JournalOf(e, d);
    var img := WithCopy(d.now, Backup, CopyAt(e.orig, Backup));
    AllSides(e, d.now);
    assert OriginalData(e, img);
    SettledData(e, img, Some(e.m));
    MainRestored(e, Settled(img, Some(e.m)));
  }

  lemma KeysOf(e: Job, d: Device)
    requires Ready(e) && Recoverable(e, d)
    ensures d.Valid() && d.now.Keys == Places(e.g)
  {
  }

  lemma MainRestored(e: Job, d: Device)
    requires Ready(e) && d.Valid() && SureOriginal(e, d) && d == Settled(d.now, Some(e.m)) && d.now.Keys == Places(e.g)
    requires MarkedMain(e, d.now) && Sized(e.g, e.orig)
    ensures var m := UpdateOps(Main, CopyAt(e.orig, Main)); forall k | 0 <= k <= |m| :: Before(e, Execute(d, m[..k]))
  {
    hide Ready, ValidCopy, Execute, CellContent, DirtyHead, OldRoot, Dirty, SureOriginal, Places, Sure, UpdateOps;
    var c := CopyAt(e.orig, Main);
    UpdateSteps(d, Main, c);
    RestoringMain(e, d);
    RestoringOld(e, d);
    MarkedSure(e, d);
    var d1 := Apply(d, Write(Head(Main), c.head));
    var d2 := Apply(d1, Write(Mid(Main), c.mid));
    var d3 := Apply(d2, Write(Sum(Main), c.sum));
    CertainElsewhere(e, d, Head(Main), c.head);
    CertainElsewhere(e, d1, Mid(Main), c.mid);
    CertainElsewhere(e, d2, Sum(Main), c.sum);
    assert d3.Valid();
    SyncBefore(e, d3);
    forall k | 0 <= k <= |UpdateOps(Main, c)| ensures Before(e, Execute(d, UpdateOps(Main, c)[..k])) {
      assert k == 0 || k == 1 || k == 2 || k == 3 || k == 4;
    }
  }

  lemma MarkedSure(e: Job, d: Device)
    requires Ready(e) && d == Settled(d.now, Some(e.m)) && MarkedMain(e, d.now)
    ensures Sure(d, Main)
  {
    hide Ready, ValidCopy, DirtyHead;
    DirtyHeadOld(e);
    SyncedSure(d, Main);
  }

  lemma RestoringOld(e: Job, d: Device)
    requires Ready(e) && d.Valid() && d == Settled(d.now, Some(e.m)) && MarkedMain(e, d.now) && Sized(e.g, e.orig)
    ensures HeadsOld(e, d)
    ensures var c := CopyAt(e.orig, Main);
            var d1 := Apply(d, Write(Head(Main), c.head));
            var d2 := Apply(d1, Write(Mid(Main), c.mid));
            HeadsOld(e, d1) && HeadsOld(e, d2) && HeadsOld(e, Apply(d2, Write(Sum(Main), c.sum)))
  {
    hide Ready, ValidCopy, DirtyHead, OldRoot;
    DirtyHeadOld(e);
  }

  /** Clean-flag safety of every first run: whatever a crash leaves, at any step of a completed or a stopped and
      rolled-back run, a valid clean main copy stands over one whole layout. */
  lemma FirstRunSafe(e: Job, img: Image)
    requires Ready(e) && CrashedInRun(e, img)
    ensures Sized(e.g, img) && SafeImage(e, img) && (GuardedImage(e, img) || OriginalImage(e, img))
  {
    hide Ready, Recoverable, Execute, Permutation, StagedImage, CompleteOps, StoppedOps, PlaceOps, AfterCrash, Guarded,
         Before, SafeImage, GuardedImage, OriginalImage, Sized, Always;
    var staged, order, ops, k: nat :| FirstRunTo(e, staged, order, ops, k, img);
    var d := Execute(Settled(staged, Some(e.m)), ops[..k]);
    if ops == CompleteOps(e, order) {
      CompleteIsSafe(e, staged, order, k);
      var final := CompleteRun(e, staged, order);
      AlwaysAt(e, Settled(staged, Some(e.m)), ops, k);
    } else {
      var stop: nat :| stop <= |PlaceOps(e, order, |order|)| && ops == StoppedOps(e, order, stop);
      StoppedIsSafe(e, staged, order, stop, k);
      var final := StoppedRun(e, staged, order, stop);
      AlwaysAt(e, Settled(staged, Some(e.m)), ops, k);
    }
    if Guarded(e, d) { CrashGuarded(e, d, img); } else { CrashOriginal(e, d, img); }
    GuardedIsSafe(e, img);
  }

  lemma AlwaysAt(e: Job, d: Device, ops: seq<Op>, k: nat)
    requires Ready(e) && Always(e, d, ops) && k <= |ops|
    ensures Recoverable(e, Execute(d, ops[..k]))
  {
  }

  lemma CompleteIsSafe(e: Job, img: Image, order: seq<nat>, k: nat)
    requires Ready(e) && StagedImage(e, img) && Permutation(order, |e.m|) && Indexes(e, order)
    requires k <= |CompleteOps(e, order)|
    ensures var d := Execute(Settled(img, Some(e.m)), CompleteOps(e, order)[..k]); Guarded(e, d) || Before(e, d)
  {
    hide Ready, Execute, StagedImage, Permutation, ReplayOps, CommitOps, DirtyOps, Guarded, Before, During;
    ReadySizes(e);
    CompleteIsGuarded(e, img, order);
    DirtyBefore(e, img);
    var d := Settled(img, Some(e.m));
    var a := DirtyOps(e.orig);
    var b := ReplayOps(e, order) + CommitOps(e, e.orig);
    assert CompleteOps(e, order) == a + b;
    if k <= |a| {
      assert (a + b)[..k] == a[..k];
    } else {
      assert (a + b)[..k] == a + b[..k - |a|];
      RunConcat(d, a, b[..k - |a|]);
    }
  }
}
