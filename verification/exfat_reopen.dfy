/** Recovery opens the repaired volume before it touches anything else. Opening a volume the first time looks at the
    parameters and flags of the main boot copy only; this says exactly when that comes back as a refusal. */
module ExfatReopen {
  import opened Bytes
  import opened ExfatPlan
  import opened ExfatBoot
  import opened ExfatOpen
  import opened ExfatDevice
  import opened ExfatProtocol
  import opened ExfatRecovery
  import opened ExfatReplay
  import opened ExfatCourse
  import opened ExfatGuarded
  import opened Wrappers

  /** With a backup that fits, or a main copy whose checksum does not change, no recovery is refused. */
  lemma OpensWhenSound(e: Job, img: Image)
    requires Ready(e) && RecoverableImage(e, img) && (BackupFits(e) || Steady(e))
    ensures Sized(e.g, img) && Opens(e, Repaired(e.g, img))
  {
    hide Ready, ValidCopy, Opens, Fits, NewRoot, Repaired, BackupFits, Steady;
    ImageSized(e, img);
    RepairAlways(e, img);
    var fixed := Repaired(e.g, img);
    KeepsSize(e, Head(Main), fixed[Head(Main)]);
    OpensExactly(e, fixed);
  }

  // ---- the run that is refused ------------------------------------------------------------------

  /** The device after the backup copy of the final commit, and what has been written on the way. */
  lemma BackupCommitted(e: Job, staged: Image, order: seq<nat>) returns (img: Image, done: nat)
    requires Ready(e) && StagedImage(e, staged) && Permutation(order, |e.m|) && Indexes(e, order)
    ensures Sized(e.g, e.orig) && done + 4 == |CompleteOps(e, order)|
    ensures Execute(Settled(staged, Some(e.m)), CompleteOps(e, order)[..done]) == Settled(img, Some(e.m))
    ensures CompleteOps(e, order)[done] == Write(Head(Main), NewHead(e, e.orig[Head(Main)]))
    ensures Recoverable(e, Settled(img, Some(e.m)))
    ensures AllBoot(img) && CopyAt(img, Backup) == NewCopy(e, CopyAt(e.orig, Backup))
    ensures img[Mid(Main)] == e.orig[Mid(Main)] && img[Sum(Main)] == e.orig[Sum(Main)]
  {
    hide Ready, Keeps, ValidCopy, Sure, Kept, Execute, ReplayOps, NewCopy, DirtyOps, Always, PlacedAll, Permutation,
         Indexes, StagedImage, RecoverableImage, MarkedDirty, Recoverable, CopyKept, SameBoot;
    var d := Settled(staged, Some(e.m));
    DirtyAlways(e, staged);
    var dirty := MarkedDirty(e, staged);
    SettledRecoverable(e, dirty);
    var d1 := Settled(dirty, Some(e.m));
    ReplayAlways(e, d1, order);
    var d2 := Execute(d1, ReplayOps(e, order));
    MarkedStays(e, staged, d2.now);
    OrigBootKept(e);
    var fat := [Write(Fat, e.fat), Sync];
    FatStep(e, d2);
    var d3 := Execute(d2, fat);
    var b, m := NewCopy(e, CopyAt(e.orig, Backup)), NewCopy(e, CopyAt(e.orig, Main));
    NewCopyKept(e, Backup, CopyAt(e.orig, Backup));
    SureHeld(e, d3);
    UpdateAlways(e, d3, Backup, b);
    img := WithCopy(d3.now, Backup, b);
    var front := DirtyOps(e.orig) + ReplayOps(e, order) + fat + UpdateOps(Backup, b);
    done := |front|;
    assert CompleteOps(e, order) == front + UpdateOps(Main, m);
    assert CompleteOps(e, order)[..done] == front;
    RunConcat(d, DirtyOps(e.orig), ReplayOps(e, order));
    RunConcat(d, DirtyOps(e.orig) + ReplayOps(e, order), fat);
    RunConcat(d, DirtyOps(e.orig) + ReplayOps(e, order) + fat, UpdateOps(Backup, b));
    JournalOf(e, d2);
    AllSides(e, d2.now);
    CommittedReads(e, d2.now, b);
    NewCopyParts(e, CopyAt(e.orig, Main));
    assert CompleteOps(e, order)[done] == UpdateOps(Main, m)[0];
  }

  predicate AllBoot(img: Image) {
    && Head(Main) in img && Mid(Main) in img && Sum(Main) in img
    && Head(Backup) in img && Mid(Backup) in img && Sum(Backup) in img
  }

  lemma CommittedReads(e: Job, before: Image, b: Copy)
    requires Ready(e) && MarkedMain(e, before) && AllBoot(before)
    ensures var img := WithCopy(before[Fat := e.fat], Backup, b);
            && AllBoot(img) && CopyAt(img, Backup) == b
            && img[Mid(Main)] == before[Mid(Main)] && img[Sum(Main)] == before[Sum(Main)]
  {
    hide Ready;
  }

  /** A crash right after sector 0 of the main copy leaves that copy invalid, unless its checksum has not changed. */
  lemma TornMain(e: Job, img: Image)
    requires Ready(e) && !Steady(e) && AllBoot(img) && Sized(e.g, e.orig)
    requires img[Head(Main)] == NewHead(e, e.orig[Head(Main)])
    requires img[Mid(Main)] == e.orig[Mid(Main)] && img[Sum(Main)] == e.orig[Sum(Main)]
    ensures !CopyOk(img, Main)
  {
    hide Ready, HeadSum, BootHead;
    OpenedMain(e);
    ReadySizes(e);
    OneSum(e.orig[Sum(Main)], HeadSum(e.orig[Head(Main)], e.orig[Mid(Main)]), HeadSum(img[Head(Main)], img[Mid(Main)]));
  }

  lemma OneSum(sum: seq<byte>, v: int, w: int)
    requires |sum| >= 4 && Filled(sum, v) && v != w
    ensures !Filled(sum, w)
  {
    assert U32(sum, 0) == v;
  }

  /** The failing run. With a backup that does not fit and a checksum that changes, a crash of the very first run
      between the two boot copies of the commit leaves a volume that recovery repairs from the backup, and
          then refuses. */
  lemma FirstRunRefused(e: Job, staged: Image) returns (img: Image)
    requires Ready(e) && StagedImage(e, staged) && !BackupFits(e) && !Steady(e)
    ensures CrashedInRun(e, img) && Sized(e.g, img) && !Opens(e, Repaired(e.g, img))
  {
    hide Ready, Keeps, ValidCopy, Execute, Permutation, StagedImage, RecoverableImage, Recoverable, CompleteOps,
         NewCopy, Opens, Fits, BackupFits, Steady, AfterCrash, NewHead, Apply, Repaired;
    ReadyTargets(e);
    InOrderPermutes(|e.m|);
    var order := InOrder(|e.m|);
    var before, done := BackupCommitted(e, staged, order);
    var ops := CompleteOps(e, order);
    var w := Write(Head(Main), NewHead(e, e.orig[Head(Main)]));
    assert ops[..done + 1] == ops[..done] + [w];
    RunSome(Settled(staged, Some(e.m)), ops[..done], w);
    img := before[Head(Main) := NewHead(e, e.orig[Head(Main)])];
    OneWritten(before, Head(Main), NewHead(e, e.orig[Head(Main)]));
    assert FirstRunTo(e, staged, order, ops, done + 1, img);
    FirstCrash(e, staged, order, ops, done + 1, img);
    ImageSized(e, img);
    TornMain(e, img);
    RepairedFromBackup(e, img);
  }

  lemma OneWritten(before: Image, p: Place, x: seq<byte>)
    requires p in before && Sector(p)
    ensures forall j :: AfterCrash(Apply(Settled(before, j), Write(p, x)), before[p := x])
  {
    hide Mixed;
    forall q | q in before ensures Mixed({before[q]}, before[q]) {
      MixedOne(before[q], before[q]);
    }
  }

  lemma RepairedFromBackup(e: Job, img: Image)
    requires Ready(e) && RecoverableImage(e, img) && !CopyOk(img, Main) && !BackupFits(e)
    requires Sized(e.g, img) && AllBoot(img) && Sized(e.g, e.orig) && AllBoot(e.orig)
    requires CopyAt(img, Backup) == NewCopy(e, CopyAt(e.orig, Backup))
    ensures !Opens(e, Repaired(e.g, img))
  {
    hide Ready, Keeps, ValidCopy, Opens, Fits, NewRoot, RecoverableImage;
    RepairAlways(e, img);
    OpensExactly(e, Repaired(e.g, img));
    BackupStaysUnfit(e);
  }

  /** The new root does not make a backup fit. */
  lemma BackupStaysUnfit(e: Job)
    requires Ready(e) && !BackupFits(e)
    ensures Sized(e.g, e.orig) && |e.orig[Head(Backup)]| >= MIN_SECTOR && !Fits(e, NewHead(e, e.orig[Head(Backup)]))
  {
    hide Ready, BootHead, SameVolume, MediaFailure, Kin;
    ReadySizes(e);
    ReadyTargets(e);
    var head := e.orig[Head(Backup)];
    BootHeadFields(head, e.targets[2], false, Percent(e));
    BootHeadMedia(head, e.targets[2], false, Percent(e));
    KinBack(head, NewHead(e, head));
    KinSameVolume(NewHead(e, head), head);
    if SameVolume(e.orig[Head(Main)], NewHead(e, head)) {
      SameVolumeTrans(e.orig[Head(Main)], NewHead(e, head), head);
    }
  }

  lemma KinBack(a: seq<byte>, b: seq<byte>)
    requires Kin(a, b)
    ensures Kin(b, a)
  {
  }

  // ---- exactly when -----------------------------------------------------------------------------

  /** No recovery is ever refused, after any number of crashes of the run, its rollback and recoveries. */
  ghost predicate NeverRefused(e: Job)
    requires Ready(e)
  {
    forall n: nat, img | Crashed(e, n, img) :: Sized(e.g, img) && Opens(e, Repaired(e.g, img))
  }

  /** Recovery opens its volume over all runs exactly when the backup copy describes the same volume as the main one and
      reports no media failure, or the checksum of the main copy does not change with the root. */
  lemma NeverRefusedExactly(e: Job)
    requires Ready(e)
    ensures NeverRefused(e) <==> BackupFits(e) || Steady(e)
  {
    hide Ready, Opens, BackupFits, Steady, RecoverableImage, Repaired, Sized, CrashedInRun, RecoveryTo;
    if BackupFits(e) || Steady(e) {
      forall n: nat, img | Crashed(e, n, img) ensures Sized(e.g, img) && Opens(e, Repaired(e.g, img)) {
        AnyNumberOfCrashes(e, n, img);
        OpensWhenSound(e, img);
      }
    } else {
      var staged := Published(e);
      var img := FirstRunRefused(e, staged);
      assert Crashed(e, 0, img);
    }
  }

  /** The checksum does not change when the root directory stays where it is. */
  lemma SteadyWhenRootStays(e: Job)
    requires Ready(e) && Sized(e.g, e.orig) && |e.targets| > 2 && RootOf(e.orig[Head(Main)]) == e.targets[2]
    ensures Steady(e)
  {
    hide Ready, BootHead, HeadSum;
    ReadyTargets(e);
    BootHeadFields(e.orig[Head(Main)], e.targets[2], false, Percent(e));
    KinSum(e.orig[Head(Main)], NewHead(e, e.orig[Head(Main)]), e.orig[Mid(Main)]);
  }

  /** Two copies that differ in nothing but a media failure reported by the backup: it does not fit. */
  lemma MediaFailureUnfit(e: Job)
    requires Ready(e) && Sized(e.g, e.orig) && MediaFailure(e.orig[Head(Backup)])
    ensures !BackupFits(e)
  {
    hide Ready, SameVolume;
  }

  /** A refusal is final: with both copies valid nothing is written any more, so every later recovery is refused too. */
  lemma {:induction false} RefusedForever(e: Job, img: Image, n: nat, later: Image)
    requires Ready(e) && RecoverableImage(e, img) && CopyOk(img, Main) && CopyOk(img, Backup) && !Opens(e, img)
    requires CrashedFrom(e, img, n, later)
    ensures later == img
  {
    hide Ready, Opens, CopyOk, RecoveryTo, RecoverableImage;
    if n > 0 {
      var before, order, k: nat :| CrashedFrom(e, img, n - 1, before) && RecoveryTo(e, before, order, k, later);
      RefusedForever(e, img, n - 1, before);
      RefusedOnce(e, img, order, k, later);
    }
  }

  lemma RefusedOnce(e: Job, img: Image, order: seq<nat>, k: nat, later: Image)
    requires Ready(e) && CopyOk(img, Main) && CopyOk(img, Backup) && !Opens(e, img)
             && RecoveryTo(e, img, order, k, later)
    ensures later == img
  {
    hide Ready, Opens, CopyOk, AfterCrash, Permutation;
    assert RecoverOps(e, img, order) == [] && RecoverOps(e, img, order)[..k] == [];
    SyncedSurvives(img, Some(e.m), later);
  }
}
