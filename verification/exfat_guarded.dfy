/** Clean-flag safety across recoveries that start from a guarded image. */
module ExfatGuarded {
  import opened Bytes
  import opened ExfatPlan
  import opened ExfatBoot
  import opened ExfatDevice
  import opened ExfatProtocol
  import opened ExfatRecovery
  import opened ExfatReplay
  import opened ExfatCourse
  import opened ExfatCleanFlag
  import opened Wrappers

  /** Replaying canonical data over canonical data. */
  lemma ReplayAfter(e: Job, d: Device, order: seq<nat>, k: nat)
    requires Ready(e) && Recoverable(e, d) && Indexes(e, order) && k <= |ReplayOps(e, order)|
    requires SureCanonical(e, d) && HeadsNew(e, d, Main) && Sure(d, Main)
    ensures After(e, Execute(d, ReplayOps(e, order)[..k]))
  {
    hide Ready, Keeps, ValidCopy, Execute, PlaceOps, CanonicalPiece, Dirty, NewRoot, Sure;
    PlaceIsData(e, order, |order|);
    var ops := ReplayOps(e, order)[..k];
    assert DataOnly(ReplayOps(e, order));
    DataKeepsSure(e, d, ops, Main);
    RunValid(d, ops);
    var r := Execute(d, ops);
    forall p, x | Certain(d, p, x) && !Boot(p) && (p.Fat? || CanonicalAt(e, p, x)) ensures Certain(r, p, x) {
      StaysCertain(e, d, order, k, p, x);
    }
    forall i, j | CellOf(e, i, j) ensures Certain(r, TargetCell(e, i, j), CanonicalPiece(e, i, j)) {
      assert CanonicalAt(e, TargetCell(e, i, j), CanonicalPiece(e, i, j));
    }
  }

  ghost predicate CanonicalAt(e: Job, p: Place, x: seq<byte>)
    requires Ready(e)
  {
    ReadyTargetsHold(e) && exists i, j :: CellOf(e, i, j) && p == TargetCell(e, i, j) && x == CanonicalPiece(e, i, j)
  }

  lemma StaysCertain(e: Job, d: Device, order: seq<nat>, k: nat, p: Place, x: seq<byte>)
    requires Ready(e) && Kept(e, d) && Indexes(e, order) && k <= |ReplayOps(e, order)|
    requires Certain(d, p, x) && !Boot(p) && (p.Fat? || CanonicalAt(e, p, x))
    ensures Certain(Execute(d, ReplayOps(e, order)[..k]), p, x)
  {
    hide Ready, Keeps, Execute, PlaceOps, CanonicalPiece;
    var all := ReplayOps(e, order);
    var ops := all[..k];
    RunValid(d, ops);
    ReadyTargets(e);
    PlaceIsData(e, order, |order|);
    var r := Execute(d, ops);
    forall y | y in r.maybe[p] ensures y == x {
      PossibleAfter(d, ops, p, y);
      if Writes(ops, p, y) {
        assert Writes(PlaceOps(e, order, |order|), p, y);
        var n, j := PlaceWrites(e, order, |order|, p, y);
        var i2, j2 :| CellOf(e, i2, j2) && p == TargetCell(e, i2, j2) && x == CanonicalPiece(e, i2, j2);
        TargetInjective(e, order[n], j, i2, j2);
      }
    }
    assert r.maybe[p] == {x} by { assert r.now[p] in r.maybe[p]; }
  }

  /** Repair from a guarded image stays guarded. */
  lemma RepairGuarded(e: Job, img: Image)
    requires Ready(e) && RecoverableImage(e, img) && GuardedImage(e, img)
    ensures AlwaysGuarded(e, Settled(img, Some(e.m)), RepairOps(e.g, img))
    ensures Sized(e.g, Repaired(e.g, img)) && GuardedImage(e, Repaired(e.g, img)) && CopyOk(Repaired(e.g, img), Main)
  {
    hide Ready, Keeps, ValidCopy, Execute, CanonicalData, NewRoot, Dirty, Sure, During, After, Recoverable;
    RepairedSized(e.g, img);
    RepairAlways(e, img);
    SettledRecoverable(e, img);
    SidesPresent(e, img);
    var d := Settled(img, Some(e.m));
    var ops := RepairOps(e.g, img);
    SettledGuarded(e, img);
    if CopyOk(img, Main) {
      if !CopyOk(img, Backup) {
        RepairBackup(e, img);
      } else {
        GuardedNone(e, d);
      }
    } else {
      RepairMain(e, img);
    }
    SettledRecoverable(e, Repaired(e.g, img));
    GuardedEnd(e, d, ops);
    AlwaysEnd(e, d, ops);
    SyncedSurvives(Repaired(e.g, img), Some(e.m), Repaired(e.g, img));
    CrashGuarded(e, Settled(Repaired(e.g, img), Some(e.m)), Repaired(e.g, img));
  }

  lemma GuardedNone(e: Job, d: Device)
    requires Ready(e) && Guarded(e, d)
    ensures AlwaysGuarded(e, d, [])
  {
    hide Ready, During, After;
    var none: seq<Op> := [];
    assert none[..0] == none;
  }

  /** A guarded image, settled, is a guarded device. */
  lemma SettledGuarded(e: Job, img: Image)
    requires Ready(e) && RecoverableImage(e, img) && GuardedImage(e, img)
    ensures Guarded(e, Settled(img, Some(e.m)))
    ensures CanonicalData(e, img) ==> SureCanonical(e, Settled(img, Some(e.m)))
  {
    hide Ready, Keeps, ValidCopy, CanonicalData, NewRoot, Dirty, SureCanonical;
    SettledRecoverable(e, img);
    SettledData(e, img, Some(e.m));
    SidesPresent(e, img);
  }

  lemma RepairBackup(e: Job, img: Image)
    requires Ready(e) && RecoverableImage(e, img) && GuardedImage(e, img) && CopyOk(img, Main)
    ensures AlwaysGuarded(e, Settled(img, Some(e.m)), UpdateOps(Backup, CopyAt(img, Main)))
  {
    hide Ready, Keeps, ValidCopy, Execute, CanonicalData, NewRoot, Dirty, SureCanonical, UpdateOps, Sure, Recoverable;
    SettledRecoverable(e, img);
    SettledData(e, img, Some(e.m));
    var d := Settled(img, Some(e.m));
    var c := CopyAt(img, Main);
    if Dirty(img[Head(Main)]) {
      BackupDuring(e, d, c);
      GuardedFromDuring(e, d, UpdateOps(Backup, c));
    } else {
      UpdateAfter(e, d, Backup, c);
      GuardedFromAfter(e, d, UpdateOps(Backup, c));
    }
  }

  lemma RepairMain(e: Job, img: Image)
    requires Ready(e) && RecoverableImage(e, img) && GuardedImage(e, img) && !CopyOk(img, Main)
    requires Head(Main) in img && Head(Backup) in img && Mid(Backup) in img && Sum(Backup) in img
    ensures AlwaysGuarded(e, Settled(img, Some(e.m)), UpdateOps(Main, CopyAt(img, Backup)))
  {
    hide Ready, Keeps, ValidCopy, Execute, CanonicalData, NewRoot, Dirty, SureCanonical, UpdateOps, Sure, Recoverable;
    SettledRecoverable(e, img);
    SettledData(e, img, Some(e.m));
    var d := Settled(img, Some(e.m));
    UpdateAfter(e, d, Main, CopyAt(img, Backup));
    GuardedFromAfter(e, d, UpdateOps(Main, CopyAt(img, Backup)));
  }

  /** Committing canonical data over canonical data. */
  lemma CommitAfter(e: Job, d: Device, boots: Image)
    requires Ready(e) && Recoverable(e, d) && Sure(d, Main) && CopiesKept(e, boots)
    requires d == Settled(d.now, Some(e.m)) && SureCanonical(e, d) && HeadsNew(e, d, Main)
    ensures AlwaysGuarded(e, d, CommitOps(e, boots))
  {
    hide Ready, Keeps, ValidCopy, Sure, Kept, Execute, NewCopy, Dirty, NewRoot, Recoverable, During, After,
         SureCanonical, UpdateOps, CopyKept;
    var fat := [Write(Fat, e.fat), Sync];
    var b, m := NewCopy(e, CopyAt(boots, Backup)), NewCopy(e, CopyAt(boots, Main));
    FatStep(e, d);
    FatAfter(e, d);
    GuardedFromAfter(e, d, fat);
    var d1 := Execute(d, fat);
    NewCopyKept(e, Backup, CopyAt(boots, Backup));
    NewCopyKept(e, Main, CopyAt(boots, Main));
    UpdateTwo(e, d1, b, m);
    GuardedConcat(e, d, fat, UpdateOps(Backup, b) + UpdateOps(Main, m));
    assert fat + UpdateOps(Backup, b) + UpdateOps(Main, m) == fat + (UpdateOps(Backup, b) + UpdateOps(Main, m));
  }

  lemma FatAfter(e: Job, d: Device)
    requires Ready(e) && Recoverable(e, d) && Sure(d, Main) && SureCanonical(e, d) && HeadsNew(e, d, Main)
    ensures var ops := [Write(Fat, e.fat), Sync];
            && SureCanonical(e, Execute(d, ops)) && HeadsNew(e, Execute(d, ops), Main)
            && forall k | 0 <= k <= |ops| :: After(e, Execute(d, ops[..k]))
  {
    hide Ready, Keeps, ValidCopy, CanonicalPiece, Dirty, NewRoot, Mixed;
    var ops := [Write(Fat, e.fat), Sync];
    TwoSteps(d, Write(Fat, e.fat), Sync);
    var d1 := Apply(d, Write(Fat, e.fat));
    forall p, x | Certain(d, p, x) ensures p != Fat ==> Certain(d1, p, x) { }
    assert Certain(d1, Fat, e.fat);
    assert d1.Valid() && After(e, d1);
    SyncKeeps(e, d1);
    assert After(e, Apply(d1, Sync));
  }

  lemma UpdateTwo(e: Job, d: Device, b: Copy, m: Copy)
    requires Ready(e) && Recoverable(e, d) && Sure(d, Main) && SureCanonical(e, d) && HeadsNew(e, d, Main)
    requires CopyKept(e, Backup, b) && ValidCopy(b.head, b.mid, b.sum) && NewRoot(e, b.head) && NewRoot(e, m.head)
    ensures AlwaysGuarded(e, d, UpdateOps(Backup, b) + UpdateOps(Main, m))
  {
    hide Ready, CopyKept, ValidCopy, Kept, Execute, Dirty, During, SureCanonical, UpdateOps, Sure, Recoverable, NewRoot;
    SureHeld(e, d);
    UpdateAlways(e, d, Backup, b);
    UpdateAfter(e, d, Backup, b);
    GuardedFromAfter(e, d, UpdateOps(Backup, b));
    var d1 := Execute(d, UpdateOps(Backup, b));
    LastAfter(e, d, UpdateOps(Backup, b));
    KeysOf(e, d);
    AllSides(e, d.now);
    assert HeadsNew(e, d1, Backup) by { assert d1.maybe[Head(Backup)] == {b.head}; }
    UpdateAfter(e, d1, Main, m);
    GuardedFromAfter(e, d1, UpdateOps(Main, m));
    GuardedConcat(e, d, UpdateOps(Backup, b), UpdateOps(Main, m));
  }

  lemma LastAfter(e: Job, d: Device, ops: seq<Op>)
    requires Ready(e) && forall k | 0 <= k <= |ops| :: After(e, Execute(d, ops[..k]))
    ensures After(e, Execute(d, ops))
  {
    hide Ready, After;
    assert ops[..|ops|] == ops;
  }

  /** A recovery that starts guarded is guarded at every step. */
  lemma RecoveryGuarded(e: Job, img: Image, order: seq<nat>)
    requires Ready(e) && RecoverableImage(e, img) && GuardedImage(e, img) && Permutation(order, |e.m|)
             && Indexes(e, order)
    ensures AlwaysGuarded(e, Settled(img, Some(e.m)), RecoverOps(e, img, order))
  {
    hide Ready, Keeps, ValidCopy, Sure, Kept, Execute, ReplayOps, CommitOps, RepairOps, Always, Repaired, PlacedAll,
         Permutation, Indexes, During, After, AlwaysGuarded, Recoverable, GuardedImage, CopyOk, Opens;
    RepairedSized(e.g, img);
    RepairAlways(e, img);
    RepairGuarded(e, img);
    var fixed := Repaired(e.g, img);
    if Opens(e, fixed) {
      ReplayGuarded(e, fixed, order);
      GuardedConcat(e, Settled(img, Some(e.m)), RepairOps(e.g, img), ReplayOps(e, order) + CommitOps(e, fixed));
      assert RepairOps(e.g, img) + ReplayOps(e, order) + CommitOps(e, fixed)
          == RepairOps(e.g, img) + (ReplayOps(e, order) + CommitOps(e, fixed));
    }
  }

  lemma ReplayGuarded(e: Job, fixed: Image, order: seq<nat>)
    requires Ready(e) && RecoverableImage(e, fixed) && GuardedImage(e, fixed) && CopyOk(fixed, Main)
             && CopyOk(fixed, Backup)
    requires Permutation(order, |e.m|) && Indexes(e, order)
    ensures AlwaysGuarded(e, Settled(fixed, Some(e.m)), ReplayOps(e, order) + CommitOps(e, fixed))
  {
    hide Ready, Keeps, ValidCopy, Sure, Kept, Execute, ReplayOps, CommitOps, Always, PlacedAll, Permutation, Dirty,
         AlwaysGuarded, Recoverable, SureCanonical, After, CanonicalData, RecoverableImage, CopyKept;
    var d1 := Settled(fixed, Some(e.m));
    SettledRecoverable(e, fixed);
    SettledGuarded(e, fixed);
    ReplayAlways(e, d1, order);
    var d2 := Execute(d1, ReplayOps(e, order));
    BootsKept(e, fixed);
    ImageSized(e, fixed);
    if Dirty(fixed[Head(Main)]) {
      ReplayDuring(e, d1, order);
      GuardedFromDuring(e, d1, ReplayOps(e, order));
      LastDuring(d1, ReplayOps(e, order));
      CommitGuarded(e, d2, fixed);
    } else {
      forall k | 0 <= k <= |ReplayOps(e, order)| ensures After(e, Execute(d1, ReplayOps(e, order)[..k])) {
        ReplayAfter(e, d1, order, k);
      }
      GuardedFromAfter(e, d1, ReplayOps(e, order));
      LastAfter(e, d1, ReplayOps(e, order));
      AfterParts(e, d2);
      CommitAfter(e, d2, fixed);
    }
    GuardedConcat(e, d1, ReplayOps(e, order), CommitOps(e, fixed));
  }

  lemma AfterParts(e: Job, d: Device)
    requires Ready(e) && After(e, d)
    ensures SureCanonical(e, d) && HeadsNew(e, d, Main)
  {
  }

  /** img is what n crashed recoveries leave, starting from a given image. */
  ghost predicate CrashedFrom(e: Job, start: Image, n: nat, img: Image)
    requires Ready(e)
  {
    if n == 0 then img == start
    else exists before, order, k: nat :: CrashedFrom(e, start, n - 1, before) && RecoveryTo(e, before, order, k, img)
  }

  /** Clean-flag safety of recoveries: from a guarded image every further crash leaves a guarded, hence safe, image. */
  lemma {:induction false} GuardedForever(e: Job, start: Image, n: nat, img: Image)
    requires Ready(e) && RecoverableImage(e, start) && GuardedImage(e, start) && CrashedFrom(e, start, n, img)
    ensures RecoverableImage(e, img) && GuardedImage(e, img) && SafeImage(e, img)
  {
    hide Ready, RecoveryTo, GuardedImage, SafeImage, CopyOk, Keeps;
    if n > 0 {
      var before, order, k: nat :| CrashedFrom(e, start, n - 1, before) && RecoveryTo(e, before, order, k, img);
      GuardedForever(e, start, n - 1, before);
      GuardedStep(e, before, order, k, img);
    }
    GuardedIsSafe(e, img);
  }

  lemma GuardedStep(e: Job, before: Image, order: seq<nat>, k: nat, img: Image)
    requires Ready(e) && RecoverableImage(e, before) && GuardedImage(e, before) && RecoveryTo(e, before, order, k, img)
    ensures RecoverableImage(e, img) && GuardedImage(e, img)
  {
    hide Ready, GuardedImage, Guarded, Execute, RecoverOps, AfterCrash, Recoverable, Keeps, CopyOk, Finished,
         Permutation, Indexes;
    var final := RecoveryCompletes(e, before, order);
    RecoveryGuarded(e, before, order);
    var d := Execute(Settled(before, Some(e.m)), RecoverOps(e, before, order)[..k]);
    CrashRecoverable(e, d, img);
    CrashGuarded(e, d, img);
  }
}
