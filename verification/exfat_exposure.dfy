/** Recovery does not publish the dirty flag itself. When it starts over a clean original volume, this says exactly
    when some later crash can leave a clean flag over a mixture of the two layouts. */
module ExfatExposure {
  import opened Bytes
  import opened ExfatPlan
  import opened ExfatBoot
  import opened ExfatDevice
  import opened ExfatProtocol
  import opened ExfatRecovery
  import opened ExfatReplay
  import opened ExfatCourse
  import opened ExfatCleanFlag
  import opened ExfatGuarded
  import opened ExfatFirstRun
  import opened Wrappers
  import opened ExfatProgress

  /** Recovery writes x to p, and x differs at byte o. */
  ghost predicate ChangeTo(e: Job, img: Image, p: Place, o: nat, x: seq<byte>)
    requires Ready(e)
  {
    p in img && Goal(e, p, x) && o < |x| && o < |img[p]| && img[p][o] != x[o]
  }

  /** Recovery would change byte o of place p. */
  ghost predicate Changes(e: Job, img: Image, p: Place, o: nat)
    requires Ready(e)
  {
    exists x :: ChangeTo(e, img, p, o, x)
  }

  /** A byte of the original layout that recovery changes while something else still has to change: the root
      cluster, or another byte that recovery does not have to write before it. */
  ghost predicate ExposedAt(e: Job, img: Image, p: Place, o: nat)
    requires Ready(e)
  {
    ReadySizes(e);
    ReadyTargets(e);
    && Changes(e, img, p, o) && Counts(e, p)
    && (RootOf(e.orig[Head(Main)]) != e.targets[2]
        || exists q, r: nat :: (q != p || r != o) && Changes(e, img, q, r) && (p.Fat? ==> q.Fat?))
  }

  ghost predicate Exposed(e: Job, img: Image)
    requires Ready(e)
  {
    exists p, o: nat :: ExposedAt(e, img, p, o)
  }

  lemma ChangeOf(e: Job, img: Image, p: Place, o: nat) returns (x: seq<byte>)
    requires Ready(e) && Sized(e.g, img) && Changes(e, img, p, o)
    ensures p in img && Goal(e, p, x) && o < |x| == |img[p]| && img[p][o] != x[o] && !Boot(p)
    ensures p.Fat? ==> x == e.fat
  {
    hide Ready, CanonicalPiece;
    x :| ChangeTo(e, img, p, o, x);
    GoalUnique(e, p, x, x);
  }

  ghost predicate CleanOriginal(e: Job, img: Image)
    requires Ready(e)
  {
    RecoverableImage(e, img) && OriginalImage(e, img) && !Dirty(img[Head(Main)]) && Fits(e, img[Head(Main)])
  }

  // ---- nothing exposed: safe for ever -----------------------------------------------------------

  /** If nothing is exposed, an image in progress whose original data has been touched is canonical. */
  lemma TouchedIsCanonical(e: Job, img: Image, now: Image, p: Place, o: nat)
    requires Ready(e) && CleanOriginal(e, img) && !Exposed(e, img) && Progress(e, img, now)
    requires Counts(e, p) && p in img && p in now && o < |now[p]| && o < |img[p]| && now[p][o] != img[p][o]
    ensures CanonicalData(e, now)
    ensures ReadyTargetsHold(e) && Head(Main) in e.orig && |e.orig[Head(Main)]| >= MIN_SECTOR
            && RootOf(e.orig[Head(Main)]) == e.targets[2]
  {
    hide Ready, CanonicalPiece, Keeps, CopyOk, Dirty, OldRoot, NewRoot;
    ReadySizes(e);
    ReadyTargets(e);
    var x :| Goal(e, p, x) && o < |x| && now[p][o] == x[o];
    assert ChangeTo(e, img, p, o, x);
    assert !ExposedAt(e, img, p, o);
    if p.Fat? {
      assert PlacedAll(e, now);
    }
    forall q, y | Goal(e, q, y) && !(p.Fat? && !q.Fat?) ensures q in now && now[q] == y {
      GoalUnique(e, q, y, y);
      forall r: nat | r < |y| ensures now[q][r] == y[r] {
        OtherByte(e, img, now, p, o, q, r, y);
      }
    }
    assert Goal(e, Fat, e.fat);
    forall i, j | CellOf(e, i, j)
      ensures TargetCell(e, i, j) in now && now[TargetCell(e, i, j)] == CanonicalPiece(e, i, j)
    {
      assert CanonicalAt(e, TargetCell(e, i, j), CanonicalPiece(e, i, j));
      assert Goal(e, TargetCell(e, i, j), CanonicalPiece(e, i, j));
    }
  }

  lemma OtherByte(e: Job, img: Image, now: Image, p: Place, o: nat, q: Place, r: nat, y: seq<byte>)
    requires Ready(e) && Sized(e.g, img) && Sized(e.g, now) && ByteProgress(e, img, now) && !ExposedAt(e, img, p, o)
    requires Changes(e, img, p, o) && Counts(e, p) && !(p.Fat? && !q.Fat?)
    requires p in now && o < |now[p]| && o < |img[p]| && now[p][o] != img[p][o]
    requires Goal(e, q, y) && r < |y|
    ensures q in now && r < |now[q]| && now[q][r] == y[r]
  {
    hide Ready, CanonicalPiece, CanonicalAt;
    GoalUnique(e, q, y, y);
    assert q in img && q in now;
    forall x | Goal(e, q, x) ensures x == y { GoalUnique(e, q, x, y); }
    assert now[q][r] == img[q][r] || now[q][r] == y[r];
    assert img[q][r] != y[r] ==> ChangeTo(e, img, q, r, y);
    assert Changes(e, img, q, r) ==> q == p && r == o;
  }

  /** If nothing is exposed, every image in progress is safe. */
  lemma ProgressIsSafe(e: Job, img: Image, now: Image)
    requires Ready(e) && CleanOriginal(e, img) && !Exposed(e, img) && Progress(e, img, now)
    ensures SafeImage(e, now)
  {
    hide Ready, CanonicalPiece, CellContent, Keeps, CopyOk, Dirty, CanonicalData, Exposed, OriginalData, ByteProgress;
    ReadySizes(e);
    ReadyTargets(e);
    SidesPresent(e, now);
    RootIsKnown(e, now);
    if !OriginalData(e, now) {
      var p, o := TouchedByte(e, img, now);
      TouchedIsCanonical(e, img, now, p, o);
    }
    CleanParts(e, img);
  }

  lemma CleanParts(e: Job, img: Image)
    requires Ready(e) && CleanOriginal(e, img)
    ensures OriginalData(e, img) && RecoverableImage(e, img) && Sized(e.g, img)
  {
  }

  lemma RootIsKnown(e: Job, img: Image)
    requires Ready(e) && RecoverableImage(e, img) && Head(Main) in img
    ensures OldRoot(e, img[Head(Main)]) || NewRoot(e, img[Head(Main)])
  {
    hide Ready, CopyOk;
    ReadySizes(e);
    ReadyTargets(e);
    assert Keeps(e, Head(Main), img[Head(Main)]);
  }

  /** Data that is no longer original differs in a byte that counts. */
  lemma TouchedByte(e: Job, img: Image, now: Image) returns (p: Place, o: nat)
    requires Ready(e) && Sized(e.g, img) && OriginalData(e, img) && Sized(e.g, now) && !OriginalData(e, now)
    ensures Counts(e, p) && p in img && p in now && o < |now[p]| && o < |img[p]| && now[p][o] != img[p][o]
  {
    hide Ready, CellContent;
    ReadySizes(e);
    if now[Fat] != img[Fat] {
      p := Fat;
    } else {
      var i, j :| CellOf(e, i, j) && !(OwnedCell(e, i, j) in now && now[OwnedCell(e, i, j)] == CellContent(e, i, j));
      p := OwnedCell(e, i, j);
    }
    o := FirstDifference(img[p], now[p]);
  }

  lemma FirstDifference(a: seq<byte>, b: seq<byte>) returns (o: nat)
    requires |a| == |b| && a != b
    ensures o < |a| && b[o] != a[o]
  {
    o :| o < |a| && b[o] != a[o];
  }

  // ---- the unsafe crash -------------------------------------------------------------------------

  /** Syncless runs forget nothing. */
  lemma {:induction false} StillPossible(d: Device, ops: seq<Op>, p: Place, x: seq<byte>)
    requires d.Valid() && p in d.now && x in d.maybe[p] && forall op | op in ops :: op.Write?
    ensures p in Execute(d, ops).maybe && x in Execute(d, ops).maybe[p]
    ensures forall y | Writes(ops, p, y) :: y in Execute(d, ops).maybe[p]
  {
    RunValid(d, ops);
    if ops != [] {
      var front := ops[..|ops| - 1];
      StillPossible(d, front, p, x);
      RunValid(d, front);
      forall y | Writes(ops, p, y) ensures Writes(front, p, y) || ops[|ops| - 1] == Write(p, y) {
      }
    }
  }

  /** One byte of one data place written, everything else as before. */
  lemma OneByteSurvives(d: Device, img: Image, p: Place, o: nat, x: seq<byte>)
    requires d.Valid() && d.now.Keys == img.Keys && p in img && !Boot(p) && o < |img[p]| == |x|
    requires forall q | q in img :: img[q] in d.maybe[q]
    requires x in d.maybe[p]
    ensures AfterCrash(d, img[p := img[p][o := x[o]]])
  {
    var now := img[p := img[p][o := x[o]]];
    forall q | q in now ensures Survives(q, d.maybe[q], now[q]) {
      if q == p {
        assert img[p] in d.maybe[p] && |img[p]| == |now[p]|;
        forall j | 0 <= j < |now[p]| ensures exists y | y in d.maybe[p] :: j < |y| && y[j] == now[p][j] {
          if j == o { assert x in d.maybe[p] && x[j] == now[p][j]; } else { assert img[p][j] == now[p][j]; }
        }
      } else {
        assert now[q] == img[q];
      }
    }
  }

  /** With byte (p, o) changed and byte (q, r) not, the data is a mixture. */
  lemma MixtureIsUnsafe(e: Job, img: Image, now: Image, p: Place, o: nat, q: Place, r: nat)
    requires Ready(e) && CleanOriginal(e, img) && Changes(e, img, p, o) && Counts(e, p) && Changes(e, img, q, r)
    requires p in now && |now[p]| == |img[p]| && now[p][o] != img[p][o]
    requires q in now && |now[q]| == |img[q]| && now[q][r] == img[q][r]
    requires CopyOk(now, Main) && now[Head(Main)] == img[Head(Main)]
    ensures !SafeImage(e, now)
  {
    hide Ready, CanonicalPiece, CellContent, Keeps, ValidCopy, Dirty, OldRoot, NewRoot;
    NotOriginal(e, img, now, p, o);
    NotCanonical(e, img, now, q, r);
  }

  lemma NotOriginal(e: Job, img: Image, now: Image, p: Place, o: nat)
    requires Ready(e) && OriginalData(e, img) && Counts(e, p) && p in img && p in now && o < |img[p]| && o < |now[p]|
    requires now[p][o] != img[p][o]
    ensures !OriginalData(e, now)
  {
    hide Ready, CellContent;
  }

  lemma NotCanonical(e: Job, img: Image, now: Image, q: Place, r: nat)
    requires Ready(e) && Changes(e, img, q, r) && q in now && r < |now[q]| && now[q][r] == img[q][r]
    ensures !CanonicalData(e, now)
  {
    hide Ready, CanonicalPiece;
  }

  /** Where a cluster's byte is at stake: a crash during placement. */
  lemma UnsafeDuringPlacement(e: Job, img: Image, order: seq<nat>, p: Place, o: nat, q: Place, r: nat)
      returns (k: nat, now: Image)
    requires Ready(e) && CleanOriginal(e, img) && Permutation(order, |e.m|) && Indexes(e, order)
    requires Changes(e, img, p, o) && Counts(e, p) && !p.Fat? && Changes(e, img, q, r) && (q != p || r != o)
    ensures RecoveryTo(e, img, order, k, now) && !SafeImage(e, now)
  {
    hide Ready, Keeps, ValidCopy, Execute, PlaceOps, CommitOps, CanonicalPiece, Permutation, Counts, Recoverable,
         SafeImage, OriginalImage, Changes, RepairOps, Repaired, CanonicalAt, Always, Dirty, Opens, RecoverOps;
    var x := ChangeOf(e, img, p, o);
    k := AllPlaced(e, img, order);
    var fixed := Repaired(e.g, img);
    now := fixed[p := fixed[p][o := x[o]]];
    OneByteOf(e, fixed, order, p, o, x);
    RepairedMain(e, img, p);
    QInRepaired(e, img, q, r);
    MixtureIsUnsafe(e, img, now, p, o, q, r);
  }

  /** The point of a recovery where everything has been placed. */
  lemma AllPlaced(e: Job, img: Image, order: seq<nat>) returns (k: nat)
    requires Ready(e) && CleanOriginal(e, img) && Permutation(order, |e.m|) && Indexes(e, order)
    ensures Sized(e.g, img) && Sized(e.g, Repaired(e.g, img)) && k <= |RecoverOps(e, img, order)|
    ensures Execute(Settled(img, Some(e.m)), RecoverOps(e, img, order)[..k])
            == Execute(Settled(Repaired(e.g, img), Some(e.m)), PlaceOps(e, order, |order|))
  {
    hide Ready, Keeps, ValidCopy, Execute, PlaceOps, Permutation, Recoverable, OriginalImage, RepairOps, Repaired,
         Always, Dirty, Opens, RecoverOps;
    RepairedSized(e.g, img);
    RepairAlways(e, img);
    CleanOpens(e, img);
    var ops := PlaceOps(e, order, |order|);
    k := |RepairOps(e.g, img)| + |ops|;
    PlacedFirst(e, img, order);
    RunConcat(Settled(img, Some(e.m)), RepairOps(e.g, img), ops);
  }

  lemma PlacedFirst(e: Job, img: Image, order: seq<nat>)
    requires Ready(e) && Sized(e.g, img) && Indexes(e, order) && Sized(e.g, Repaired(e.g, img))
             && Opens(e, Repaired(e.g, img))
    ensures var a := RepairOps(e.g, img) + PlaceOps(e, order, |order|);
            |a| <= |RecoverOps(e, img, order)| && RecoverOps(e, img, order)[..|a|] == a
  {
    hide Ready, Sized, PlaceOps, CommitOps, RepairOps, Repaired, Opens;
  }

  /** Recovery of a clean original volume gets past the open check. */
  lemma CleanOpens(e: Job, img: Image)
    requires Ready(e) && CleanOriginal(e, img)
    ensures Sized(e.g, img) && Opens(e, Repaired(e.g, img))
  {
    hide Ready, Keeps, ValidCopy, Opens, Fits, OriginalData, OldRoot, NewRoot, Dirty;
    RepairAlways(e, img);
    SidesPresent(e, img);
    OpensExactly(e, Repaired(e.g, img));
  }

  lemma RepairedMain(e: Job, img: Image, p: Place)
    requires Ready(e) && CleanOriginal(e, img) && p in img && !Boot(p)
    ensures var fixed := Repaired(e.g, img);
            && Sized(e.g, img) && fixed.Keys == img.Keys && p in fixed && fixed[p] == img[p]
            && Head(Main) in fixed && Head(Main) in img
            && fixed[Head(Main)] == img[Head(Main)] && CopyOk(fixed, Main)
  {
    hide Ready, Keeps, ValidCopy;
    SidesPresent(e, img);
  }

  lemma QInRepaired(e: Job, img: Image, q: Place, r: nat)
    requires Ready(e) && CleanOriginal(e, img) && Changes(e, img, q, r)
    ensures Sized(e.g, img) && q in Repaired(e.g, img) && Repaired(e.g, img)[q] == img[q] && r < |img[q]|
  {
    hide Ready, Keeps, ValidCopy, CanonicalPiece;
    SidesPresent(e, img);
  }

  lemma OneByteOf(e: Job, fixed: Image, order: seq<nat>, p: Place, o: nat, x: seq<byte>)
    requires Ready(e) && Sized(e.g, fixed) && Permutation(order, |e.m|) && Indexes(e, order)
    requires p in fixed && !p.Fat? && Goal(e, p, x) && o < |x| == |fixed[p]|
    ensures AfterCrash(Execute(Settled(fixed, Some(e.m)), PlaceOps(e, order, |order|)), fixed[p := fixed[p][o := x[o]]])
  {
    hide Ready, Execute, PlaceOps, CanonicalPiece, Permutation, Mixed;
    ReadyTargets(e);
    var d := Settled(fixed, Some(e.m));
    var ops := PlaceOps(e, order, |order|);
    PlaceIsData(e, order, |order|);
    RunValid(d, ops);
    forall q | q in fixed ensures fixed[q] in Execute(d, ops).maybe[q] {
      StillPossible(d, ops, q, fixed[q]);
    }
    var i, j :| CellOf(e, i, j) && p == TargetCell(e, i, j) && x == CanonicalPiece(e, i, j);
    var n := PositionOf(order, |e.m|, i);
    PlaceCovers(e, order, |order|, n, j);
    StillPossible(d, ops, p, fixed[p]);
    OneByteSurvives(Execute(d, ops), fixed, p, o, x);
  }

  /** Where the FAT write stands in a recovery. */
  lemma UntilFat(e: Job, img: Image, order: seq<nat>) returns (done: nat)
    requires Ready(e) && Sized(e.g, img) && Indexes(e, order) && Sized(e.g, Repaired(e.g, img))
             && Opens(e, Repaired(e.g, img))
    ensures var ops := RecoverOps(e, img, order);
            && done + 2 <= |ops| && ops[..done] == RepairOps(e.g, img) + ReplayOps(e, order)
            && ops[..done + 1] == ops[..done] + [Write(Fat, e.fat)]
            && ops[..done + 2] == ops[..done] + [Write(Fat, e.fat), Sync]
  {
    hide Ready, Sized, ReplayOps, CommitOps, RepairOps, Repaired, Opens;
    var a := RepairOps(e.g, img) + ReplayOps(e, order);
    done := |a|;
    FirstOfCommit(e, Repaired(e.g, img));
    assert RecoverOps(e, img, order) == a + CommitOps(e, Repaired(e.g, img));
  }

  /** The device between placement and the FAT write. */
  lemma Replayed(e: Job, img: Image, order: seq<nat>) returns (d: Device, done: nat)
    requires Ready(e) && CleanOriginal(e, img) && Permutation(order, |e.m|) && Indexes(e, order)
    ensures Sized(e.g, img) && done + 2 <= |RecoverOps(e, img, order)|
    ensures Execute(Settled(img, Some(e.m)), RecoverOps(e, img, order)[..done]) == d
    ensures RecoverOps(e, img, order)[..done + 1] == RecoverOps(e, img, order)[..done] + [Write(Fat, e.fat)]
    ensures RecoverOps(e, img, order)[..done + 2] == RecoverOps(e, img, order)[..done] + [Write(Fat, e.fat), Sync]
    ensures d == Settled(d.now, Some(e.m)) && PlacedAll(e, d.now) && Recoverable(e, d) && Sure(d, Main)
            && Sure(d, Backup)
    ensures Fat in d.now && Fat in img && d.now[Fat] == img[Fat]
    ensures Head(Main) in d.now && Head(Main) in img && d.now[Head(Main)] == img[Head(Main)] && CopyOk(d.now, Main)
  {
    hide Ready, Keeps, ValidCopy, Execute, ReplayOps, CommitOps, CanonicalPiece, Permutation, Indexes, Recoverable,
         RepairOps, Repaired, Always, Dirty, PlacedAll, OriginalImage, Sure;
    RepairedSized(e.g, img);
    RepairAlways(e, img);
    CleanOpens(e, img);
    RepairedMain(e, img, Fat);
    var fixed := Repaired(e.g, img);
    var d0 := Settled(fixed, Some(e.m));
    SettledRecoverable(e, fixed);
    ReplayAlways(e, d0, order);
    d := Execute(d0, ReplayOps(e, order));
    done := UntilFat(e, img, order);
    RunConcat(Settled(img, Some(e.m)), RepairOps(e.g, img), ReplayOps(e, order));
    FatAsBefore(e, d0, order);
  }

  /** Where two bytes of the FAT are at stake: a crash during the FAT write. */
  lemma UnsafeDuringFat(e: Job, img: Image, order: seq<nat>, o: nat, r: nat) returns (k: nat, now: Image)
    requires Ready(e) && CleanOriginal(e, img) && Permutation(order, |e.m|) && Indexes(e, order)
    requires Changes(e, img, Fat, o) && Changes(e, img, Fat, r) && r != o
    ensures RecoveryTo(e, img, order, k, now) && !SafeImage(e, now)
  {
    hide Ready, Keeps, ValidCopy, Execute, Permutation, Indexes, Recoverable, SafeImage, RecoverOps, Changes, Dirty,
         PlacedAll, AfterCrash, Sure, OriginalImage, Goal;
    var x := ChangeOf(e, img, Fat, o);
    var y := ChangeOf(e, img, Fat, r);
    var d, done := Replayed(e, img, order);
    k := done + 1;
    RunSome(Settled(img, Some(e.m)), RecoverOps(e, img, order)[..done], Write(Fat, e.fat));
    now := d.now[Fat := d.now[Fat][o := x[o]]];
    FatByte(e, d, o, x);
    MixtureIsUnsafe(e, img, now, Fat, o, Fat, r);
  }

  lemma FirstOfCommit(e: Job, boots: Image)
    requires Ready(e) && Sized(e.g, boots)
    ensures |CommitOps(e, boots)| >= 2 && CommitOps(e, boots)[0] == Write(Fat, e.fat) && CommitOps(e, boots)[1] == Sync
  {
    hide Ready, NewCopy;
  }

  lemma FatAsBefore(e: Job, d: Device, order: seq<nat>)
    requires Ready(e) && Recoverable(e, d) && Indexes(e, order)
    ensures Fat in d.now && Fat in Execute(d, ReplayOps(e, order)).now
            && Execute(d, ReplayOps(e, order)).now[Fat] == d.now[Fat]
    ensures Execute(d, ReplayOps(e, order)).Valid()
  {
    hide Ready, Execute, PlaceOps, Keeps, Sure;
    PlaceIsData(e, order, |order|);
    var ops := ReplayOps(e, order);
    forall x ensures !Writes(ops, Fat, x) {
      assert Write(Fat, x) !in ops;
    }
    UntouchedKept(d, ops, Fat);
    RunValid(d, ops);
  }

  lemma FatByte(e: Job, d: Device, o: nat, x: seq<byte>)
    requires Ready(e) && d == Settled(d.now, d.journal) && Fat in d.now && o < |x| == |d.now[Fat]| && x == e.fat
    ensures AfterCrash(Apply(d, Write(Fat, e.fat)), d.now[Fat := d.now[Fat][o := x[o]]])
  {
    hide Ready, Mixed;
    OneByteSurvives(Apply(d, Write(Fat, e.fat)), d.now, Fat, o, x);
  }

  /** Where the root moves: a crash after the FAT and before the main boot copy. */
  lemma UnsafeBeforeBoot(e: Job, img: Image, order: seq<nat>, p: Place, o: nat) returns (k: nat, now: Image)
    requires Ready(e) && CleanOriginal(e, img) && Permutation(order, |e.m|) && Indexes(e, order)
    requires Changes(e, img, p, o) && Counts(e, p) && !BothRoots(e, img)
    ensures RecoveryTo(e, img, order, k, now) && !SafeImage(e, now)
  {
    hide Ready, Keeps, ValidCopy, Execute, CanonicalPiece, Permutation, Indexes, Recoverable, SafeImage, RecoverOps,
         Changes, Dirty, AfterCrash, Sure, OriginalImage, Counts;
    var d, done := Replayed(e, img, order);
    k := done + 2;
    RunConcat(Settled(img, Some(e.m)), RecoverOps(e, img, order)[..done], [Write(Fat, e.fat), Sync]);
    FatStep(e, d);
    now := d.now[Fat := e.fat];
    SyncedSurvives(now, Some(e.m), now);
    PlacedBeforeBoot(e, img, now, p, o);
  }

  /** The boot copy's root is both the original and the new one. */
  ghost predicate BothRoots(e: Job, img: Image)
    requires Ready(e)
  {
    Head(Main) in img && OldRoot(e, img[Head(Main)]) && NewRoot(e, img[Head(Main)])
  }

  lemma PlacedBeforeBoot(e: Job, img: Image, now: Image, p: Place, o: nat)
    requires Ready(e) && CleanOriginal(e, img) && Changes(e, img, p, o) && Counts(e, p) && !BothRoots(e, img)
    requires PlacedAllExceptFat(e, now)
    requires Head(Main) in now && Head(Main) in img && now[Head(Main)] == img[Head(Main)] && CopyOk(now, Main)
    ensures !SafeImage(e, now)
  {
    hide Ready, CanonicalPiece, CellContent, Keeps, ValidCopy, Dirty, OldRoot, NewRoot;
    var x := ChangeOf(e, img, p, o);
    assert p in now && now[p] == x;
    NotOriginal(e, img, now, p, o);
  }

  ghost predicate PlacedAllExceptFat(e: Job, now: Image)
    requires Ready(e)
  {
    Fat in now && now[Fat] == e.fat && ReadyTargetsHold(e)
    && forall i, j | CellOf(e, i, j) ::
         TargetCell(e, i, j) in now && now[TargetCell(e, i, j)] == CanonicalPiece(e, i, j)
  }

  /** An exposed image has an unsafe crash. */
  lemma ExposedIsUnsafe(e: Job, img: Image, order: seq<nat>) returns (k: nat, now: Image)
    requires Ready(e) && CleanOriginal(e, img) && Exposed(e, img) && Permutation(order, |e.m|) && Indexes(e, order)
    ensures RecoveryTo(e, img, order, k, now) && !SafeImage(e, now)
  {
    hide Ready, Keeps, CopyOk, CanonicalPiece, Permutation, Indexes, SafeImage, Changes, RecoveryTo, Counts, Dirty,
         OriginalData;
    ReadySizes(e);
    ReadyTargets(e);
    var p, o: nat :| ExposedAt(e, img, p, o);
    if RootOf(e.orig[Head(Main)]) != e.targets[2] {
      k, now := UnsafeBeforeBoot(e, img, order, p, o);
    } else {
      var q, r: nat :| (q != p || r != o) && Changes(e, img, q, r) && (p.Fat? ==> q.Fat?);
      if p.Fat? {
        k, now := UnsafeDuringFat(e, img, order, o, r);
      } else {
        k, now := UnsafeDuringPlacement(e, img, order, p, o, q, r);
      }
    }
  }

  /** A clean original image is one recoveries make progress from. */
  lemma CleanIsOrdered(e: Job, img: Image)
    requires Ready(e) && CleanOriginal(e, img)
    ensures RecoverableImage(e, img) && Ordered(e, img)
  {
    hide Ready, OriginalData, CanonicalData, Keeps;
  }

  /** If nothing is exposed, the clean flag stays truthful over any number of crashed recoveries. */
  lemma UnexposedIsSafe(e: Job, start: Image, n: nat, img: Image)
    requires Ready(e) && CleanOriginal(e, start) && !Exposed(e, start) && CrashedFrom(e, start, n, img)
    ensures SafeImage(e, img)
  {
    hide Ready, CrashedFrom, Progress, CleanOriginal, Exposed, SafeImage, Ordered, RecoverableImage;
    CleanIsOrdered(e, start);
    AlwaysProgress(e, start, n, img);
    ProgressIsSafe(e, start, img);
  }

  lemma OneCrashFrom(e: Job, start: Image, order: seq<nat>, k: nat, img: Image)
    requires Ready(e) && RecoveryTo(e, start, order, k, img)
    ensures CrashedFrom(e, start, 1, img)
  {
    hide Ready, RecoveryTo;
    assert CrashedFrom(e, start, 0, start);
  }

  /** Over a clean original volume the clean flag stays truthful through every number of crashed recoveries exactly when
      nothing is exposed. */
  lemma RecoverySafeExactly(e: Job, start: Image)
    requires Ready(e) && CleanOriginal(e, start)
    ensures (forall n: nat, img :: CrashedFrom(e, start, n, img) ==> SafeImage(e, img)) <==> !Exposed(e, start)
  {
    hide Ready, Keeps, CopyOk, SafeImage, RecoveryTo, Exposed, CleanOriginal, Permutation, CrashedFrom;
    ReadyTargets(e);
    if Exposed(e, start) {
      InOrderPermutes(|e.m|);
      var k, now := ExposedIsUnsafe(e, start, InOrder(|e.m|));
      OneCrashFrom(e, start, InOrder(|e.m|), k, now);
      assert CrashedFrom(e, start, 1, now) && !SafeImage(e, now);
    } else {
      forall n: nat, img | CrashedFrom(e, start, n, img) ensures SafeImage(e, img) {
        UnexposedIsSafe(e, start, n, img);
      }
    }
  }

  // ---- every run --------------------------------------------------------------------------------

  /** A staged volume is a clean original one, and is what a crash right after publication leaves. */
  lemma StagedIsClean(e: Job, staged: Image)
    requires Ready(e) && StagedImage(e, staged)
    ensures CleanOriginal(e, staged) && CrashedInRun(e, staged)
  {
    hide Ready, CellContent, Keeps, ValidCopy, Dirty, Places, Permutation;
    ReadySizes(e);
    StagedRecoverable(e, staged);
    StagedBoot(e, staged);
    forall i, j | CellOf(e, i, j)
      ensures OwnedCell(e, i, j) in staged && staged[OwnedCell(e, i, j)] == CellContent(e, i, j)
    {
      OwnedKept(e, staged, i, j);
    }
    FatThere(e, staged, e.orig, staged);
    OpenedMain(e);
    assert Boot(Head(Main));
    assert OriginalImage(e, staged);
    CrashAtOnce(e, staged);
  }

  lemma OwnedKept(e: Job, staged: Image, i: nat, j: nat)
    requires Ready(e) && StagedImage(e, staged) && CellOf(e, i, j)
    ensures OwnedCell(e, i, j) in staged && staged[OwnedCell(e, i, j)] == CellContent(e, i, j)
  {
    hide Ready, Places;
    OwnedInside(e, i, j);
    CellContentIs(e, i, j);
  }

  lemma CrashAtOnce(e: Job, staged: Image)
    requires Ready(e) && StagedImage(e, staged)
    ensures CrashedInRun(e, staged)
  {
    hide Ready, StagedImage, Permutation, CompleteOps, AfterCrash;
    ReadyTargets(e);
    InOrderPermutes(|e.m|);
    var order := InOrder(|e.m|);
    var ops := CompleteOps(e, order);
    assert ops[..0] == [];
    SyncedSurvives(staged, Some(e.m), staged);
    assert FirstRunTo(e, staged, order, ops, 0, staged);
  }

  /** What a crash of the first run leaves is guarded, or a clean original volume. */
  lemma FirstCrashKinds(e: Job, img: Image)
    requires Ready(e) && CrashedInRun(e, img)
    ensures RecoverableImage(e, img) && Sized(e.g, img) && (GuardedImage(e, img) || CleanOriginal(e, img))
  {
    hide Ready, FirstRunTo, OriginalData, CanonicalData, Keeps, SafeImage, Fits, OldRoot, NewRoot, Dirty, ValidCopy;
    FirstRunSafe(e, img);
    var staged, order, ops, k: nat :| FirstRunTo(e, staged, order, ops, k, img);
    FirstCrash(e, staged, order, ops, k, img);
    MainFits(e, staged, order, ops, k, img);
  }

  /** Crashes of a run are a crash of the first run followed by crashes of recoveries. */
  lemma {:induction false} CrashedSplits(e: Job, n: nat, img: Image) returns (start: Image)
    requires Ready(e) && Crashed(e, n, img)
    ensures CrashedInRun(e, start) && CrashedFrom(e, start, n, img)
  {
    hide Ready, RecoveryTo, CrashedInRun;
    if n == 0 {
      start := img;
    } else {
      var before, order, k: nat :| Crashed(e, n - 1, before) && RecoveryTo(e, before, order, k, img);
      start := CrashedSplits(e, n - 1, before);
    }
  }

  lemma {:induction false} CrashedJoins(e: Job, start: Image, n: nat, img: Image)
    requires Ready(e) && CrashedInRun(e, start) && CrashedFrom(e, start, n, img)
    ensures Crashed(e, n, img)
  {
    hide Ready, RecoveryTo, CrashedInRun;
    if n > 0 {
      var before, order, k: nat :| CrashedFrom(e, start, n - 1, before) && RecoveryTo(e, before, order, k, img);
      CrashedJoins(e, start, n - 1, before);
    }
  }

  /** No crash, and no crash of any recovery after it, leaves an unsafe image. */
  ghost predicate SafeThroughout(e: Job)
    requires Ready(e)
  {
    forall n: nat, img :: Crashed(e, n, img) ==> SafeImage(e, img)
  }

  /** Whatever the run has changed, it has not made anything exposed that was not when everything was staged. */
  lemma ExposedAtStaging(e: Job, start: Image, staged: Image)
    requires Ready(e) && StagedImage(e, staged) && CrashedInRun(e, start) && Sized(e.g, start) && Exposed(e, start)
    ensures Exposed(e, staged)
  {
    hide Ready, StagedImage, FirstRunTo, ExposedAt, ByteProgress;
    var run, order, ops, k: nat :| FirstRunTo(e, run, order, ops, k, start);
    CrashedBytes(e, run, order, ops, k, start);
    assert StagedImage(e, run) by { RunIsStaged(e, run, order, ops, k, start); }
    StagedSized(e, staged);
    var p, o: nat :| ExposedAt(e, start, p, o);
    ExposedBefore(e, run, start, p, o);
    ExposedAlike(e, run, staged, p, o);
  }

  lemma RunIsStaged(e: Job, run: Image, order: seq<nat>, ops: seq<Op>, k: nat, img: Image)
    requires Ready(e) && FirstRunTo(e, run, order, ops, k, img)
    ensures StagedImage(e, run)
  {
    hide Ready, StagedImage, Permutation, FirstCourse, AfterCrash;
  }

  lemma ExposedBefore(e: Job, staged: Image, img: Image, p: Place, o: nat)
    requires Ready(e) && Sized(e.g, staged) && Sized(e.g, img) && ByteProgress(e, staged, img)
             && ExposedAt(e, img, p, o)
    ensures ExposedAt(e, staged, p, o)
  {
    hide Ready, Counts, Changes, Sized, ByteProgress;
    ReadySizes(e);
    ReadyTargets(e);
    forall q, r: nat | Changes(e, img, q, r) ensures Changes(e, staged, q, r) {
      ChangesBefore(e, staged, img, q, r);
    }
  }

  lemma ChangesBefore(e: Job, staged: Image, img: Image, p: Place, o: nat)
    requires Ready(e) && Sized(e.g, staged) && Sized(e.g, img) && ByteProgress(e, staged, img) && Changes(e, img, p, o)
    ensures Changes(e, staged, p, o)
  {
    hide Ready, CanonicalPiece, CanonicalAt, Counts;
    var x := ChangeOf(e, img, p, o);
    GoalUnique(e, p, x, x);
    forall y | Goal(e, p, y) ensures y == x { GoalUnique(e, p, y, x); }
    assert ChangeTo(e, staged, p, o, x);
  }

  /** Staged volumes differ in nothing that recovery changes. */
  lemma ExposedAlike(e: Job, a: Image, b: Image, p: Place, o: nat)
    requires Ready(e) && StagedImage(e, a) && StagedImage(e, b) && ExposedAt(e, a, p, o)
    ensures ExposedAt(e, b, p, o)
  {
    hide Ready, Counts, Changes, StagedImage;
    ReadySizes(e);
    ReadyTargets(e);
    forall q, r: nat | Changes(e, a, q, r) ensures Changes(e, b, q, r) {
      ChangesAlike(e, a, b, q, r);
    }
  }

  lemma ChangesAlike(e: Job, a: Image, b: Image, p: Place, o: nat)
    requires Ready(e) && StagedImage(e, a) && StagedImage(e, b) && Changes(e, a, p, o)
    ensures Changes(e, b, p, o)
  {
    hide Ready, CanonicalPiece, Counts, CellContent;
    var x := ChangeOf(e, a, p, o);
    ReadyTargets(e);
    ReadySizes(e);
    if !p.Fat? {
      var i, j :| CellOf(e, i, j) && p == TargetCell(e, i, j) && x == CanonicalPiece(e, i, j);
      TargetInside(e, i, j);
    }
    assert !InWorkspace(e, p) && p in e.orig && b[p] == a[p];
    assert ChangeTo(e, b, p, o, x);
  }

  /** Clean-flag safety over every run, with any number of crashes in the run, its rollback and its recoveries: it holds
      exactly when nothing is exposed once the object set is staged. */
  lemma CleanFlagSafeExactly(e: Job, staged: Image)
    requires Ready(e) && StagedImage(e, staged)
    ensures SafeThroughout(e) <==> !Exposed(e, staged)
  {
    hide Ready, CrashedInRun, CleanOriginal, Exposed, SafeImage, GuardedImage, Crashed, CrashedFrom, RecoverableImage,
         StagedImage, Sized;
    if !Exposed(e, staged) {
      forall n: nat, img | Crashed(e, n, img) ensures SafeImage(e, img) {
        var start := CrashedSplits(e, n, img);
        FirstCrashKinds(e, start);
        if GuardedImage(e, start) {
          GuardedForever(e, start, n, img);
        } else {
          if Exposed(e, start) { ExposedAtStaging(e, start, staged); }
          UnexposedIsSafe(e, start, n, img);
        }
      }
    }
    if SafeThroughout(e) {
      StagedIsClean(e, staged);
      forall n: nat, img | CrashedFrom(e, staged, n, img) ensures SafeImage(e, img) {
        CrashedJoins(e, staged, n, img);
      }
      RecoverySafeExactly(e, staged);
    }
  }

  /** The failure is real: whenever the root directory moves and some byte of the FAT or of an allocated cluster
      changes, a staged volume is exposed, */
  lemma MovedRootIsExposed(e: Job, staged: Image, p: Place, o: nat)
    requires Ready(e) && StagedImage(e, staged) && Head(Main) in e.orig && |e.orig[Head(Main)]| >= MIN_SECTOR
    requires |e.targets| > 2 && RootOf(e.orig[Head(Main)]) != e.targets[2]
    requires Counts(e, p) && Changes(e, staged, p, o)
    ensures Exposed(e, staged)
  {
    hide Ready, Changes, Counts;
    ReadySizes(e);
    ReadyTargets(e);
    assert ExposedAt(e, staged, p, o);
  }

  /** and so it is whenever two bytes of allocated clusters change; */
  lemma TwoBytesAreExposed(e: Job, staged: Image, p: Place, o: nat, q: Place, r: nat)
    requires Ready(e) && StagedImage(e, staged) && !p.Fat? && (q != p || r != o)
    requires Counts(e, p) && Changes(e, staged, p, o) && Changes(e, staged, q, r)
    ensures Exposed(e, staged)
  {
    hide Ready, Changes, Counts;
    ReadySizes(e);
    ReadyTargets(e);
    assert ExposedAt(e, staged, p, o);
  }

  /** for example when the FAT itself changes and the root moves. Then two crashes, one right after publication and one
      in the recovery, leave a clean flag over a mixture of the layouts. */
  lemma CleanFlagFails(e: Job, staged: Image) returns (n: nat, img: Image)
    requires Ready(e) && StagedImage(e, staged) && Head(Main) in e.orig && |e.orig[Head(Main)]| >= MIN_SECTOR
    requires |e.targets| > 2 && RootOf(e.orig[Head(Main)]) != e.targets[2]
    requires Fat in e.orig && e.fat != e.orig[Fat]
    ensures Crashed(e, n, img) && !SafeImage(e, img)
  {
    hide Ready, StagedImage, CrashedInRun, CleanOriginal, Exposed, SafeImage, Crashed, CrashedFrom;
    StagedIsClean(e, staged);
    var o := FatByteChanges(e, staged);
    MovedRootIsExposed(e, staged, Fat, o);
    RecoverySafeExactly(e, staged);
    n, img :| CrashedFrom(e, staged, n, img) && !SafeImage(e, img);
    CrashedJoins(e, staged, n, img);
  }

  lemma FatByteChanges(e: Job, staged: Image) returns (o: nat)
    requires Ready(e) && StagedImage(e, staged) && Fat in e.orig && e.fat != e.orig[Fat]
    ensures Counts(e, Fat) && Changes(e, staged, Fat, o)
  {
    hide Ready, Places;
    ReadySizes(e);
    ReadyTargets(e);
    StagedBoot(e, staged);
    o := FirstDifference(staged[Fat], e.fat);
    assert ChangeTo(e, staged, Fat, o, e.fat);
  }
}
