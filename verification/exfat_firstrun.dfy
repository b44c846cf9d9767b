/** What a crash of the first run can leave: in every place the staged content, the canonical one, or a mixture. */
module ExfatFirstRun {
  import opened Bytes
  import opened ExfatPlan
  import opened ExfatBoot
  import opened ExfatDevice
  import opened ExfatProtocol
  import opened ExfatRecovery
  import opened ExfatReplay
  import opened ExfatCourse
  import opened ExfatCleanFlag
  import opened ExfatGuarded
  import opened ExfatProgress
  import opened Wrappers

  // ---- what the run writes ----------------------------------------------------------------------

  /** A write of data is a canonical one or brings original content back; the main copy gets its own sector 0, flagged,
      committed or original. */
  ghost predicate CourseWrite(e: Job, p: Place, x: seq<byte>)
    requires Ready(e)
  {
    ReadySizes(e);
    && (p == Head(Main) ==>
         x == DirtyHead(e, Main) || x == e.orig[Head(Main)] || x == NewHead(e, e.orig[Head(Main)]))
    && (!Boot(p) ==> Goal(e, p, x) || Brought(e, p, x))
  }

  ghost predicate Brought(e: Job, p: Place, x: seq<byte>)
    requires Ready(e)
  {
    exists i, j :: CellOf(e, i, j) && p == OwnedCell(e, i, j) && x == CellContent(e, i, j)
  }

  lemma CourseWrites(e: Job, order: seq<nat>, ops: seq<Op>, p: Place, x: seq<byte>)
    requires Ready(e) && Indexes(e, order) && FirstCourse(e, order, ops) && Writes(ops, p, x)
    ensures CourseWrite(e, p, x)
  {
    hide Ready, PlaceOps, BackOps, DirtyOps, CommitOps, RestoreOps, CourseWrite;
    ReadySizes(e);
    if ops == CompleteOps(e, order) {
      if Writes(DirtyOps(e.orig), p, x) {
        DirtyWrites(e, p, x);
      } else if Writes(PlaceOps(e, order, |order|), p, x) {
        PlacesGoals(e, order, p, x);
      } else {
        assert Writes(CommitOps(e, e.orig), p, x);
        CommitWrites(e, p, x);
      }
    } else {
      var stop: nat :| stop <= |PlaceOps(e, order, |order|)| && ops == StoppedOps(e, order, stop);
      if Writes(DirtyOps(e.orig), p, x) {
        DirtyWrites(e, p, x);
      } else if Writes(PlaceOps(e, order, |order|)[..stop], p, x) {
        assert Writes(PlaceOps(e, order, |order|), p, x);
        PlacesGoals(e, order, p, x);
      } else if Writes(BackOps(e, |e.lists|), p, x) {
        BackBrings(e, p, x);
      } else {
        assert Writes(RestoreOps(e), p, x);
        RestoreWrites(e, p, x);
      }
    }
  }

  lemma DirtyWrites(e: Job, p: Place, x: seq<byte>)
    requires Ready(e) && Sized(e.g, e.orig) && Writes(DirtyOps(e.orig), p, x)
    ensures CourseWrite(e, p, x)
  {
    hide Ready, DirtyHead, NewHead;
    DirtyOpsAre(e);
  }

  lemma PlacesGoals(e: Job, order: seq<nat>, p: Place, x: seq<byte>)
    requires Ready(e) && Indexes(e, order) && Writes(PlaceOps(e, order, |order|), p, x)
    ensures CourseWrite(e, p, x)
  {
    hide Ready, DirtyHead, NewHead, CanonicalPiece;
    ReadyTargets(e);
    var k, j := PlaceWrites(e, order, |order|, p, x);
    assert CanonicalAt(e, p, x);
  }

  lemma CommitWrites(e: Job, p: Place, x: seq<byte>)
    requires Ready(e) && Sized(e.g, e.orig) && Writes(CommitOps(e, e.orig), p, x)
    ensures CourseWrite(e, p, x)
  {
    hide Ready, DirtyHead, NewHead, SumSector, HeadSum;
    ReadySizes(e);
  }

  lemma BackBrings(e: Job, p: Place, x: seq<byte>)
    requires Ready(e) && Writes(BackOps(e, |e.lists|), p, x)
    ensures CourseWrite(e, p, x)
  {
    hide Ready, DirtyHead, NewHead, CellContent;
    ReadySizes(e);
    var i, j := BackWrites(e, |e.lists|, p, x);
    assert Brought(e, p, x);
  }

  lemma RestoreWrites(e: Job, p: Place, x: seq<byte>)
    requires Ready(e) && Writes(RestoreOps(e), p, x)
    ensures CourseWrite(e, p, x)
  {
    hide Ready, DirtyHead, NewHead;
    ReadySizes(e);
  }

  // ---- what a crash leaves ----------------------------------------------------------------------

  lemma Possible(e: Job, staged: Image, order: seq<nat>, ops: seq<Op>, k: nat, p: Place, x: seq<byte>)
    requires Ready(e) && StagedImage(e, staged) && Indexes(e, order) && FirstCourse(e, order, ops) && k <= |ops|
    requires p in staged
    requires var d := Execute(Settled(staged, Some(e.m)), ops[..k]); p in d.maybe && x in d.maybe[p]
    ensures x == staged[p] || CourseWrite(e, p, x)
  {
    hide Ready, StagedImage, Execute, FirstCourse, CourseWrite, Indexes;
    var d := Settled(staged, Some(e.m));
    PossibleAfter(d, ops[..k], p, x);
    if x != staged[p] {
      assert Writes(ops[..k], p, x);
      assert Writes(ops, p, x);
      CourseWrites(e, order, ops, p, x);
    }
  }

  /** Every byte that counts, or that has a canonical value, is the staged one or the canonical one. */
  lemma CrashedBytes(e: Job, staged: Image, order: seq<nat>, ops: seq<Op>, k: nat, img: Image)
    requires Ready(e) && FirstRunTo(e, staged, order, ops, k, img) && Sized(e.g, img)
    ensures Sized(e.g, staged) && ByteProgress(e, staged, img)
  {
    hide Ready, StagedImage, Execute, FirstCourse, CourseWrite, Indexes, Permutation, Goal, Counts;
    StagedSized(e, staged);
    var d := Settled(staged, Some(e.m));
    var r := Execute(d, ops[..k]);
    RunValid(d, ops[..k]);
    forall p, o: nat | p in staged && p in img && (Counts(e, p) || exists x :: Goal(e, p, x)) && o < |img[p]|
      ensures (o < |staged[p]| && img[p][o] == staged[p][o])
              || exists x :: Goal(e, p, x) && o < |x| && img[p][o] == x[o]
    {
      DataPlace(e, p);
      assert Mixed(r.maybe[p], img[p]);
      var x :| x in r.maybe[p] && o < |x| && x[o] == img[p][o];
      Possible(e, staged, order, ops, k, p, x);
      if x != staged[p] {
        DataWrite(e, staged, p, x);
      }
    }
  }

  lemma StagedSized(e: Job, staged: Image)
    requires Ready(e) && StagedImage(e, staged)
    ensures Sized(e.g, staged)
  {
  }

  /** What is brought back is what has been staged beside it. */
  lemma DataWrite(e: Job, staged: Image, p: Place, x: seq<byte>)
    requires Ready(e) && StagedImage(e, staged) && p in staged && !Boot(p) && CourseWrite(e, p, x)
    ensures x == staged[p] || Goal(e, p, x)
  {
    hide Ready, StagedImage, Goal, DirtyHead, NewHead, CellContent;
    if !Goal(e, p, x) {
      var i, j :| CellOf(e, i, j) && p == OwnedCell(e, i, j) && x == CellContent(e, i, j);
      StagedOriginal(e, staged);
    }
  }

  /** The main copy never gets anything but its own sector 0. */
  lemma MainFits(e: Job, staged: Image, order: seq<nat>, ops: seq<Op>, k: nat, img: Image)
    requires Ready(e) && FirstRunTo(e, staged, order, ops, k, img) && Sized(e.g, img)
    ensures Head(Main) in img && Fits(e, img[Head(Main)])
  {
    hide Ready, StagedImage, Execute, FirstCourse, Indexes, Permutation, DirtyHead, NewHead, Fits, Goal, Brought;
    StagedSized(e, staged);
    SidesPresent(e, img);
    var d := Settled(staged, Some(e.m));
    RunValid(d, ops[..k]);
    assert Survives(Head(Main), Execute(d, ops[..k]).maybe[Head(Main)], img[Head(Main)]);
    Possible(e, staged, order, ops, k, Head(Main), img[Head(Main)]);
    StagedBoot(e, staged);
    OpenedMain(e);
    assert Boot(Head(Main));
    DirtyHeadFits(e, Main);
    NewHeadFits(e, e.orig[Head(Main)]);
  }
}
