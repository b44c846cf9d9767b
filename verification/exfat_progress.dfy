/** How far recoveries have come: over any number of crashed recoveries every byte of data is the starting one or the
    canonical one, the FAT changes after every target, and the main boot copy after everything. */
module ExfatProgress {
  import opened Bytes
  import opened ExfatManifest
  import opened ExfatPlan
  import opened ExfatBoot
  import opened ExfatDevice
  import opened ExfatProtocol
  import opened ExfatRecovery
  import opened ExfatReplay
  import opened ExfatCourse
  import opened ExfatCleanFlag
  import opened ExfatGuarded
  import opened Wrappers

  /** Recovery writes x to place p. */
  ghost predicate Goal(e: Job, p: Place, x: seq<byte>)
    requires Ready(e)
  {
    (p.Fat? && x == e.fat) || CanonicalAt(e, p, x)
  }

  /** Place p counts for the original layout. */
  ghost predicate Counts(e: Job, p: Place) {
    p.Fat? || exists i, j :: CellOf(e, i, j) && p == OwnedCell(e, i, j)
  }

  lemma GoalUnique(e: Job, p: Place, x: seq<byte>, y: seq<byte>)
    requires Ready(e) && Goal(e, p, x) && Goal(e, p, y)
    ensures x == y && |x| == SizeOf(e.g, p) && p in Places(e.g)
  {
    hide Ready, CanonicalPiece;
    ReadyTargets(e);
    if !p.Fat? {
      var i, j :| CellOf(e, i, j) && p == TargetCell(e, i, j) && x == CanonicalPiece(e, i, j);
      var k, l :| CellOf(e, k, l) && p == TargetCell(e, k, l) && y == CanonicalPiece(e, k, l);
      TargetInjective(e, i, j, k, l);
      TargetInside(e, i, j);
    }
  }

  // ---- images between the start and the canonical layout ----------------------------------------

  /** Every byte is the starting one or the one recovery writes there. */
  ghost predicate ByteProgress(e: Job, img: Image, now: Image)
    requires Ready(e)
  {
    forall p, o: nat | p in img && p in now && (Counts(e, p) || exists x :: Goal(e, p, x)) && o < |now[p]| ::
      || (o < |img[p]| && now[p][o] == img[p][o])
      || exists x :: Goal(e, p, x) && o < |x| && now[p][o] == x[o]
  }

  /** All data is canonical, or the main boot copy is valid and still has the old root. */
  ghost predicate Ordered(e: Job, img: Image)
    requires Ready(e)
  {
    CanonicalData(e, img) || (CopyOk(img, Main) && OldRoot(e, img[Head(Main)]))
  }

  /** What recoveries that started on img can have reached. */
  ghost predicate Progress(e: Job, img: Image, now: Image)
    requires Ready(e)
  {
    && RecoverableImage(e, now) && ByteProgress(e, img, now) && Ordered(e, now)
    && (Fat in img && now[Fat] != img[Fat] ==> PlacedAll(e, now))
  }

  lemma ProgressStarts(e: Job, img: Image)
    requires Ready(e) && RecoverableImage(e, img) && Ordered(e, img)
    ensures Progress(e, img, img)
  {
    hide Ready, Keeps, CopyOk, OldRoot, CanonicalData, Goal;
  }

  /** Progress made by one recovery adds to the progress made before it. */
  lemma ProgressAdds(e: Job, start: Image, before: Image, now: Image)
    requires Ready(e) && RecoverableImage(e, start) && Progress(e, start, before) && Progress(e, before, now)
    ensures Progress(e, start, now)
  {
    hide Ready, Keeps, CopyOk, OldRoot, CanonicalData, PlacedAll, Goal, Counts, Places;
    forall p, o: nat | p in start && p in now && (Counts(e, p) || exists x :: Goal(e, p, x)) && o < |now[p]|
      ensures (o < |start[p]| && now[p][o] == start[p][o]) || exists x :: Goal(e, p, x) && o < |x| && now[p][o] == x[o]
    {
      assert p in before && |before[p]| == |now[p]|;
      if now[p][o] == before[p][o] {
        assert (o < |start[p]| && before[p][o] == start[p][o])
            || exists x :: Goal(e, p, x) && o < |x| && before[p][o] == x[o];
      }
    }
    FatThere(e, start, before, now);
    if now[Fat] != start[Fat] && now[Fat] == before[Fat] {
      PlacedStays(e, before, now);
    }
  }

  lemma FatThere(e: Job, a: Image, b: Image, c: Image)
    requires Sized(e.g, a) && Sized(e.g, b) && Sized(e.g, c)
    ensures Fat in a && Fat in b && Fat in c
  {
  }

  /** What is placed stays placed. */
  lemma PlacedStays(e: Job, before: Image, now: Image)
    requires Ready(e) && Sized(e.g, before) && Sized(e.g, now) && ByteProgress(e, before, now) && PlacedAll(e, before)
    ensures PlacedAll(e, now)
  {
    hide Ready, CanonicalPiece, Places;
    forall i, j | CellOf(e, i, j)
      ensures TargetCell(e, i, j) in now && now[TargetCell(e, i, j)] == CanonicalPiece(e, i, j)
    {
      PieceStays(e, before, now, i, j);
    }
  }

  lemma PieceStays(e: Job, before: Image, now: Image, i: nat, j: nat)
    requires Ready(e) && Sized(e.g, before) && Sized(e.g, now) && ByteProgress(e, before, now) && PlacedAll(e, before)
    requires CellOf(e, i, j) && ReadyTargetsHold(e)
    ensures TargetCell(e, i, j) in now && now[TargetCell(e, i, j)] == CanonicalPiece(e, i, j)
  {
    hide Ready, CanonicalPiece, Places;
    ReadyTargets(e);
    TargetInside(e, i, j);
    var p, y := TargetCell(e, i, j), CanonicalPiece(e, i, j);
    assert CanonicalAt(e, p, y) && Goal(e, p, y);
    assert p in before && before[p] == y && |now[p]| == |y|;
    forall x | Goal(e, p, x) ensures x == y { GoalUnique(e, p, x, y); }
    forall o: nat | o < |y| ensures now[p][o] == y[o] {
      assert now[p][o] == before[p][o];
    }
  }

  // ---- one recovery -----------------------------------------------------------------------------

  /** All possible contents are starting ones or goals. */
  ghost predicate MaybeProgress(e: Job, img: Image, d: Device)
    requires Ready(e)
  {
    forall p, x | p in img && p in d.maybe && !Boot(p) && x in d.maybe[p] :: x == img[p] || Goal(e, p, x)
  }

  ghost predicate SurePlaced(e: Job, d: Device)
    requires Ready(e)
  {
    ReadyTargetsHold(e) && forall i, j | CellOf(e, i, j) :: Certain(d, TargetCell(e, i, j), CanonicalPiece(e, i, j))
  }

  /** The main copy is certainly valid, with the old root. */
  ghost predicate MainOld(e: Job, d: Device)
    requires Ready(e)
  {
    HeadsOld(e, d) && Sure(d, Main)
  }

  ghost predicate InProgress(e: Job, img: Image, d: Device)
    requires Ready(e)
  {
    && MaybeProgress(e, img, d)
    && ((Fat in img && Certain(d, Fat, img[Fat])) || SurePlaced(e, d))
    && (MainOld(e, d) || SureCanonical(e, d))
  }

  lemma CrashProgress(e: Job, img: Image, d: Device, now: Image)
    requires Ready(e) && RecoverableImage(e, img) && Recoverable(e, d) && InProgress(e, img, d) && AfterCrash(d, now)
    ensures Progress(e, img, now)
  {
    hide Ready, Keeps, ValidCopy, CanonicalPiece, CellContent, OldRoot, Goal, Counts, Certain, MaybeProgress, Sure,
         Kept, CopyOk;
    CrashRecoverable(e, d, now);
    SidesPresent(e, now);
    BootOptions(e, d, now, Main);
    CertainData(e, d, now);
    CrashBytes(e, img, d, now);
    if Fat in img && Certain(d, Fat, img[Fat]) {
      CertainFat(e, d, now, img[Fat]);
    } else {
      CertainTargets(e, d, now);
    }
  }

  lemma CertainFat(e: Job, d: Device, now: Image, x: seq<byte>)
    requires Ready(e) && Sized(e.g, now) && AfterCrash(d, now) && Certain(d, Fat, x)
    ensures now[Fat] == x
  {
    hide Ready;
    CertainSurvives(d, now, Fat, x);
  }

  lemma CertainTargets(e: Job, d: Device, now: Image)
    requires Ready(e) && AfterCrash(d, now) && SurePlaced(e, d)
    ensures PlacedAll(e, now)
  {
    hide Ready, CanonicalPiece;
    forall i, j | CellOf(e, i, j)
      ensures TargetCell(e, i, j) in now && now[TargetCell(e, i, j)] == CanonicalPiece(e, i, j)
    {
      assert Certain(d, TargetCell(e, i, j), CanonicalPiece(e, i, j));
      CertainSurvives(d, now, TargetCell(e, i, j), CanonicalPiece(e, i, j));
    }
  }

  lemma CrashBytes(e: Job, img: Image, d: Device, now: Image)
    requires Ready(e) && Sized(e.g, img) && Sized(e.g, now) && MaybeProgress(e, img, d) && AfterCrash(d, now)
    ensures ByteProgress(e, img, now)
  {
    hide Ready, Goal, Sized;
    forall p, o: nat | p in img && p in now && (Counts(e, p) || exists x :: Goal(e, p, x)) && o < |now[p]|
      ensures (o < |img[p]| && now[p][o] == img[p][o]) || exists x :: Goal(e, p, x) && o < |x| && now[p][o] == x[o]
    {
      DataPlace(e, p);
      assert Mixed(d.maybe[p], now[p]);
      var x :| x in d.maybe[p] && o < |x| && x[o] == now[p][o];
    }
  }

  lemma DataPlace(e: Job, p: Place)
    requires Ready(e) && (Counts(e, p) || exists x :: Goal(e, p, x))
    ensures !Boot(p)
  {
    hide Ready;
  }

  ghost predicate AlwaysInProgress(e: Job, img: Image, d: Device, ops: seq<Op>)
    requires Ready(e)
  {
    forall k | 0 <= k <= |ops| :: InProgress(e, img, Execute(d, ops[..k]))
  }

  lemma ProgressConcat(e: Job, img: Image, d: Device, a: seq<Op>, b: seq<Op>)
    requires Ready(e) && AlwaysInProgress(e, img, d, a) && AlwaysInProgress(e, img, Execute(d, a), b)
    ensures AlwaysInProgress(e, img, d, a + b)
  {
    hide Ready, InProgress;
    forall k | 0 <= k <= |a + b| ensures InProgress(e, img, Execute(d, (a + b)[..k])) {
      if k <= |a| {
        assert (a + b)[..k] == a[..k];
      } else {
        assert (a + b)[..k] == a + b[..k - |a|];
        RunConcat(d, a, b[..k - |a|]);
      }
    }
  }

  // ---- what one write leaves as it is -----------------------------------------------------------

  lemma MaybeAfter(e: Job, img: Image, d: Device, p: Place, x: seq<byte>)
    requires Ready(e) && d.Valid() && MaybeProgress(e, img, d) && (Boot(p) || Goal(e, p, x))
    ensures MaybeProgress(e, img, Apply(d, Write(p, x)))
  {
    hide Ready, Goal;
  }

  lemma CertainAfter(d: Device, p: Place, x: seq<byte>, q: Place, y: seq<byte>)
    requires d.Valid() && Certain(d, q, y) && (q != p || x == y)
    ensures Certain(Apply(d, Write(p, x)), q, y)
  {
  }

  lemma PlacedAfter(e: Job, d: Device, p: Place, x: seq<byte>)
    requires Ready(e) && d.Valid() && SurePlaced(e, d) && !p.Cluster?
    ensures SurePlaced(e, Apply(d, Write(p, x)))
  {
    hide Ready, CanonicalPiece, Certain, Apply;
    forall i, j | CellOf(e, i, j)
      ensures Certain(Apply(d, Write(p, x)), TargetCell(e, i, j), CanonicalPiece(e, i, j))
    {
      CertainAfter(d, p, x, TargetCell(e, i, j), CanonicalPiece(e, i, j));
    }
  }

  lemma MainOldAfter(e: Job, d: Device, p: Place, x: seq<byte>)
    requires Ready(e) && d.Valid() && MainOld(e, d) && !AtSide(p, Main)
    ensures MainOld(e, Apply(d, Write(p, x)))
  {
    hide Ready, OldRoot, ValidCopy, Mixed;
    assert forall q | q in d.maybe && q != p ::
          q in Apply(d, Write(p, x)).maybe && Apply(d, Write(p, x)).maybe[q] == d.maybe[q];
  }

  lemma CanonicalAfter(e: Job, d: Device, p: Place, x: seq<byte>)
    requires Ready(e) && d.Valid() && SureCanonical(e, d) && !p.Cluster? && (p.Fat? ==> x == e.fat)
    ensures SureCanonical(e, Apply(d, Write(p, x)))
  {
    hide Ready, CanonicalPiece, Certain, Apply;
    PlacedAfter(e, d, p, x);
    CertainAfter(d, p, x, Fat, e.fat);
  }

  lemma ValidAfter(d: Device, op: Op)
    requires d.Valid()
    ensures Apply(d, op).Valid()
  {
  }

  /** Writing a boot sector leaves the data as it is; the main copy is written over canonical data only. */
  lemma SectorProgress(e: Job, img: Image, d: Device, p: Place, x: seq<byte>)
    requires Ready(e) && d.Valid() && Boot(p) && InProgress(e, img, d)
    requires p.side == Main ==> SureCanonical(e, d)
    ensures InProgress(e, img, Apply(d, Write(p, x))) && Apply(d, Write(p, x)).Valid()
    ensures SureCanonical(e, d) ==> SureCanonical(e, Apply(d, Write(p, x)))
  {
    hide Ready, MaybeProgress, SurePlaced, SureCanonical, MainOld, Certain, Apply;
    ValidAfter(d, Write(p, x));
    MaybeAfter(e, img, d, p, x);
    if Fat in img && Certain(d, Fat, img[Fat]) { CertainAfter(d, p, x, Fat, img[Fat]); }
        else { PlacedAfter(e, d, p, x); }
    if SureCanonical(e, d) { CanonicalAfter(e, d, p, x); } else { MainOldAfter(e, d, p, x); }
  }

  lemma SyncProgress(e: Job, img: Image, d: Device)
    requires Ready(e) && d.Valid() && InProgress(e, img, d)
    ensures InProgress(e, img, Apply(d, Sync)) && Apply(d, Sync).Valid()
    ensures SureCanonical(e, d) ==> SureCanonical(e, Apply(d, Sync))
  {
    hide Ready, CanonicalPiece, OldRoot, Goal, Sure;
    if Sure(d, Main) { SureSettled(d, Main); }
    var r := Apply(d, Sync);
    forall q, y | Certain(d, q, y) ensures Certain(r, q, y) { }
    forall q, y | q in r.maybe && y in r.maybe[q] ensures q in d.maybe && y in d.maybe[q] { }
  }

  lemma UpdateProgress(e: Job, img: Image, d: Device, side: Side, c: Copy)
    requires Ready(e) && d.Valid() && InProgress(e, img, d)
    requires side == Main ==> SureCanonical(e, d)
    ensures AlwaysInProgress(e, img, d, UpdateOps(side, c))
    ensures SureCanonical(e, d) ==> SureCanonical(e, Execute(d, UpdateOps(side, c)))
  {
    hide Ready, InProgress, SureCanonical, UpdateOps;
    UpdateSteps(d, side, c);
    var d1 := Apply(d, Write(Head(side), c.head));
    var d2 := Apply(d1, Write(Mid(side), c.mid));
    var d3 := Apply(d2, Write(Sum(side), c.sum));
    SectorProgress(e, img, d, Head(side), c.head);
    SectorProgress(e, img, d1, Mid(side), c.mid);
    SectorProgress(e, img, d2, Sum(side), c.sum);
    SyncProgress(e, img, d3);
    var ops := UpdateOps(side, c);
    forall k | 0 <= k <= |ops| ensures InProgress(e, img, Execute(d, ops[..k])) {
      assert k == 0 || k == 1 || k == 2 || k == 3 || k == 4;
    }
  }

  /** The start: nothing has changed yet. */
  lemma StartProgress(e: Job, img: Image)
    requires Ready(e) && RecoverableImage(e, img) && Ordered(e, img)
    ensures InProgress(e, img, Settled(img, Some(e.m))) && Settled(img, Some(e.m)).Valid()
    ensures CanonicalData(e, img) ==> SureCanonical(e, Settled(img, Some(e.m)))
    ensures Fat in img && Certain(Settled(img, Some(e.m)), Fat, img[Fat])
  {
    hide Ready, CanonicalPiece, CellContent, Keeps, OldRoot, Goal, CopyOk, CanonicalData, SureCanonical, Sure;
    SidesPresent(e, img);
    SettledRecoverable(e, img);
    SettledData(e, img, Some(e.m));
    FatThere(e, img, img, img);
    var d := Settled(img, Some(e.m));
    assert d.maybe[Head(Main)] == {img[Head(Main)]};
  }

  /** Placement writes goals only, and keeps what is certain. */
  lemma PlaceProgress(e: Job, img: Image, d: Device, order: seq<nat>, k: nat)
    requires Ready(e) && Kept(e, d) && Indexes(e, order) && k <= |ReplayOps(e, order)|
    requires InProgress(e, img, d) && Fat in img && Certain(d, Fat, img[Fat])
    ensures InProgress(e, img, Execute(d, ReplayOps(e, order)[..k]))
    ensures Certain(Execute(d, ReplayOps(e, order)[..k]), Fat, img[Fat])
  {
    hide Ready, Keeps, Execute, PlaceOps, CanonicalPiece, OldRoot, SurePlaced, ValidCopy, Certain, ReplayOps,
         SureCanonical;
    var r := Execute(d, ReplayOps(e, order)[..k]);
    StaysCertain(e, d, order, k, Fat, img[Fat]);
    PlaceGoals(e, img, d, order, k);
    PlaceMain(e, d, order, k);
    if SureCanonical(e, d) {
      PlaceCanonical(e, d, order, k);
    }
  }

  lemma PlaceGoals(e: Job, img: Image, d: Device, order: seq<nat>, k: nat)
    requires Ready(e) && Kept(e, d) && Indexes(e, order) && k <= |ReplayOps(e, order)| && MaybeProgress(e, img, d)
    ensures MaybeProgress(e, img, Execute(d, ReplayOps(e, order)[..k]))
  {
    hide Ready, Keeps, Execute, PlaceOps, CanonicalPiece;
    ReadyTargets(e);
    var all := ReplayOps(e, order);
    var r := Execute(d, all[..k]);
    RunValid(d, all[..k]);
    forall p, x | p in img && p in r.maybe && !Boot(p) && x in r.maybe[p] ensures x == img[p] || Goal(e, p, x) {
      PossibleAfter(d, all[..k], p, x);
      if Writes(all[..k], p, x) {
        assert Writes(PlaceOps(e, order, |order|), p, x);
        var n, j := PlaceWrites(e, order, |order|, p, x);
        assert CanonicalAt(e, p, x);
      }
    }
  }

  lemma PlaceMain(e: Job, d: Device, order: seq<nat>, k: nat)
    requires Ready(e) && Kept(e, d) && Indexes(e, order) && k <= |ReplayOps(e, order)|
    ensures MainOld(e, d) ==> MainOld(e, Execute(d, ReplayOps(e, order)[..k]))
  {
    hide Ready, Keeps, Execute, PlaceOps, OldRoot, Sure;
    PlaceIsData(e, order, |order|);
    assert DataOnly(ReplayOps(e, order));
    if Sure(d, Main) { DataKeepsSure(e, d, ReplayOps(e, order)[..k], Main); }
  }

  lemma PlaceCanonical(e: Job, d: Device, order: seq<nat>, k: nat)
    requires Ready(e) && Kept(e, d) && Indexes(e, order) && k <= |ReplayOps(e, order)| && SureCanonical(e, d)
    ensures SureCanonical(e, Execute(d, ReplayOps(e, order)[..k]))
  {
    hide Ready, Keeps, Execute, ReplayOps, CanonicalPiece, Certain;
    StaysCertain(e, d, order, k, Fat, e.fat);
    var r := Execute(d, ReplayOps(e, order)[..k]);
    forall i, j | CellOf(e, i, j) ensures Certain(r, TargetCell(e, i, j), CanonicalPiece(e, i, j)) {
      assert CanonicalAt(e, TargetCell(e, i, j), CanonicalPiece(e, i, j));
      StaysCertain(e, d, order, k, TargetCell(e, i, j), CanonicalPiece(e, i, j));
    }
  }

  /** The FAT write comes after all targets are certain. */
  lemma FatProgress(e: Job, img: Image, d: Device)
    requires Ready(e) && Kept(e, d) && InProgress(e, img, d) && SurePlaced(e, d)
    ensures var ops := [Write(Fat, e.fat), Sync];
            AlwaysInProgress(e, img, d, ops) && SureCanonical(e, Execute(d, ops))
  {
    hide Ready, Keeps, CanonicalPiece, OldRoot, ValidCopy, Mixed;
    var w := Write(Fat, e.fat);
    var d1 := Apply(d, w);
    forall p, x | Certain(d, p, x) && (!p.Fat? || x == e.fat) ensures Certain(d1, p, x) { }
    FatKept(e);
    assert Goal(e, Fat, e.fat);
    FatWritten(e, img, d);
    SyncProgress(e, img, d1);
    var d2 := Apply(d1, Sync);
    forall p, x | Certain(d1, p, x) ensures Certain(d2, p, x) { }
    assert Certain(d2, Fat, e.fat);
    TwoSteps(d, w, Sync);
    ProgressTwo(e, img, d, [w, Sync]);
  }

  lemma FatWritten(e: Job, img: Image, d: Device)
    requires Ready(e) && Kept(e, d) && InProgress(e, img, d) && SurePlaced(e, d)
    ensures InProgress(e, img, Apply(d, Write(Fat, e.fat))) && Apply(d, Write(Fat, e.fat)).Valid()
  {
    hide Ready, Keeps, MaybeProgress, SurePlaced, SureCanonical, MainOld, Certain, Apply;
    ValidAfter(d, Write(Fat, e.fat));
    assert Goal(e, Fat, e.fat);
    MaybeAfter(e, img, d, Fat, e.fat);
    PlacedAfter(e, d, Fat, e.fat);
    if SureCanonical(e, d) { CanonicalAfter(e, d, Fat, e.fat); } else { MainOldAfter(e, d, Fat, e.fat); }
  }

  lemma ProgressTwo(e: Job, img: Image, d: Device, ops: seq<Op>)
    requires Ready(e) && |ops| == 2
    requires InProgress(e, img, Execute(d, ops[..0])) && InProgress(e, img, Execute(d, ops[..1]))
             && InProgress(e, img, Execute(d, ops[..2]))
    ensures AlwaysInProgress(e, img, d, ops)
  {
    hide Ready, InProgress, Execute;
    forall k | 0 <= k <= |ops| ensures InProgress(e, img, Execute(d, ops[..k])) {
      assert k == 0 || k == 1 || k == 2;
    }
  }

  lemma PlacedSure(e: Job, img: Image, journal: Option<seq<Record>>)
    requires Ready(e) && PlacedAll(e, img)
    ensures SurePlaced(e, Settled(img, journal))
  {
    hide Ready, CanonicalPiece;
    forall p | p in img ensures Certain(Settled(img, journal), p, img[p]) { }
  }

  lemma CommitProgress(e: Job, img: Image, d: Device, boots: Image)
    requires Ready(e) && Recoverable(e, d) && InProgress(e, img, d) && SurePlaced(e, d) && Sized(e.g, boots)
    ensures AlwaysInProgress(e, img, d, CommitOps(e, boots))
  {
    hide Ready, Keeps, ValidCopy, Sure, Kept, Execute, NewCopy, Recoverable, InProgress, SureCanonical, UpdateOps,
         SurePlaced;
    var fat := [Write(Fat, e.fat), Sync];
    SidesPresent(e, boots);
    var b, m := NewCopy(e, CopyAt(boots, Backup)), NewCopy(e, CopyAt(boots, Main));
    JournalOf(e, d);
    FatProgress(e, img, d);
    var d1 := Execute(d, fat);
    LastProgress(e, img, d, fat);
    RunValid(d, fat);
    UpdateProgress(e, img, d1, Backup, b);
    ProgressConcat(e, img, d, fat, UpdateOps(Backup, b));
    RunConcat(d, fat, UpdateOps(Backup, b));
    var d2 := Execute(d1, UpdateOps(Backup, b));
    LastProgress(e, img, d1, UpdateOps(Backup, b));
    RunValid(d1, UpdateOps(Backup, b));
    UpdateProgress(e, img, d2, Main, m);
    ProgressConcat(e, img, d, fat + UpdateOps(Backup, b), UpdateOps(Main, m));
  }

  lemma LastProgress(e: Job, img: Image, d: Device, ops: seq<Op>)
    requires Ready(e) && AlwaysInProgress(e, img, d, ops)
    ensures InProgress(e, img, Execute(d, ops))
  {
    hide Ready, InProgress;
    assert ops[..|ops|] == ops;
  }

  /** A recovery of an ordered image is in progress at every step. */
  lemma RecoveryProgress(e: Job, img: Image, order: seq<nat>)
    requires Ready(e) && RecoverableImage(e, img) && Ordered(e, img) && Permutation(order, |e.m|) && Indexes(e, order)
    ensures Sized(e.g, img) && AlwaysInProgress(e, img, Settled(img, Some(e.m)), RecoverOps(e, img, order))
  {
    hide Ready, Keeps, ValidCopy, Sure, Kept, Execute, ReplayOps, CommitOps, RepairOps, Always, Repaired, PlacedAll,
         Permutation, Indexes, Recoverable, CopyOk, InProgress, SurePlaced, OldRoot, Ordered, RecoverableImage, Certain,
         Opens;
    ImageSized(e, img);
    RepairedSized(e.g, img);
    RepairAlways(e, img);
    RepairProgress(e, img);
    var fixed := Repaired(e.g, img);
    if Opens(e, fixed) {
      ReplayProgress(e, img, fixed, order);
      ProgressConcat(e, img, Settled(img, Some(e.m)), RepairOps(e.g, img), ReplayOps(e, order) + CommitOps(e, fixed));
      assert RepairOps(e.g, img) + ReplayOps(e, order) + CommitOps(e, fixed)
          == RepairOps(e.g, img) + (ReplayOps(e, order) + CommitOps(e, fixed));
    }
  }

  lemma ReplayProgress(e: Job, img: Image, fixed: Image, order: seq<nat>)
    requires Ready(e) && Permutation(order, |e.m|) && Indexes(e, order)
    requires RecoverableImage(e, fixed) && CopyOk(fixed, Main) && CopyOk(fixed, Backup) && Sized(e.g, fixed)
    requires InProgress(e, img, Settled(fixed, Some(e.m)))
    requires Fat in img && Certain(Settled(fixed, Some(e.m)), Fat, img[Fat])
    ensures AlwaysInProgress(e, img, Settled(fixed, Some(e.m)), ReplayOps(e, order) + CommitOps(e, fixed))
  {
    hide Ready, Keeps, ValidCopy, Sure, Kept, Execute, ReplayOps, CommitOps, Always, PlacedAll, Permutation, Indexes,
         Recoverable, CopyOk, InProgress, SurePlaced, OldRoot, Ordered, RecoverableImage, Certain;
    SettledRecoverable(e, fixed);
    var d1 := Settled(fixed, Some(e.m));
    ReplayAlways(e, d1, order);
    var d2 := Execute(d1, ReplayOps(e, order));
    JournalOf(e, d1);
    forall k | 0 <= k <= |ReplayOps(e, order)| ensures InProgress(e, img, Execute(d1, ReplayOps(e, order)[..k])) {
      PlaceProgress(e, img, d1, order, k);
    }
    PlaceProgress(e, img, d1, order, |ReplayOps(e, order)|);
    assert ReplayOps(e, order)[..|ReplayOps(e, order)|] == ReplayOps(e, order);
    PlacedSure(e, d2.now, Some(e.m));
    CommitProgress(e, img, d2, fixed);
    ProgressConcat(e, img, d1, ReplayOps(e, order), CommitOps(e, fixed));
  }

  /** Repair rewrites the backup copy, or the main one over canonical data. */
  lemma RepairProgress(e: Job, img: Image)
    requires Ready(e) && RecoverableImage(e, img) && Ordered(e, img)
    ensures Sized(e.g, img) && AlwaysInProgress(e, img, Settled(img, Some(e.m)), RepairOps(e.g, img))
    ensures InProgress(e, img, Settled(Repaired(e.g, img), Some(e.m)))
    ensures Fat in img && Certain(Settled(Repaired(e.g, img), Some(e.m)), Fat, img[Fat])
  {
    hide Ready, InProgress, Keeps, ValidCopy, Execute, OldRoot, CanonicalData, SureCanonical, UpdateOps, NewRoot;
    SidesPresent(e, img);
    StartProgress(e, img);
    RepairAlways(e, img);
    var d := Settled(img, Some(e.m));
    if CopyOk(img, Main) {
      if CopyOk(img, Backup) {
        ProgressNone(e, img, d);
      } else {
        UpdateProgress(e, img, d, Backup, CopyAt(img, Main));
      }
    } else {
      UpdateProgress(e, img, d, Main, CopyAt(img, Backup));
    }
    LastProgress(e, img, d, RepairOps(e.g, img));
  }

  lemma ProgressNone(e: Job, img: Image, d: Device)
    requires Ready(e) && InProgress(e, img, d)
    ensures AlwaysInProgress(e, img, d, [])
  {
    hide Ready, InProgress;
    var none: seq<Op> := [];
    assert none[..0] == none;
  }

  /** Whatever a crash of a recovery leaves is progress from where the recovery started. */
  lemma OneRecovery(e: Job, before: Image, order: seq<nat>, k: nat, now: Image)
    requires Ready(e) && RecoverableImage(e, before) && Ordered(e, before) && RecoveryTo(e, before, order, k, now)
    ensures Progress(e, before, now)
  {
    hide Ready, Execute, RecoverOps, AfterCrash, Recoverable, Keeps, CopyOk, Finished, Permutation, Indexes, InProgress,
         Progress, Ordered;
    var final := RecoveryCompletes(e, before, order);
    RecoveryProgress(e, before, order);
    var d := Execute(Settled(before, Some(e.m)), RecoverOps(e, before, order)[..k]);
    CrashProgress(e, before, d, now);
  }

  /** After any number of crashed recoveries the image is in progress from where the first of them started. */
  lemma {:induction false} AlwaysProgress(e: Job, start: Image, n: nat, img: Image)
    requires Ready(e) && RecoverableImage(e, start) && Ordered(e, start) && CrashedFrom(e, start, n, img)
    ensures Progress(e, start, img)
  {
    hide Ready, RecoveryTo, ByteProgress, PlacedAll, Ordered, RecoverableImage;
    if n == 0 {
      ProgressStarts(e, start);
    } else {
      var before, order, k: nat :| CrashedFrom(e, start, n - 1, before) && RecoveryTo(e, before, order, k, img);
      AlwaysProgress(e, start, n - 1, before);
      OneRecovery(e, before, order, k, img);
      ProgressAdds(e, start, before, img);
    }
  }
}
